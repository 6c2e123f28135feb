/**
 Any number of messages, built, copied, assigned and appended to in any order:
 sharing blocks and copying them late cannot be told from copying at once.
 */
module MessagePrograms {
  import opened Codec
  import opened Fields
  import opened Ids
  import opened Messages
  import opened Sequences
  import Tags

  datatype Op =
    | Create(type_: Match)
    | Load(type_: Match, bytes: seq<Byte>, tagOffset: nat)
    | CopyOf(src: nat)
    | Assign(dst: nat, src: nat)
    | Append(dst: nat, field: Field)
    | AppendMsg(dst: nat, src: nat)
    | AddTag(dst: nat, block: Tags.TagBlock)
    | TakeTag(dst: nat)
    | Destroy(dst: nat)

  /** The operation names messages that exist, and takes off a tag only where there is one to read or none at all. */
  ghost predicate Legal(vs: seq<Value>, op: Op) {
    var n := |vs|;
    match op
    case Create(_) => true
    case Load(_, _, tagOffset) => tagOffset <= U32_NIL
    case CopyOf(src) => src < n
    case Assign(dst, src) => dst < n && src < n
    case Append(dst, f) => dst < n && WellTyped(f)
    case AppendMsg(dst, src) => dst < n && src < n
    case AddTag(dst, b) => dst < n && Tags.BlockFits(b)
    case TakeTag(dst) => dst < n && !Tags.Pop(vs[dst]).Failed?
    case Destroy(dst) => dst < n
  }

  ghost predicate Sane(vs: seq<Value>) {
    forall v :: v in vs ==> v.tagOffset <= U32_NIL
  }

  /** The same operation on values, where a copy is a copy of every byte. */
  ghost function Eager(vs: seq<Value>, op: Op): (r: seq<Value>)
    requires Legal(vs, op) && Sane(vs)
    ensures Sane(r)
  {
    match op
    case Create(t) => vs + [Value(t, U32_NIL, [], 0)]
    case Load(t, bytes, tagOffset) => vs + [Value(t, tagOffset, bytes, 0)]
    case CopyOf(j) => vs + [vs[j].(read := 0)]
    case Assign(i, j) => if i == j then vs else vs[i := vs[j].(read := 0)]
    case Append(i, f) => vs[i := vs[i].(bytes := vs[i].bytes + EncodeField(f))]
    case AppendMsg(i, j) => vs[i := vs[i].(bytes := vs[i].bytes + EncodeMessage(vs[j]))]
    case AddTag(i, b) => vs[i := Tags.Pushed(vs[i], b)]
    case TakeTag(i) => if Tags.Pop(vs[i]).NoTag? then vs else vs[i := Tags.Pop(vs[i]).rest]
    case Destroy(i) => RemoveAt(vs, i)
  }

  class Program {
    var msgs: seq<Message>
    ghost var larges: seq<Buffer?>
    ghost var contents: seq<Value>
    ghost var repr: set<object>

    ghost predicate Held(i: nat)
      requires i < |msgs| == |larges| == |contents|
      reads this, repr
    {
      && msgs[i] in repr && msgs[i].small in repr && msgs[i].buf in repr && larges[i] == msgs[i].large
      && (msgs[i].large != null ==> msgs[i].large in repr)
      && msgs[i].Wf() && contents[i] == msgs[i].AsValue()
    }

    ghost predicate Separate(i: nat, j: nat)
      requires i < |msgs| == |larges| == |contents| && j < |msgs| && Held(i) && Held(j)
      reads this, repr
    {
      msgs[i].Apart(msgs[j])
    }

    /** The count of a block is the number of messages that hold it. */
    ghost predicate Counts(i: nat)
      requires i < |msgs| == |larges| == |contents| && Held(i)
      reads this, repr
    {
      larges[i] != null ==> larges[i].count == multiset(larges)[larges[i]]
    }

    ghost predicate Valid()
      reads this, repr
    {
      && this !in repr
      && |msgs| == |larges| == |contents|
      && (forall i: nat :: i < |msgs| ==> Held(i))
      && (forall i: nat, j: nat :: i < |msgs| && j < |msgs| && i != j ==> Separate(i, j))
      && (forall i: nat :: i < |msgs| ==> Counts(i))
      && Sane(contents)
    }

    constructor ()
      ensures Valid() && fresh(repr) && contents == []
    {
      msgs, larges, contents, repr := [], [], [], {};
    }

    method Append(i: nat, f: Field)
      requires Valid() && i < |msgs| && WellTyped(f)
      modifies this, repr
      ensures Valid() && fresh(repr - old(repr))
      ensures contents == Eager(old(contents), Op.Append(i, f))
      ensures var v := old(contents)[i]; contents == old(contents)[i := v.(bytes := v.bytes + EncodeField(f))]
    {
      hide EncodeField, WellTyped, Separate, Counts, Sane;
      var m := msgs[i];
      assert Held(i);
      msgs[i].AppendField(f);
      larges := larges[i := m.large];
      contents := Eager(contents, Op.Append(i, f));
      repr := repr + {m.buf} + (if m.large != null then {m.large} else {});
      assert Held(i);
      Wrote(i);
    }

    method Create(t: Match)
      requires Valid()
      modifies this
      ensures Valid() && fresh(repr - old(repr))
      ensures contents == Eager(old(contents), Op.Create(t))
      ensures contents == old(contents) + [Value(t, U32_NIL, [], 0)]
    {
      hide Separate, Counts, Sane;
      var m := new Message(t);
      contents := Eager(contents, Op.Create(t));
      msgs, larges := msgs + [m], larges + [null];
      repr := repr + {m, m.small};
      Added(null);
      AddedSeparate(null);
    }

    method Load(t: Match, bytes: seq<Byte>, tagOffset: nat)
      requires Valid() && tagOffset <= U32_NIL
      modifies this
      ensures Valid() && fresh(repr - old(repr))
      ensures contents == Eager(old(contents), Op.Load(t, bytes, tagOffset))
      ensures contents == old(contents) + [Value(t, tagOffset, bytes, 0)]
    {
      hide Separate, Counts, Sane;
      var m := new Message.FromBytes(t, bytes, tagOffset);
      contents := Eager(contents, Op.Load(t, bytes, tagOffset));
      msgs, larges := msgs + [m], larges + [m.large];
      repr := repr + {m, m.small, m.buf} + (if m.large != null then {m.large} else {});
      Added(null);
      AddedSeparate(null);
    }

    method CopyOf(j: nat)
      requires Valid() && j < |msgs|
      modifies this, repr
      ensures Valid() && fresh(repr - old(repr))
      ensures contents == Eager(old(contents), Op.CopyOf(j))
      ensures contents == old(contents) + [old(contents)[j].(read := 0)]
      ensures |msgs| == old(|msgs|) + 1
    {
      hide Separate, Counts, Sane;
      assert Held(j);
      var m := new Message.Copy(msgs[j]);
      contents := Eager(contents, Op.CopyOf(j));
      msgs, larges := msgs + [m], larges + [m.large];
      repr := repr + {m, m.small, m.buf} + (if m.large != null then {m.large} else {});
      Added(m.large);
      AddedSeparate(m.large);
    }

    method AppendFrom(i: nat, j: nat)
      requires Valid() && i < |msgs| && j < |msgs| && i != j
      modifies this, repr
      ensures Valid() && fresh(repr - old(repr))
      ensures contents == Eager(old(contents), Op.AppendMsg(i, j)) && |msgs| == old(|msgs|)
    {
      AppendMsgMeans(contents, i, j);
      hide EncodeMessage, Separate, Counts, Sane, Eager, Legal;
      var m := msgs[i];
      assert Held(i) && this !in repr;
      AppendAlone(m, i, j);
      larges := larges[i := m.large];
      contents := Eager(contents, Op.AppendMsg(i, j));
      repr := repr + {m.buf} + (if m.large != null then {m.large} else {});
      assert Held(i);
      Wrote(i);
    }

    /** The append itself, and what it may have changed. */
    method AppendAlone(m: Message, i: nat, j: nat)
      requires Valid() && i < |msgs| && j < |msgs| && i != j && m == msgs[i] && m.Wf()
      modifies m`large, m`buf, m`size, m`writeSize, m.large, m.buf
      ensures m.Wf() && m.Privatised(old(m.large)) && i < |contents| && j < |contents|
      ensures contents[j].tagOffset <= U32_NIL
      ensures m.AsValue() == contents[i].(bytes := contents[i].bytes + EncodeMessage(contents[j]))
      ensures old(m.large) != null && old(m.large.count) > 1 ==> old(m.buf)[..] == old(m.buf[..])
    {
      hide EncodeMessage, Separate, Counts, Sane, Eager, Legal;
      assert Held(i) && Held(j);
      ReadyToAppend(i, j);
      m.AppendMessage(msgs[j]);
    }

    lemma ReadyToAppend(i: nat, j: nat)
      requires Valid() && i < |msgs| && j < |msgs| && i != j
      ensures Held(i) && Held(j) && msgs[i].Apart(msgs[j])
      ensures msgs[i].large != null && msgs[i].large == msgs[j].large ==> msgs[i].large.count > 1
    {
      assert Held(i) && Held(j) && Separate(i, j) && Counts(i);
      if larges[i] != null && larges[i] == larges[j] {
        TwoHolders(larges, i, j);
      }
    }

    /** The last holder of a block to go takes the block with it. */
    method Destroy(i: nat)
      requires Valid() && i < |msgs|
      modifies this, repr
      ensures Valid() && repr == old(repr)
      ensures contents == Eager(old(contents), Op.Destroy(i))
      ensures contents == old(contents)[..i] + old(contents)[i + 1..]
      ensures old(larges[i]) != null && old(larges[i]) !in larges ==> !old(larges[i]).alive
    {
      hide Separate, Sane;
      assert Held(i) && Counts(i);
      msgs[i].Drop();
      contents := Eager(contents, Op.Destroy(i));
      RemoveCount(larges, i);
      msgs, larges := RemoveAt(msgs, i), RemoveAt(larges, i);
      Removed(i);
      RemovedSeparate(i);
    }

    twostate lemma Removed(i: nat)
      requires old(Valid()) && i < old(|msgs|) && repr == old(repr)
      requires msgs == RemoveAt(old(msgs), i) && larges == RemoveAt(old(larges), i)
               && contents == RemoveAt(old(contents), i)
      requires var was := old(msgs[i].large);
               was != null ==>
                 was.count == old(was.count) - 1 && (was.alive <==> was.count > 0) && was.data == old(was.data)
      requires forall o :: o in repr && o != old(msgs[i].large) ==> unchanged(o)
      ensures forall j: nat :: j < |msgs| ==> Held(j) && Counts(j)
    {
      RemoveCount(old(larges), i);
      forall j: nat | j < |msgs| ensures Held(j) && Counts(j) {
        var jj: nat := if j < i then j else j + 1;
        assert old(Held(jj)) && old(Held(i)) && old(Counts(jj)) && old(Counts(i));
        assert msgs[j] == old(msgs[jj]) && larges[j] == old(larges[jj]) && contents[j] == old(contents[jj]);
        assert unchanged(msgs[j]) && unchanged(msgs[j].buf);
        if old(larges[i]) != null && old(larges[i]) == larges[j] {
          TwoHolders(old(larges), i, jj);
        }
      }
    }

    twostate lemma RemovedSeparate(i: nat)
      requires old(Valid()) && i < old(|msgs|) && |larges| == |contents| == |msgs|
      requires msgs == RemoveAt(old(msgs), i) && (forall j: nat :: j < |msgs| ==> Held(j))
      requires old(msgs[i].large) != null ==> old(msgs[i].large).data == old(msgs[i].large.data)
      requires forall o :: o in old(repr) && o != old(msgs[i].large) ==> unchanged(o)
      ensures forall j: nat, k: nat :: j < |msgs| && k < |msgs| && j != k ==> Separate(j, k)
    {
      forall j: nat, k: nat | j < |msgs| && k < |msgs| && j != k ensures Separate(j, k) {
        var jj: nat, kk: nat := if j < i then j else j + 1, if k < i then k else k + 1;
        assert old(Separate(jj, kk)) && Held(j) && Held(k);
        assert old(Held(jj)) && old(Held(kk));
        assert msgs[j] == old(msgs[jj]) && msgs[k] == old(msgs[kk]) && unchanged(msgs[j]) && unchanged(msgs[k]);
      }
    }

    method AppendMsg(i: nat, j: nat)
      requires Valid() && i < |msgs| && j < |msgs|
      modifies this, repr
      ensures Valid() && fresh(repr - old(repr))
      ensures contents == Eager(old(contents), Op.AppendMsg(i, j))
      ensures var v, more := old(contents)[i], EncodeMessage(old(contents)[j]);
              contents == old(contents)[i := v.(bytes := v.bytes + more)]
    {
      hide EncodeMessage, Sane;
      var n := |msgs|;
      CopyOf(j);
      AppendFrom(i, n);
      Destroy(n);
      ByValue(old(contents), i, j);
    }

    method Assign(i: nat, j: nat)
      requires Valid() && i < |msgs| && j < |msgs|
      modifies this, repr
      ensures Valid() && repr == old(repr)
      ensures contents == Eager(old(contents), Op.Assign(i, j))
      ensures i != j ==> contents == old(contents)[i := old(contents)[j].(read := 0)]
      ensures i == j ==> contents == old(contents)
      ensures old(larges[i]) != null && old(larges[i]) !in larges ==> !old(larges[i]).alive
    {
      if i != j {
        AssignOther(i, j);
      } else {
        assert Held(i);
        msgs[i].Assign(msgs[j]);
        Same();
      }
    }

    twostate lemma Same()
      requires old(Valid()) && unchanged(this) && unchanged(repr)
      ensures Valid()
    {
    }

    method AssignOther(i: nat, j: nat)
      requires Valid() && i < |msgs| && j < |msgs| && i != j
      modifies this, repr
      ensures Valid() && repr == old(repr)
      ensures contents == Eager(old(contents), Op.Assign(i, j))
      ensures old(larges[i]) != null && old(larges[i]) !in larges ==> !old(larges[i]).alive
    {
      hide Separate, Counts, Sane;
      assert Held(i) && Held(j);
      SeparateMeans(i, j);
      msgs[i].Assign(msgs[j]);
      contents := Eager(contents, Op.Assign(i, j));
      larges := larges[i := larges[j]];
      Assigned(i, j);
    }

    lemma SeparateMeans(i: nat, j: nat)
      requires Valid() && i < |msgs| && j < |msgs| && i != j
      ensures Held(i) && Held(j) && msgs[i].Apart(msgs[j])
    {
      assert Separate(i, j);
    }

    twostate lemma Assigned(i: nat, new j: nat)
      requires old(Valid()) && i < |msgs| && j < |msgs| && i != j && msgs == old(msgs) && repr == old(repr)
      requires larges == old(larges)[i := old(larges)[j]] && |contents| == |msgs|
               && contents == old(contents)[i := contents[i]]
      requires Held(i)
      requires forall n :: n in msgs && n != msgs[i] ==> unchanged(n)
      requires forall o ::
                 o in repr && o != msgs[i] && o != msgs[i].small && o != old(larges[i]) && o != old(larges[j]) ==>
                 unchanged(o)
      requires old(larges[i]) != null && old(larges[i]) != old(larges[j]) ==>
                 old(larges[i]).data == old(larges[i].data) && (old(larges[i]).alive <==> old(larges[i]).count > 0)
                 && old(larges[i]).count == old(larges[i].count) - 1
      requires old(larges[j]) != null ==>
                 old(larges[j]).data == old(larges[j].data) && old(larges[j]).alive
                 && old(larges[j]).count == old(larges[j].count) + (if old(larges[i]) == old(larges[j]) then 0 else 1)
      ensures forall k: nat :: k < |msgs| ==> Held(k) && Counts(k)
      ensures forall k: nat, l: nat :: k < |msgs| && l < |msgs| && k != l ==> Separate(k, l)
      ensures old(larges[i]) != null && old(larges[i]) !in larges ==> !old(larges[i]).alive
    {
      assert old(Held(i)) && old(Held(j)) && old(Counts(j));
      AssignedHeld(i, j);
      hide Held, Separate;
      InRepr(i, j);
      AssignedCounts(i, j);
      AssignedSeparate(i, j);
      Orphaned(i, j);
    }

    twostate lemma InRepr(i: nat, new j: nat)
      requires old(Valid()) && i < old(|msgs|) && j < old(|msgs|) && repr == old(repr)
      requires forall o ::
                 o in repr && o != old(msgs[i]) && o != old(msgs[i].small) &&
                 o != old(larges[i]) && o != old(larges[j]) ==>
                 unchanged(o)
      ensures forall b :: b in old(larges) && b != null && b != old(larges[i]) && b != old(larges[j]) ==> unchanged(b)
    {
      forall b | b in old(larges) && b != null && b != old(larges[i]) && b != old(larges[j]) ensures unchanged(b) {
        var k: nat :| k < |old(larges)| && old(larges)[k] == b;
        assert old(Held(k));
      }
    }

    twostate lemma AssignedHeld(i: nat, new j: nat)
      requires old(Valid()) && i < |msgs| && j < |msgs| && i != j && msgs == old(msgs) && repr == old(repr)
      requires larges == old(larges)[i := old(larges)[j]] && |contents| == |msgs|
               && contents == old(contents)[i := contents[i]]
      requires Held(i)
      requires forall n :: n in msgs && n != msgs[i] ==> unchanged(n)
      requires forall o ::
                 o in repr && o != msgs[i] && o != msgs[i].small && o != old(larges[i]) && o != old(larges[j]) ==>
                 unchanged(o)
      requires old(larges[i]) != null && old(larges[i]) != old(larges[j]) ==>
                 old(larges[i]).data == old(larges[i].data) && (old(larges[i]).alive <==> old(larges[i]).count > 0)
                 && old(larges[i]).count == old(larges[i].count) - 1
      requires old(larges[j]) != null ==>
               old(larges[j]).data == old(larges[j].data) && old(larges[j]).alive && old(larges[j]).count > 0
      ensures forall k: nat :: k < |msgs| ==> Held(k)
    {
      var m, was := msgs[i], old(larges[i]);
      forall k: nat | k < |msgs| && k != i ensures Held(k) {
        assert old(Held(k)) && old(Separate(i, k)) && old(Counts(i));
        var n := msgs[k];
        assert n in msgs && n != m && unchanged(n) && n.large == larges[k];
        if n.large != null && n.large == was {
          TwoHolders(old(larges), i, k);
        }
        assert unchanged(n.buf);
      }
    }

    twostate lemma AssignedCounts(i: nat, new j: nat)
      requires old(Valid()) && i < |msgs| && j < |msgs| && i != j && |larges| == |contents| == |msgs| == old(|msgs|)
      requires larges == old(larges)[i := old(larges)[j]] && forall k: nat :: k < |msgs| ==> Held(k)
      requires forall b :: b in old(larges) && b != null && b != old(larges[i]) && b != old(larges[j]) ==> unchanged(b)
      requires old(larges[i]) == old(larges[j]) && old(larges[i]) != null ==>
               old(larges[i]).count == old(larges[i].count)
      requires old(larges[i]) != old(larges[j]) && old(larges[j]) != null ==>
               old(larges[j]).count == old(larges[j].count) + 1
      requires old(larges[i]) != old(larges[j]) && old(larges[i]) != null ==>
               old(larges[i]).count == old(larges[i].count) - 1
      ensures forall k: nat :: k < |msgs| ==> Counts(k)
    {
      UpdateCount(old(larges), i, old(larges[j]));
      assert old(Held(i)) && old(Held(j)) && old(Counts(i)) && old(Counts(j));
      forall k: nat | k < |msgs| ensures Counts(k) {
        assert old(Held(k)) && old(Counts(k)) && Held(k);
        assert larges[k] == (if k == i then old(larges[j]) else old(larges[k])) && larges[k] in old(larges);
      }
    }

    /** A block that nobody holds any more is gone. */
    twostate lemma Orphaned(i: nat, new j: nat)
      requires old(Valid()) && i < old(|msgs|) && j < old(|msgs|) && larges == old(larges)[i := old(larges)[j]]
      requires old(larges[i]) != null && old(larges[i]) != old(larges[j]) ==>
                 old(larges[i]).count == old(larges[i].count) - 1
                   && (old(larges[i]).alive <==> old(larges[i]).count > 0)
      ensures old(larges[i]) != null && old(larges[i]) !in larges ==> !old(larges[i]).alive
    {
      var was := old(larges[i]);
      assert old(Held(i)) && old(Counts(i));
      UpdateCount(old(larges), i, old(larges[j]));
      assert larges[i] == old(larges[j]);
      if was != null && was !in larges {
        assert multiset(larges)[was] == 0;
      }
    }

    twostate lemma AssignedSeparate(i: nat, new j: nat)
      requires old(Valid()) && i < |msgs| && j < |msgs| && i != j && msgs == old(msgs)
      requires |larges| == |contents| == |msgs| && forall k: nat :: k < |msgs| ==> Held(k)
      requires old(Held(i)) && old(Held(j)) && msgs[i].large == old(msgs[j].large)
      requires forall n :: n in msgs && n != msgs[i] ==> unchanged(n)
      ensures forall k: nat, l: nat :: k < |msgs| && l < |msgs| && k != l ==> Separate(k, l)
    {
      forall k: nat | k < |msgs| && k != i
        ensures old(Held(k)) && msgs[k].large == old(msgs[k].large)
        ensures msgs[k].large != null ==> msgs[k].large.data == old(msgs[k].buf) == old(msgs[k].large.data)
      {
        assert old(Held(k)) && Held(k) && old(Separate(i, k)) && msgs[k] in msgs && unchanged(msgs[k]);
      }
      forall l: nat | l < |msgs| && l != i ensures Separate(i, l) && Separate(l, i) {
        assert old(Separate(i, l)) && (l != j ==> old(Separate(j, l)));
      }
      forall k: nat, l: nat | k < |msgs| && l < |msgs| && k != l && k != i && l != i ensures Separate(k, l) {
        assert old(Separate(k, l));
      }
    }

    /** A new message is on its own, or one more holder of the block of message `src`. */
    twostate lemma Added(shared: Buffer?)
      requires old(Valid()) && |msgs| == old(|msgs|) + 1 && msgs == old(msgs) + [msgs[|msgs| - 1]] && old(repr) <= repr
      requires larges == old(larges) + [msgs[|msgs| - 1].large] && |contents| == |msgs|
               && contents[..|msgs| - 1] == old(contents)
      requires Held(|msgs| - 1) && fresh(msgs[|msgs| - 1]) && fresh(msgs[|msgs| - 1].small)
      requires shared == null && msgs[|msgs| - 1].large != null ==>
                 var b := msgs[|msgs| - 1].large; fresh(b) && fresh(b.data) && b.count == 1
      requires shared != null ==> msgs[|msgs| - 1].large == shared && shared in old(larges) && shared.alive
                                  && shared.data == old(shared.data) && shared.count == old(shared.count) + 1
      requires forall o :: o in old(repr) && o != shared ==> unchanged(o)
      ensures forall j: nat :: j < |msgs| ==> Held(j) && Counts(j)
    {
      var m := msgs[|msgs| - 1];
      assert multiset(larges) == multiset(old(larges)) + multiset{m.large};
      forall j: nat | j < |msgs| - 1 ensures Held(j) && Counts(j) {
        assert old(Held(j)) && old(Counts(j)) && unchanged(msgs[j]) && msgs[j] == old(msgs[j]);
        assert contents[j] == contents[..|msgs| - 1][j];
        assert unchanged(msgs[j].buf);
        assert msgs[j].large != null && msgs[j].large != shared ==> unchanged(msgs[j].large);
      }
      if shared != null {
        var j: nat :| j < |msgs| - 1 && old(larges[j]) == shared;
        assert old(Held(j)) && old(Counts(j));
      }
      assert Counts(|msgs| - 1);
    }

    twostate lemma AddedSeparate(shared: Buffer?)
      requires old(Valid()) && |msgs| == old(|msgs|) + 1 && msgs == old(msgs) + [msgs[|msgs| - 1]]
      requires |larges| == |contents| == |msgs| && forall j: nat :: j < |msgs| ==> Held(j)
      requires fresh(msgs[|msgs| - 1]) && fresh(msgs[|msgs| - 1].small)
      requires shared == null && msgs[|msgs| - 1].large != null ==>
                 var b := msgs[|msgs| - 1].large; fresh(b) && fresh(b.data)
      requires shared != null ==>
               msgs[|msgs| - 1].large == shared && shared in old(larges) && shared.data == old(shared.data)
      requires forall o :: o in old(repr) && o != shared ==> unchanged(o)
      ensures forall j: nat, k: nat :: j < |msgs| && k < |msgs| && j != k ==> Separate(j, k)
    {
      var n := |msgs| - 1;
      var m := msgs[n];
      var src: nat := if shared == null then 0 else var j: nat :| j < n && old(larges[j]) == shared; j;
      forall k: nat | k < n ensures Separate(n, k) && Separate(k, n) {
        assert old(Held(k)) && Held(k) && msgs[k] == old(msgs[k]) && unchanged(msgs[k]);
        if shared != null {
          assert old(Held(src)) && (k != src ==> old(Separate(src, k)));
        }
      }
      forall j: nat, k: nat | j < n && k < n && j != k ensures Separate(j, k) {
        assert old(Held(j)) && Held(j) && msgs[j] == old(msgs[j]) && unchanged(msgs[j]);
        assert old(Held(k)) && Held(k) && msgs[k] == old(msgs[k]) && unchanged(msgs[k]);
        assert old(Separate(j, k));
      }
    }

    twostate lemma Wrote(i: nat)
      requires old(Valid()) && i < |msgs| && msgs == old(msgs) && old(repr) <= repr
      requires larges == old(larges)[i := msgs[i].large]
      requires |contents| == |msgs| && contents == old(contents)[i := contents[i]]
      requires old(Held(i)) && Held(i) && msgs[i].Privatised(old(msgs[i].large))
      requires forall n :: n in msgs && n != msgs[i] ==> unchanged(n)
      requires forall n :: n in msgs && n != msgs[i] && n.large != null && n.large != old(msgs[i].large) ==>
               unchanged(n.large)
      requires forall n :: n in msgs && n != msgs[i] && n.buf != old(msgs[i].buf) ==> unchanged(n.buf)
      requires old(msgs[i].large) != null && old(msgs[i].large.count) > 1 ==>
               old(msgs[i].buf)[..] == old(msgs[i].buf[..])
      ensures forall j: nat :: j < |msgs| ==> Held(j) && Counts(j)
      ensures forall j: nat, k: nat :: j < |msgs| && k < |msgs| && j != k ==> Separate(j, k)
    {
      hide Separate, Counts;
      OthersKept(i);
      SeparateKept(i);
    }

    /** A tag goes behind the body of one message, and of no copy of it. */
    method AddTag(i: nat, b: Tags.TagBlock)
      requires Valid() && i < |msgs| && Tags.BlockFits(b)
      modifies this, repr
      ensures Valid() && fresh(repr - old(repr))
      ensures contents == Eager(old(contents), Op.AddTag(i, b))
      ensures var v := old(contents)[i];
              contents == old(contents)[i := v.(tagOffset := Low32(|v.bytes|), bytes := v.bytes + Tags.EncodeBlock(b))]
    {
      hide Tags.BlockFits, Tags.EncodeBlock, Low32, Separate, Counts, Sane;
      var m := msgs[i];
      assert Held(i);
      Tags.PushTag(msgs[i], b);
      larges := larges[i := m.large];
      contents := Eager(contents, Op.AddTag(i, b));
      repr := repr + {m.buf} + (if m.large != null then {m.large} else {});
      assert Held(i);
      Wrote(i);
    }

    method TakeTag(i: nat)
      requires Valid() && i < |msgs| && !Tags.Pop(contents[i]).Failed?
      modifies this, repr
      ensures Valid() && repr == old(repr)
      ensures contents == Eager(old(contents), Op.TakeTag(i))
      ensures var v := old(contents)[i];
              contents == if v.tagOffset == U32_NIL then old(contents)
                          else old(contents)[i := v.(bytes := v.bytes[..v.tagOffset], read := 0)]
    {
      TakenOff(contents, i);
      hide Eager, Tags.Pop, Separate, Counts, Sane;
      assert Held(i);
      var b := Tags.PopTag(msgs[i]);
      contents := Eager(contents, Op.TakeTag(i));
      assert Held(i);
      Touched(i);
    }

    /** Moving the cursors of one message concerns no other. */
    twostate lemma Touched(i: nat)
      requires old(Valid()) && i < |msgs| && msgs == old(msgs) && larges == old(larges) && repr == old(repr)
      requires |contents| == |msgs| && (forall j: nat :: j < |msgs| && j != i ==> contents[j] == old(contents)[j])
      requires Held(i) && msgs[i].large == old(msgs[i].large) && msgs[i].buf == old(msgs[i].buf)
      requires forall o :: o in repr && o != msgs[i] ==> unchanged(o)
      ensures forall j: nat :: j < |msgs| ==> Held(j) && Counts(j)
      ensures forall j: nat, k: nat :: j < |msgs| && k < |msgs| && j != k ==> Separate(j, k)
    {
      forall j: nat | j < |msgs| ensures Held(j) && Counts(j) {
        assert old(Held(j)) && old(Counts(j)) && old(Held(i));
        if j != i {
          assert old(Separate(i, j)) && unchanged(msgs[j]);
        }
      }
      forall j: nat, k: nat | j < |msgs| && k < |msgs| && j != k ensures Separate(j, k) {
        assert old(Separate(j, k)) && Held(j) && Held(k) && old(Held(j)) && old(Held(k));
        assert msgs[j].large == old(msgs[j].large) && msgs[k].large == old(msgs[k].large);
        assert msgs[j].large != null ==> unchanged(msgs[j].large);
        assert msgs[k].large != null ==> unchanged(msgs[k].large);
      }
    }

    /** A write to message i leaves every other message as it was, and every block counted. */
    twostate lemma OthersKept(i: nat)
      requires old(Valid()) && i < |msgs| && msgs == old(msgs) && old(repr) <= repr
      requires larges == old(larges)[i := msgs[i].large]
      requires |contents| == |msgs| && contents == old(contents)[i := contents[i]]
      requires old(Held(i)) && Held(i) && msgs[i].Privatised(old(msgs[i].large))
      requires forall n :: n in msgs && n != msgs[i] ==> unchanged(n)
      requires forall n :: n in msgs && n != msgs[i] && n.large != null && n.large != old(msgs[i].large) ==>
               unchanged(n.large)
      requires forall n :: n in msgs && n != msgs[i] && n.buf != old(msgs[i].buf) ==> unchanged(n.buf)
      requires old(msgs[i].large) != null && old(msgs[i].large.count) > 1 ==>
               old(msgs[i].buf)[..] == old(msgs[i].buf[..])
      ensures forall j: nat :: j < |msgs| ==> Held(j) && Counts(j)
    {
      var m, was := msgs[i], old(msgs[i].large);
      UpdateCount(old(larges), i, m.large);
      forall j: nat | j < |msgs| && j != i ensures Held(j) && Counts(j) {
        assert old(Held(j)) && old(Separate(i, j)) && old(Counts(i)) && old(Counts(j));
        var n := msgs[j];
        assert n in msgs && n != m;
        assert unchanged(n);
        assert n.large == larges[j];
        if n.large != null && n.large == was {
          TwoHolders(old(larges), i, j);
          assert n.buf == old(m.buf);
          assert n.buf[..] == old(n.buf[..]);
        } else {
          assert n.buf != old(m.buf);
          assert unchanged(n.buf);
        }
        assert n.Wf();
        assert contents[j] == n.AsValue();
      }
      assert Counts(i);
    }

    /** The writer's block is its own or was its own before, so nothing new is shared. */
    twostate lemma SeparateKept(i: nat)
      requires old(Valid()) && i < |msgs| && msgs == old(msgs)
      requires |larges| == |contents| == |msgs| && forall j: nat :: j < |msgs| ==> Held(j)
      requires old(Held(i)) && msgs[i].Privatised(old(msgs[i].large))
      requires forall n :: n in msgs && n != msgs[i] ==> unchanged(n)
      ensures forall j: nat, k: nat :: j < |msgs| && k < |msgs| && j != k ==> Separate(j, k)
    {
      forall j: nat, k: nat | j < |msgs| && k < |msgs| && j != k ensures Separate(j, k) {
        assert old(Held(j)) && old(Held(k)) && old(Separate(j, k)) && Held(j) && Held(k);
        assert msgs[j] in msgs && msgs[k] in msgs;
      }
    }

    method Step(op: Op)
      requires Valid() && Legal(contents, op)
      modifies this, repr
      ensures Valid() && fresh(repr - old(repr))
      ensures contents == Eager(old(contents), op)
    {
      hide Eager, Held;
      match op {
        case Create(t) => Create(t);
        case Load(t, bytes, tagOffset) => Load(t, bytes, tagOffset);
        case CopyOf(j) => CopyOf(j);
        case Assign(i, j) => Assign(i, j);
        case Append(i, f) => Append(i, f);
        case AppendMsg(i, j) => AppendMsg(i, j);
        case AddTag(i, b) => AddTag(i, b);
        case TakeTag(i) => TakeTag(i);
        case Destroy(i) => Destroy(i);
      }
    }

    /** A message is small exactly when it holds no block, and a block's count is the number of its holders. */
    lemma Sharing(i: nat)
      requires Valid() && i < |msgs|
      ensures msgs[i] in repr && (msgs[i].IsSmall() <==> msgs[i].large == null)
      ensures msgs[i].large != null ==> msgs[i].large in repr && msgs[i].large.alive
                                        && msgs[i].large.count == |Holders(larges, msgs[i].large)|
      ensures forall k: nat :: k < |msgs| ==> larges[k] == msgs[k].large
    {
      assert Held(i) && Counts(i);
      forall k: nat | k < |msgs| ensures larges[k] == msgs[k].large {
        assert Held(k);
      }
      if msgs[i].large != null {
        HoldersCounted(larges, msgs[i].large);
      }
    }

    /** Any program leaves every message with the bytes that copying at once would have given it. */
    method Run(ops: seq<Op>)
      requires Valid() && EagerRun(contents, ops).Some?
      modifies this, repr
      ensures Valid() && fresh(repr - old(repr))
      ensures EagerRun(old(contents), ops) == Some(contents)
    {
      for n := 0 to |ops|
        invariant Valid() && fresh(repr - old(repr))
        invariant EagerRun(old(contents), ops[..n]) == Some(contents)
      {
        PrefixRuns(old(contents), ops, n + 1);
        assert ops[..n + 1][..n] == ops[..n];
        Step(ops[n]);
      }
      assert ops[..|ops|] == ops;
    }
  }

  /** Taking off a tag leaves what is in front of it. */
  lemma TakenOff(vs: seq<Value>, i: nat)
    requires i < |vs| && Sane(vs) && !Tags.Pop(vs[i]).Failed?
    ensures Eager(vs, TakeTag(i)) ==
            if vs[i].tagOffset == U32_NIL || vs[i].tagOffset > |vs[i].bytes| then vs
            else vs[i := vs[i].(bytes := vs[i].bytes[..vs[i].tagOffset], read := 0)]
    ensures vs[i].tagOffset == U32_NIL || vs[i].tagOffset <= |vs[i].bytes|
  {
    Tags.PopCuts(vs[i]);
    hide Tags.Pop;
  }

  ghost function EagerRun(vs: seq<Value>, ops: seq<Op>): (r: Option<seq<Value>>)
    requires Sane(vs)
    ensures r.Some? ==> Sane(r.value)
  {
    if ops == [] then Some(vs)
    else
      var before := EagerRun(vs, ops[..|ops| - 1]);
      if before.Some? && Legal(before.value, ops[|ops| - 1]) then Some(Eager(before.value, ops[|ops| - 1])) else None
  }

  lemma {:induction false} PrefixRuns(vs: seq<Value>, ops: seq<Op>, n: nat)
    requires Sane(vs) && n <= |ops| && EagerRun(vs, ops).Some?
    ensures EagerRun(vs, ops[..n]).Some?
  {
    if n < |ops| {
      assert ops[..|ops| - 1][..n] == ops[..n];
      PrefixRuns(vs, ops[..|ops| - 1], n);
    } else {
      assert ops[..n] == ops;
    }
  }

  ghost function Holders(s: seq<Buffer?>, b: Buffer?): set<nat> {
    set k: nat | k < |s| && s[k] == b
  }

  lemma {:induction false} HoldersCounted(s: seq<Buffer?>, b: Buffer?)
    ensures multiset(s)[b] == |Holders(s, b)|
  {
    if s == [] {
      assert Holders(s, b) == {};
    } else {
      var n := |s| - 1;
      HoldersCounted(s[..n], b);
      assert s == s[..n] + [s[n]];
      assert Holders(s, b) == Holders(s[..n], b) + (if s[n] == b then {n} else {});
    }
  }

  lemma TwoHolders(s: seq<Buffer?>, i: nat, j: nat)
    requires i < |s| && j < |s| && i != j && s[i] == s[j] != null
    ensures multiset(s)[s[i]] >= 2
  {
    var t := s[i := null];
    assert multiset(t) == multiset(s) - multiset{s[i]} + multiset{null};
    assert t[j] in multiset(t);
  }

  lemma UpdateCount(s: seq<Buffer?>, i: nat, b: Buffer?)
    requires i < |s|
    ensures multiset(s[i := b]) == multiset(s) - multiset{s[i]} + multiset{b} && s[i] in multiset(s)
  {
  }

  lemma RemoveCount(s: seq<Buffer?>, i: nat)
    requires i < |s|
    ensures multiset(RemoveAt(s, i)) == multiset(s) - multiset{s[i]} && s[i] in multiset(s)
  {
    assert s == s[..i] + [s[i]] + s[i + 1..];
  }

  lemma AppendMsgMeans(vs: seq<Value>, i: nat, j: nat)
    requires Sane(vs) && i < |vs| && j < |vs|
    ensures Legal(vs, AppendMsg(i, j))
    ensures Eager(vs, AppendMsg(i, j)) == vs[i := vs[i].(bytes := vs[i].bytes + EncodeMessage(vs[j]))]
  {
  }

  /** A message argument is a copy that lives as long as the call. */
  lemma ByValue(vs: seq<Value>, i: nat, j: nat)
    requires Sane(vs) && i < |vs| && j < |vs|
    ensures Sane(Eager(vs, CopyOf(j))) && Sane(Eager(Eager(vs, CopyOf(j)), AppendMsg(i, |vs|)))
    ensures Eager(Eager(Eager(vs, CopyOf(j)), AppendMsg(i, |vs|)), Destroy(|vs|)) == Eager(vs, AppendMsg(i, j))
  {
    var one := Eager(vs, CopyOf(j));
    var two := Eager(one, AppendMsg(i, |vs|));
    SameBytes(vs[j]);
    assert RemoveAt(two, |vs|) == Eager(vs, AppendMsg(i, j));
  }

  lemma SameBytes(v: Value)
    requires v.tagOffset <= U32_NIL
    ensures EncodeMessage(v.(read := 0)) == EncodeMessage(v)
  {
  }
}
