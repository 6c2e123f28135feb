/**
 The multi-index mailbox: one arrival list, a queue of list iterators for each
 message type (a vector for small types, a map for the rest), and two indexes
 of the exit notices it holds.
 */
module Mailboxes {
  import opened Ids
  import opened MailboxSpec
  import opened Sequences

  datatype Response = Response(id: nat, aid: Aid, recver: Aid, svc: SvcId)

  // ---------------------------------------------------------------- iterators

  /** The entry that an iterator names. */
  ghost predicate Names(q: seq<Entry>, it: nat) {
    exists i :: 0 <= i < |q| && q[i].id == it
  }

  function Position(q: seq<Entry>, it: nat): (i: nat)
    requires Names(q, it)
    ensures i < |q| && q[i].id == it
  {
    if q[0].id == it then 0
    else
      assert Names(q[1..], it) by {
        var i :| 0 <= i < |q| && q[i].id == it;
        assert q[1..][i - 1].id == it;
      }
      1 + Position(q[1..], it)
  }

  /** A type queue without one of its iterators. */
  function Without(s: seq<nat>, it: nat): seq<nat> {
    if s == [] then []
    else if s[|s| - 1] == it then s[..|s| - 1]
    else Without(s[..|s| - 1], it) + [s[|s| - 1]]
  }

  /** The iterators of the entries of type `t`, oldest first. */
  function IdsOf(q: seq<Entry>, t: Match): seq<nat> {
    if q == [] then []
    else if q[|q| - 1].msg.typ == t then IdsOf(q[..|q| - 1], t) + [q[|q| - 1].id]
    else IdsOf(q[..|q| - 1], t)
  }

  lemma {:induction false} IdsMembers(q: seq<Entry>, t: Match)
    ensures forall it :: it in IdsOf(q, t) <==> exists i :: 0 <= i < |q| && q[i].id == it && q[i].msg.typ == t
  {
    if q != [] {
      var h := q[..|q| - 1];
      IdsMembers(h, t);
      forall it | it in IdsOf(q, t)
        ensures exists i :: 0 <= i < |q| && q[i].id == it && q[i].msg.typ == t
      {
        if it in IdsOf(h, t) {
          var i :| 0 <= i < |h| && h[i].id == it && h[i].msg.typ == t;
          assert q[i].id == it;
        }
      }
      forall i | 0 <= i < |q| && q[i].msg.typ == t ensures q[i].id in IdsOf(q, t) {
        if i < |h| { assert h[i] == q[i]; }
      }
    }
  }

  /** Erasing one entry erases its iterator from its type's queue and touches no other queue. */
  lemma {:induction false} IdsAfterErase(q: seq<Entry>, i: nat, t: Match)
    requires Ordered(q) && i < |q|
    ensures IdsOf(RemoveAt(q, i), t) == if q[i].msg.typ == t then Without(IdsOf(q, t), q[i].id) else IdsOf(q, t)
  {
    var h, last := q[..|q| - 1], q[|q| - 1];
    var r := RemoveAt(q, i);
    WithoutLast(IdsOf(h, t), last.id, q[i].id);
    if i == |q| - 1 {
      assert r == h;
    } else {
      IdsAfterErase(h, i, t);
      assert r == RemoveAt(h, i) + [last];
      assert r[..|r| - 1] == RemoveAt(h, i);
    }
  }

  lemma WithoutLast(s: seq<nat>, last: nat, it: nat)
    ensures Without(s + [last], it) == if last == it then s else Without(s, it) + [last]
  {
    assert (s + [last])[..|s|] == s;
  }

  /** The oldest entry of a type is the head of that type's queue. */
  lemma {:induction false} IdsHead(q: seq<Entry>, t: Match)
    requires Ordered(q)
    ensures FirstOfType(q, t).None? <==> IdsOf(q, t) == []
    ensures FirstOfType(q, t).Some? ==>
              IdsOf(q, t)[0] == q[FirstOfType(q, t).value].id
              && Without(IdsOf(q, t), IdsOf(q, t)[0]) == IdsOf(q, t)[1..]
  {
    if q != [] {
      var h := q[..|q| - 1];
      IdsHead(h, t);
      var s := IdsOf(h, t);
      if s != [] && q[|q| - 1].msg.typ == t {
        assert h[FirstOfType(h, t).value].id < q[|q| - 1].id;
        WithoutLast(s, q[|q| - 1].id, s[0]);
      }
    }
  }

  // ---------------------------------------------------------------- agreement of the indexes

  function QueueOf(cached: seq<seq<nat>>, extra: map<Match, seq<nat>>, t: Match): seq<nat> {
    if t < |cached| then cached[t] else if t in extra then extra[t] else []
  }

  /** Each type queue is the subsequence of the arrival list of that type; map-held queues are never empty. */
  ghost predicate TypesAgree(q: seq<Entry>, cached: seq<seq<nat>>, extra: map<Match, seq<nat>>) {
    && (forall t: Match :: QueueOf(cached, extra, t) == IdsOf(q, t))
    && (forall t :: t in extra ==> extra[t] != [] && t >= |cached|)
  }

  /** The queued notice that occupies slot `s`. */
  function Holder(q: seq<Entry>, s: Slot): Option<Entry> {
    if q == [] then None
    else if SlotOf(q[|q| - 1]) == s then Some(q[|q| - 1])
    else Holder(q[..|q| - 1], s)
  }

  lemma {:induction false} HolderMeaning(q: seq<Entry>, s: Slot)
    ensures Holder(q, s).None? <==> forall i :: 0 <= i < |q| ==> SlotOf(q[i]) != s
    ensures Holder(q, s).Some? ==> exists i :: 0 <= i < |q| && q[i] == Holder(q, s).value && SlotOf(q[i]) == s
  {
    if q != [] {
      var h := q[..|q| - 1];
      HolderMeaning(h, s);
      if SlotOf(q[|q| - 1]) != s && Holder(h, s).Some? {
        var i :| 0 <= i < |h| && h[i] == Holder(h, s).value && SlotOf(h[i]) == s;
        assert q[i] == h[i];
      }
    }
  }

  lemma {:induction false} HolderAfterErase(q: seq<Entry>, i: nat, s: Slot)
    requires i < |q| && OnePerSlot(q) && !s.NoSlot?
    ensures Holder(RemoveAt(q, i), s) == if SlotOf(q[i]) == s then None else Holder(q, s)
  {
    var h, last := q[..|q| - 1], q[|q| - 1];
    if i == |q| - 1 {
      assert RemoveAt(q, i) == h;
      HolderMeaning(h, s);
    } else {
      HolderAfterErase(h, i, s);
      assert RemoveAt(q, i) == RemoveAt(h, i) + [last];
      assert RemoveAt(q, i)[..|q| - 2] == RemoveAt(h, i);
    }
  }

  lemma {:induction false} HolderAfterVacate(q: seq<Entry>, x: Slot, s: Slot)
    requires s != x
    ensures Holder(Select(q, OtherSlot(x)), s) == Holder(q, s)
  {
    if q != [] {
      var h, last := q[..|q| - 1], q[|q| - 1];
      HolderAfterVacate(h, x, s);
      assert (Select(h, OtherSlot(x)) + [last])[..|Select(h, OtherSlot(x))|] == Select(h, OtherSlot(x));
    }
  }

  lemma HolderAfterPush(q: seq<Entry>, e: Entry, s: Slot)
    requires !s.NoSlot?
    ensures Holder(Pushed(q, e), s) == if SlotOf(e) == s then Some(e) else Holder(q, s)
  {
    var v := Vacated(q, SlotOf(e));
    assert (v + [e])[..|v|] == v;
    if SlotOf(e) != s && !SlotOf(e).NoSlot? {
      HolderAfterVacate(q, SlotOf(e), s);
    }
  }

  /** What the two exit indexes hold for a slot: who is credited, and the iterator. */
  function Known(exits: map<AidKey, nat>, svcExits: map<SvcId, (Aid, nat)>, s: Slot): Option<(Option<Aid>, nat)> {
    match s
    case NoSlot => None
    case BySender(k) => if k in exits then Some((None, exits[k])) else None
    case ByService(v) => if v in svcExits then Some((Some(svcExits[v].0), svcExits[v].1)) else None
  }

  function Note(h: Option<Entry>): Option<(Option<Aid>, nat)> {
    match h
    case None => None
    case Some(e) => Some((if SlotOf(e).ByService? then Some(SenderOf(e.src)) else None, e.id))
  }

  /** The exit indexes hold exactly the queued notices, under the slots they occupy. */
  ghost predicate ExitsAgree(q: seq<Entry>, exits: map<AidKey, nat>, svcExits: map<SvcId, (Aid, nat)>) {
    forall s: Slot :: !s.NoSlot? ==> Known(exits, svcExits, s) == Note(Holder(q, s))
  }

  function ExitsWith(exits: map<AidKey, nat>, e: Entry): map<AidKey, nat> {
    if SlotOf(e).BySender? then exits[SlotOf(e).key := e.id] else exits
  }

  function SvcExitsWith(svcExits: map<SvcId, (Aid, nat)>, e: Entry): map<SvcId, (Aid, nat)> {
    if SlotOf(e).ByService? then svcExits[SlotOf(e).svc := (SenderOf(e.src), e.id)] else svcExits
  }

  function ExitsWithout(exits: map<AidKey, nat>, s: Slot): map<AidKey, nat> {
    if s.BySender? then exits - {s.key} else exits
  }

  function SvcExitsWithout(svcExits: map<SvcId, (Aid, nat)>, s: Slot): map<SvcId, (Aid, nat)> {
    if s.ByService? then svcExits - {s.svc} else svcExits
  }

  /** The exit indexes stay exact when a notice replaces the previous holder of its slot. */
  lemma ExitsAfterPush(q: seq<Entry>, e: Entry, exits: map<AidKey, nat>, svcExits: map<SvcId, (Aid, nat)>)
    requires ExitsAgree(q, exits, svcExits)
    ensures ExitsAgree(Pushed(q, e), ExitsWith(exits, e), SvcExitsWith(svcExits, e))
  {
    forall s: Slot | !s.NoSlot?
      ensures Known(ExitsWith(exits, e), SvcExitsWith(svcExits, e), s) == Note(Holder(Pushed(q, e), s))
    {
      HolderAfterPush(q, e, s);
      assert Known(exits, svcExits, s) == Note(Holder(q, s));
    }
  }

  /** Erasing an entry together with the index entry of its slot keeps the exit indexes exact. */
  lemma ExitsAfterErase(q: seq<Entry>, i: nat, exits: map<AidKey, nat>, svcExits: map<SvcId, (Aid, nat)>)
    requires i < |q| && OnePerSlot(q) && ExitsAgree(q, exits, svcExits)
    ensures ExitsAgree(RemoveAt(q, i), ExitsWithout(exits, SlotOf(q[i])), SvcExitsWithout(svcExits, SlotOf(q[i])))
  {
    var x := SlotOf(q[i]);
    forall s: Slot | !s.NoSlot?
      ensures Known(ExitsWithout(exits, x), SvcExitsWithout(svcExits, x), s) == Note(Holder(RemoveAt(q, i), s))
    {
      HolderAfterErase(q, i, s);
      assert Known(exits, svcExits, s) == Note(Holder(q, s));
    }
  }

  /** Removing the only holder of a slot is what `Pushed` does to the rest of the list. */
  lemma {:induction false} DropHolder(q: seq<Entry>, i: nat, s: Slot)
    requires i < |q| && SlotOf(q[i]) == s
    requires forall j :: 0 <= j < |q| && j != i ==> SlotOf(q[j]) != s
    ensures Select(q, OtherSlot(s)) == RemoveAt(q, i)
  {
    var h := q[..|q| - 1];
    if i == |q| - 1 {
      SelectAll(h, OtherSlot(s));
      assert RemoveAt(q, i) == h;
    } else {
      DropHolder(h, i, s);
      assert RemoveAt(q, i) == RemoveAt(h, i) + [q[|q| - 1]];
    }
  }

  lemma {:induction false} SelectAll(q: seq<Entry>, p: Entry -> bool)
    requires forall i :: 0 <= i < |q| ==> p(q[i])
    ensures Select(q, p) == q
  {
    if q != [] { SelectAll(q[..|q| - 1], p); }
  }

  /** The iterator that the indexes hold for a slot names its only holder. */
  lemma HolderNamed(q: seq<Entry>, s: Slot)
    requires Ordered(q) && OnePerSlot(q) && !s.NoSlot? && Holder(q, s).Some?
    ensures Names(q, Holder(q, s).value.id)
    ensures var i := Position(q, Holder(q, s).value.id);
            q[i] == Holder(q, s).value && SlotOf(q[i]) == s && q[i].msg.typ == EXIT && Vacated(q, s) == RemoveAt(q, i)
  {
    HolderMeaning(q, s);
    var k :| 0 <= k < |q| && q[k] == Holder(q, s).value && SlotOf(q[k]) == s;
    assert Position(q, q[k].id) == k;
    DropHolder(q, k, s);
  }

  /** A slot that nothing holds leaves nothing to replace. */
  lemma NothingHeld(q: seq<Entry>, s: Slot)
    requires !s.NoSlot? ==> Holder(q, s).None?
    ensures Vacated(q, s) == q
  {
    if !s.NoSlot? {
      HolderMeaning(q, s);
      SelectAll(q, OtherSlot(s));
    }
  }

  /** Dropping the erased iterator from its type's queue keeps every type queue exact. */
  lemma TypesAfterErase(
    q: seq<Entry>, i: nat,
    cached: seq<seq<nat>>, extra: map<Match, seq<nat>>,
    cached': seq<seq<nat>>, extra': map<Match, seq<nat>>)
    requires Ordered(q) && i < |q| && TypesAgree(q, cached, extra)
    requires forall u: Match :: QueueOf(cached', extra', u) ==
                                if u == q[i].msg.typ then Without(QueueOf(cached, extra, u), q[i].id)
                                else QueueOf(cached, extra, u)
    requires forall u :: u in extra' ==> extra'[u] != [] && u >= |cached'|
    ensures TypesAgree(RemoveAt(q, i), cached', extra')
  {
    forall u: Match ensures QueueOf(cached', extra', u) == IdsOf(RemoveAt(q, i), u) {
      IdsAfterErase(q, i, u);
    }
  }

  /** The requests that wait for a reply after another message arrives: a request goes behind those of its actor. */
  function RepliesAfter(w: map<AidKey, seq<(nat, Aid)>>, src: Recv): map<AidKey, seq<(nat, Aid)>> {
    match src
    case FromRequest(id, who) => w[who.key := (if who.key in w then w[who.key] else []) + [(id, who)]]
    case _ => w
  }

  /**
   What a wait for `res` gets as its response when notice `e` ends it: the dead actor
   answers under the awaited number.
   */
  function StandIn(res: Response, e: Entry): Response {
    Response(res.id, if res.recver.IsSet() then res.recver else SenderOf(e.src), NO_AID, NO_SVC)
  }

  /** The slot whose notice can stand in for an awaited response. */
  function AwaitedSlot(res: Response): Slot {
    if res.recver.IsSet() then BySender(res.recver.key) else ByService(res.svc)
  }

  /**
   The notice that stands in for a response of an awaited actor, by its fields: an
   exit notice of that actor that names no service.
   */
  lemma AwaitedActor(q: seq<Entry>, res: Response)
    requires res.recver.key.ptr != 0
    ensures var h := Holder(q, AwaitedSlot(res));
            && (h.Some? ==> h.value in q && IsNoticeOf(h.value, res.recver.key))
            && (h.None? ==> forall e :: e in q ==> !IsNoticeOf(e, res.recver.key))
  {
    HolderMeaning(q, AwaitedSlot(res));
  }

  predicate IsNoticeOf(e: Entry, who: AidKey) {
    && e.msg.typ == EXIT
    && (|| (e.src.FromExit? && e.src.dead.key == who && e.src.dead.svc.name == MATCH_NIL)
        || (e.src.FromAid? && e.src.aid.key == who && e.src.aid.svc.name == MATCH_NIL))
  }

  /** Where a service is awaited instead, it is an exit notice of an actor under that service. */
  lemma AwaitedService(q: seq<Entry>, res: Response)
    requires res.recver.key.ptr == 0
    ensures var h := Holder(q, AwaitedSlot(res));
            && (h.Some? ==> h.value in q && IsServiceNotice(h.value, res.svc))
            && (h.None? ==> forall e :: e in q ==> !IsServiceNotice(e, res.svc))
  {
    HolderMeaning(q, AwaitedSlot(res));
  }

  predicate IsServiceNotice(e: Entry, svc: SvcId) {
    && e.msg.typ == EXIT && svc.name != MATCH_NIL
    && (|| (e.src.FromExit? && e.src.dead.key.ptr != 0 && e.src.dead.svc == svc)
        || (e.src.FromAid? && e.src.aid.key.ptr != 0 && e.src.aid.svc == svc))
  }

  /** Arrival keeps the list in iterator order with one notice per slot. */
  lemma PushedWellFormed(q: seq<Entry>, e: Entry)
    requires Ordered(q) && Below(q, e.id) && OnePerSlot(q)
    ensures Ordered(Pushed(q, e)) && Below(Pushed(q, e), e.id + 1) && OnePerSlot(Pushed(q, e))
  {
    PushedOnePerSlot(q, e);
    if !SlotOf(e).NoSlot? {
      SelectOrdered(q, OtherSlot(SlotOf(e)), e.id);
    }
  }

  lemma ErasedWellFormed(q: seq<Entry>, i: nat, bound: nat)
    requires i < |q| && Ordered(q) && Below(q, bound) && OnePerSlot(q)
    ensures Ordered(RemoveAt(q, i)) && Below(RemoveAt(q, i), bound) && OnePerSlot(RemoveAt(q, i))
  {
  }

  /** In `was + [e]` the iterator `it` still names the same node as in `was`. */
  lemma SameEntry(was: seq<Entry>, e: Entry, it: nat)
    requires Ordered(was) && Below(was, e.id) && Names(was, it)
    ensures Ordered(was + [e]) && Names(was + [e], it)
    ensures var i := Position(was + [e], it);
            i == Position(was, it) && i < |was| && RemoveAt(was + [e], i) == RemoveAt(was, i) + [e]
  {
    var k := Position(was, it);
    assert (was + [e])[k].id == it;
    assert was + [e] == was[..k] + [was[k]] + (was[k + 1..] + [e]);
  }

  lemma LastStays(q: seq<Entry>, e: Entry, it: nat)
    requires q != [] && q[|q| - 1] == e && e.id != it
    ensures Without(IdsOf(q, e.msg.typ), it) != []
  {
    WithoutLast(IdsOf(q[..|q| - 1], e.msg.typ), e.id, it);
  }

  class Mailbox {
    var recvQue: seq<Entry>
    var nextId: nat
    var cached: seq<seq<nat>>
    var extra: map<Match, seq<nat>>
    var exits: map<AidKey, nat>
    var svcExits: map<SvcId, (Aid, nat)>
    var responses: map<nat, (Response, Msg)>
    var waitReply: map<AidKey, seq<(nat, Aid)>>

    ghost predicate Valid()
      reads this
    {
      && Ordered(recvQue)
      && Below(recvQue, nextId)
      && OnePerSlot(recvQue)
      && TypesAgree(recvQue, cached, extra)
      && ExitsAgree(recvQue, exits, svcExits)
    }

    constructor (cacheMatchSize: nat)
      ensures Valid() && recvQue == [] && responses == map[] && waitReply == map[] && |cached| == cacheMatchSize
    {
      recvQue, nextId := [], 0;
      cached, extra := seq(cacheMatchSize, _ => []), map[];
      exits, svcExits := map[], map[];
      responses, waitReply := map[], map[];
    }

    method Clear()
      modifies this
      ensures Valid() && recvQue == [] && responses == map[] && waitReply == map[]
    {
      recvQue := [];
      var i := 0;
      while i < |cached|
        invariant 0 <= i <= |cached| && recvQue == [] && nextId == old(nextId)
        invariant forall j :: 0 <= j < i ==> cached[j] == []
      {
        cached := cached[i := []];
        i := i + 1;
      }
      extra := map[];
      responses, waitReply, exits, svcExits := map[], map[], map[], map[];
    }

    // -------------------------------------------------------------- push

    method PushAid(sender: Aid, msg: Msg)
      requires Valid()
      modifies this
      ensures Valid() && unchanged(`responses, `waitReply)
      ensures recvQue == Pushed(old(recvQue), Entry(old(nextId), FromAid(sender), msg))
    {
      AddMatchMsg(FromAid(sender), sender, msg);
    }

    method PushExit(code: Match, dead: Aid, msg: Msg)
      requires Valid()
      modifies this
      ensures Valid() && unchanged(`responses, `waitReply)
      ensures recvQue == Pushed(old(recvQue), Entry(old(nextId), FromExit(code, dead), msg))
    {
      AddMatchMsg(FromExit(code, dead), dead, msg);
    }

    method PushRequest(id: nat, requester: Aid, msg: Msg)
      requires Valid()
      modifies this
      ensures Valid() && unchanged(`responses)
      ensures recvQue == old(recvQue) + [Entry(old(nextId), FromRequest(id, requester), msg)]
      ensures var k, was := requester.key, old(waitReply);
              waitReply == was[k := (if k in was then was[k] else []) + [(id, requester)]]
    {
      AddMatchMsg(FromRequest(id, requester), NO_AID, msg);
      if requester.key !in waitReply {
        waitReply := waitReply[requester.key := []];
      }
      waitReply := waitReply[requester.key := waitReply[requester.key] + [(id, requester)]];
    }

    /** The first response with an identifier wins; later ones are dropped. */
    method PushResponse(res: Response, msg: Msg)
      requires Valid()
      modifies this`responses
      ensures Valid()
      ensures responses == if res.id in old(responses) then old(responses) else old(responses)[res.id := (res, msg)]
    {
      if res.id !in responses {
        responses := responses[res.id := (res, msg)];
      }
    }

    method AddMatchMsg(src: Recv, sender: Aid, msg: Msg)
      requires Valid() && sender == SenderOf(src)
      modifies this`recvQue, this`nextId, this`cached, this`extra, this`exits, this`svcExits
      ensures Valid()
      ensures recvQue == Pushed(old(recvQue), Entry(old(nextId), src, msg))
    {
      var it, t := nextId, msg.typ;
      ghost var was, e := recvQue, Entry(it, src, msg);
      PushedWellFormed(was, e);
      ExitsAfterPush(was, e, exits, svcExits);
      assert Known(exits, svcExits, SlotOf(e)).Some? ==>
             Known(exits, svcExits, SlotOf(e)) == Note(Holder(was, SlotOf(e)));
      Enqueue(src, msg);
      if sender.IsSet() && t == EXIT {
        if sender.svc.IsSet() {
          if sender.svc in svcExits {
            EraseHolder(svcExits[sender.svc].1, was, e);
          } else {
            NothingHeld(was, SlotOf(e));
          }
          svcExits := svcExits[sender.svc := (sender, it)];
        } else {
          if sender.key in exits {
            EraseHolder(exits[sender.key], was, e);
          } else {
            NothingHeld(was, SlotOf(e));
          }
          exits := exits[sender.key := it];
        }
      }
    }

    /** Appends a node to the arrival list and its iterator to its type's queue. */
    method Enqueue(src: Recv, msg: Msg)
      requires Valid()
      modifies this`recvQue, this`nextId, this`cached, this`extra
      ensures recvQue == old(recvQue) + [Entry(old(nextId), src, msg)] && nextId == old(nextId) + 1
      ensures TypesAgree(recvQue, cached, extra)
    {
      var it, t := nextId, msg.typ;
      nextId := nextId + 1;
      recvQue := recvQue + [Entry(it, src, msg)];
      if t < |cached| {
        cached := cached[t := cached[t] + [it]];
      } else {
        if t !in extra {
          extra := extra[t := []];
        }
        extra := extra[t := extra[t] + [it]];
      }
      assert recvQue[..|recvQue| - 1] == old(recvQue);
    }

    /** Erases a replaced notice, by iterator, from the arrival list and from the exit queue. */
    method EraseHolder(it: nat, ghost was: seq<Entry>, ghost e: Entry)
      requires recvQue == was + [e] && Ordered(was) && Below(was, e.id) && OnePerSlot(was)
      requires TypesAgree(recvQue, cached, extra)
      requires !SlotOf(e).NoSlot? && Holder(was, SlotOf(e)).Some? && it == Holder(was, SlotOf(e)).value.id
      modifies this`recvQue, this`cached, this`extra
      ensures recvQue == Pushed(was, e) && TypesAgree(recvQue, cached, extra)
    {
      HolderNamed(was, SlotOf(e));
      SameEntry(was, e, it);
      LastStays(recvQue, e, it);
      var i := Position(recvQue, it);
      assert QueueOf(cached, extra, EXIT) == IdsOf(recvQue, EXIT) != [];
      if EXIT < |cached| {
        cached := cached[EXIT := Without(cached[EXIT], it)];
      } else {
        extra := extra[EXIT := Without(extra[EXIT], it)];
      }
      TypesAfterErase(recvQue, i, old(cached), old(extra), cached, extra);
      recvQue := RemoveAt(recvQue, i);
    }

    // -------------------------------------------------------------- pop

    /** Takes the best match of the arrival list, or fails and changes nothing when no queued message is wanted. */
    method Pop(types: seq<Match>) returns (r: Option<(Recv, Msg)>)
      requires Valid()
      modifies this`recvQue, this`cached, this`extra, this`exits, this`svcExits
      ensures Valid()
      ensures r.None? <==> forall e :: e in old(recvQue) ==> !Wanted(e, types)
      ensures var i := PopIndex(old(recvQue), types);
              if i.None? then r.None? && recvQue == old(recvQue)
              else BestMatch(old(recvQue), types, i.value)
                   && recvQue == RemoveAt(old(recvQue), i.value)
                   && r == Some((old(recvQue)[i.value].src, old(recvQue)[i.value].msg))
    {
      PopIndexMeaning(recvQue, types);
      if recvQue == [] {
        return None;
      }
      if types == [] {
        r := FetchMatchMsg(recvQue[0].msg.typ);
        return;
      }
      var k := 0;
      while k < |types|
        invariant 0 <= k <= |types| && Valid() && recvQue == old(recvQue)
        invariant FirstListed(recvQue, types) == FirstListed(recvQue, types[k..])
      {
        r := FetchMatchMsg(types[k]);
        if r.Some? {
          return;
        }
        assert types[k..][1..] == types[k + 1..];
        k := k + 1;
      }
      r := None;
    }

    method FetchMatchMsg(t: Match) returns (r: Option<(Recv, Msg)>)
      requires Valid()
      modifies this`recvQue, this`cached, this`extra, this`exits, this`svcExits
      ensures Valid()
      ensures var i := FirstOfType(old(recvQue), t);
              if i.None? then r.None? && recvQue == old(recvQue)
              else recvQue == RemoveAt(old(recvQue), i.value)
                   && r == Some((old(recvQue)[i.value].src, old(recvQue)[i.value].msg))
    {
      var it := PopFront(t);
      if it.None? {
        return None;
      }
      var i := Position(recvQue, it.value);
      r := Some((recvQue[i].src, recvQue[i].msg));
      ReleaseSlot(i);
      recvQue := RemoveAt(recvQue, i);
    }

    /** Takes the head iterator off the queue of type `t`, dropping a map-held queue that becomes empty. */
    method PopFront(t: Match) returns (it: Option<nat>)
      requires Ordered(recvQue) && TypesAgree(recvQue, cached, extra)
      modifies this`cached, this`extra
      ensures it.None? ==> FirstOfType(recvQue, t).None? && unchanged(this)
      ensures it.Some? ==> Names(recvQue, it.value) && FirstOfType(recvQue, t) == Some(Position(recvQue, it.value))
                           && TypesAgree(RemoveAt(recvQue, Position(recvQue, it.value)), cached, extra)
    {
      IdsHead(recvQue, t);
      assert QueueOf(cached, extra, t) == IdsOf(recvQue, t);
      var que := if t < |cached| then cached[t] else if t in extra then extra[t] else [];
      if que == [] {
        return None;
      }
      it := Some(que[0]);
      if t < |cached| {
        cached := cached[t := que[1..]];
      } else if |que| == 1 {
        extra := extra - {t};
      } else {
        extra := extra[t := que[1..]];
      }
      TypesAfterErase(recvQue, Position(recvQue, que[0]), old(cached), old(extra), cached, extra);
    }

    /** Drops the index entry of a notice that is being taken. */
    method ReleaseSlot(i: nat)
      requires i < |recvQue| && Ordered(recvQue) && Below(recvQue, nextId) && OnePerSlot(recvQue)
      requires ExitsAgree(recvQue, exits, svcExits)
      modifies this`exits, this`svcExits
      ensures ExitsAgree(RemoveAt(recvQue, i), exits, svcExits)
      ensures var q := RemoveAt(recvQue, i); Ordered(q) && Below(q, nextId) && OnePerSlot(q)
    {
      ExitsAfterErase(recvQue, i, exits, svcExits);
      ErasedWellFormed(recvQue, i, nextId);
      var src := recvQue[i].src;
      if recvQue[i].msg.typ == EXIT {
        var sender := if src.FromAid? then src.aid else if src.FromExit? then src.dead else NO_AID;
        if sender.IsSet() {
          if sender.svc.IsSet() {
            svcExits := svcExits - {sender.svc};
          } else {
            exits := exits - {sender.key};
          }
        }
      }
    }

    /**
     Completes a response wait with the response of that identifier, which it
     removes, or else with the queued exit notice of the awaited actor or
     service, which stays queued.
     */
    method PopResponse(res: Response) returns (r: Option<(Response, Msg)>)
      requires Valid()
      modifies this`responses
      ensures Valid()
      ensures res.id in old(responses) ==> r == Some(old(responses)[res.id]) && responses == old(responses) - {res.id}
      ensures res.id !in old(responses) ==>
                var h := Holder(recvQue, AwaitedSlot(res));
                && responses == old(responses)
                && (r.None? <==> h.None?)
                && (r.Some? ==> r.value == (StandIn(res, h.value), h.value.msg) && r.value.0.id == res.id)
      ensures res.id !in old(responses) ==>
                if res.recver.key.ptr != 0 then
                  && (r.Some? ==> exists e :: e in recvQue && IsNoticeOf(e, res.recver.key) && r.value.1 == e.msg)
                  && (r.Some? ==> r.value.0.aid == res.recver)
                  && (r.None? ==> forall e :: e in recvQue ==> !IsNoticeOf(e, res.recver.key))
                else
                  && (r.Some? ==> exists e :: e in recvQue && IsServiceNotice(e, res.svc) && r.value.1 == e.msg)
                  && (r.Some? ==> r.value.0.aid.svc == res.svc && r.value.0.aid.key.ptr != 0)
                  && (r.None? ==> forall e :: e in recvQue ==> !IsServiceNotice(e, res.svc))
    {
      if res.recver.key.ptr != 0 {
        AwaitedActor(recvQue, res);
      } else {
        AwaitedService(recvQue, res);
      }
      hide IsNoticeOf, IsServiceNotice;
      if res.id in responses {
        r := Some(responses[res.id]);
        responses := responses - {res.id};
        return;
      }
      assert Known(exits, svcExits, AwaitedSlot(res)) == Note(Holder(recvQue, AwaitedSlot(res)));
      if res.recver.IsSet() {
        if res.recver.key in exits {
          HolderNamed(recvQue, AwaitedSlot(res));
          var i := Position(recvQue, exits[res.recver.key]);
          return Some((Response(res.id, res.recver, NO_AID, NO_SVC), recvQue[i].msg));
        }
      } else if res.svc in svcExits {
        HolderNamed(recvQue, AwaitedSlot(res));
        var i := Position(recvQue, svcExits[res.svc].1);
        return Some((Response(res.id, svcExits[res.svc].0, NO_AID, NO_SVC), recvQue[i].msg));
      }
      r := None;
    }

    /** Requests of one actor are replied to in the order they arrived. */
    method PopRequest(who: Aid) returns (r: Option<(nat, Aid)>)
      requires Valid()
      modifies this`waitReply
      ensures Valid()
      ensures var was := old(waitReply);
              if who.key in was && was[who.key] != [] then
                r == Some(was[who.key][0]) && waitReply == was[who.key := was[who.key][1..]]
              else r == None && waitReply == was
    {
      if who.key in waitReply && waitReply[who.key] != [] {
        var que := waitReply[who.key];
        waitReply := waitReply[who.key := que[1..]];
        return Some(que[0]);
      }
      r := None;
    }
  }
}
