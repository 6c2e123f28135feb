/** The tag block that travels behind a message's body, and messages inside messages. */
module Tags {
  import opened Codec
  import opened Fields
  import opened Ids
  import opened Messages

  const TAG_AID: Match := 2687967721480
  const TAG_REQUEST: Match := 1652181862628793992
  const TAG_LINK: Match := 75263285722680
  const TAG_EXIT: Match := 75263174367240
  const TAG_RESPONSE: Match := 9367604030932525464
  const TAG_SPAWN: Match := 2687978953848
  const TAG_SPAWN_RET: Match := 1652182391855293192

  /** The seven kinds that are written; a response's own receiver and service never leave the process. */
  datatype Tag =
    | AidTag(aid: Aid)
    | RequestTag(id: nat, aid: Aid)
    | LinkTag(kind: nat, aid: Aid)
    | ExitTag(code: Match, aid: Aid)
    | ResponseTag(id: nat, aid: Aid, recver: Aid, svc: SvcId)
    | SpawnTag(kind: nat, func: Match, ctxid: Match, stack: nat, id: nat, aid: Aid)
    | SpawnRetTag(error: nat, id: nat, aid: Aid)

  datatype TagBlock = TagBlock(tag: Tag, recver: Aid, svc: SvcId, skt: Aid, isErrRet: bool)

  predicate AidFits(a: Aid) {
    a.key.timestamp < W64.Bound() && a.key.ptr < W64.Bound() && a.key.sid < W32.Bound()
  }

  predicate TagFits(t: Tag) {
    AidFits(t.aid) && forall f :: f in Extras(t) ==> WellTyped(f)
  }

  predicate BlockFits(b: TagBlock) {
    TagFits(b.tag) && AidFits(b.recver) && AidFits(b.skt)
  }

  /** What of a tag is on the wire. */
  function OnWire(t: Tag): Tag {
    if t.ResponseTag? then t.(recver := NO_AID, svc := NO_SVC) else t
  }

  // ---------------------------------------------------------------- layout

  function AidFields(a: Aid): seq<Field> {
    [UInt(W64, a.key.ctxid), UInt(W64, a.key.timestamp), UInt(W64, a.key.ptr), UInt(W32, a.key.sid)] + SvcFields(a.svc)
  }

  function SvcFields(s: SvcId): seq<Field> {
    [UInt(W64, s.ctxid), UInt(W64, s.name)]
  }

  function TypeOf(t: Tag): Match {
    match t
    case AidTag(_) => TAG_AID
    case RequestTag(_, _) => TAG_REQUEST
    case LinkTag(_, _) => TAG_LINK
    case ExitTag(_, _) => TAG_EXIT
    case ResponseTag(_, _, _, _) => TAG_RESPONSE
    case SpawnTag(_, _, _, _, _, _) => TAG_SPAWN
    case SpawnRetTag(_, _, _) => TAG_SPAWN_RET
  }

  /** What stands between a tag's type and its actor identifier. */
  function Extras(t: Tag): seq<Field> {
    match t
    case AidTag(_) => []
    case RequestTag(id, _) => [UInt(W32, id)]
    case LinkTag(kind, _) => [UInt(W16, kind)]
    case ExitTag(code, _) => [UInt(W64, code)]
    case ResponseTag(id, _, _, _) => [UInt(W32, id)]
    case SpawnTag(kind, func, ctxid, stack, id, _) =>
      [UInt(W16, kind), UInt(W64, func), UInt(W64, ctxid), UInt(W64, stack), UInt(W32, id)]
    case SpawnRetTag(error, id, _) => [UInt(W16, error), UInt(W32, id)]
  }

  function FlagField(flag: bool): Field {
    UInt(W16, if flag then 1 else 0)
  }

  /** The parts of a tag block behind its type, in writing order. */
  function Parts(b: TagBlock): seq<seq<Field>> {
    [Extras(b.tag), AidFields(b.tag.aid), AidFields(b.recver), SvcFields(b.svc), AidFields(b.skt),
      [FlagField(b.isErrRet)]]
  }

  function TypeField(t: Tag): Field {
    UInt(W64, TypeOf(t))
  }

  predicate Writable(fs: seq<Field>) {
    forall f :: f in fs ==> WellTyped(f) && Exact(f)
  }

  predicate AllWritable(ps: seq<seq<Field>>) {
    forall p :: p in ps ==> Writable(p)
  }

  function EncodePart(fs: seq<Field>): seq<Byte>
    requires Writable(fs)
  {
    EncodeAll(fs)
  }

  function EncodeParts(ps: seq<seq<Field>>): seq<Byte>
    requires AllWritable(ps)
  {
    if ps == [] then []
    else
      assert ps[0] in ps;
      EncodePart(ps[0]) + EncodeParts(ps[1..])
  }

  // ---------------------------------------------------------------- reading

  datatype Cut<T> = Cut(value: T, used: nat) | Bad

  const AID_KINDS := [UKind(W64), UKind(W64), UKind(W64), UKind(W32), UKind(W64), UKind(W64)]
  const SVC_KINDS := [UKind(W64), UKind(W64)]

  function ExtraKinds(type_: nat): Option<seq<Kind>> {
    if type_ == TAG_AID then Some([])
    else if type_ == TAG_REQUEST then Some([UKind(W32)])
    else if type_ == TAG_LINK then Some([UKind(W16)])
    else if type_ == TAG_EXIT then Some([UKind(W64)])
    else if type_ == TAG_RESPONSE then Some([UKind(W32)])
    else if type_ == TAG_SPAWN then Some([UKind(W16), UKind(W64), UKind(W64), UKind(W64), UKind(W32)])
    else if type_ == TAG_SPAWN_RET then Some([UKind(W16), UKind(W32)])
    else None
  }

  function Num(fs: seq<Field>, i: nat): Match {
    if i < |fs| && fs[i].UInt? && fs[i].u < W64.Bound() then fs[i].u else 0
  }

  function MakeAid(fs: seq<Field>): Aid {
    Aid(AidKey(Num(fs, 0), Num(fs, 1), Num(fs, 2), Num(fs, 3)), SvcId(Num(fs, 4), Num(fs, 5)))
  }

  function MakeTag(type_: nat, fs: seq<Field>, aid: Aid): Tag {
    if type_ == TAG_AID then AidTag(aid)
    else if type_ == TAG_REQUEST then RequestTag(Num(fs, 0), aid)
    else if type_ == TAG_LINK then LinkTag(Num(fs, 0), aid)
    else if type_ == TAG_EXIT then ExitTag(Num(fs, 0), aid)
    else if type_ == TAG_RESPONSE then ResponseTag(Num(fs, 0), aid, NO_AID, NO_SVC)
    else if type_ == TAG_SPAWN then SpawnTag(Num(fs, 0), Num(fs, 1), Num(fs, 2), Num(fs, 3), Num(fs, 4), aid)
    else SpawnRetTag(Num(fs, 0), Num(fs, 1), aid)
  }

  function Cutting(ks: seq<Kind>, s: seq<Byte>): (r: Cut<seq<Field>>)
    ensures r.Cut? ==> r.used <= |s|
  {
    match DecodeAll(ks, s)
    case ParsedAll(fs, n) => Cut(fs, n)
    case _ => Bad
  }

  /** Parts read one after another, each from where the one before it ended. */
  function CutAll(kss: seq<seq<Kind>>, s: seq<Byte>): (r: Cut<seq<seq<Field>>>)
    ensures r.Cut? ==> r.used <= |s| && |r.value| == |kss|
  {
    if kss == [] then Cut([], 0)
    else match Cutting(kss[0], s)
      case Bad => Bad
      case Cut(fs, n) =>
        match CutAll(kss[1..], s[n..])
        case Bad => Bad
        case Cut(ps, m) => Cut([fs] + ps, n + m)
  }

  /** Reads a tag block: the type first, which decides the kinds of the rest. */
  function DecodeBlock(s: seq<Byte>): Cut<TagBlock> {
    match Cutting([UKind(W64)], s)
    case Bad => Bad
    case Cut(ty, n) =>
      match ExtraKinds(Num(ty, 0))
      case None => Bad
      case Some(ks) =>
        match CutAll([ks, AID_KINDS, AID_KINDS, SVC_KINDS, AID_KINDS, [UKind(W16)]], s[n..])
        case Bad => Bad
        case Cut(ps, m) =>
          Cut(TagBlock(MakeTag(Num(ty, 0), ps[0], MakeAid(ps[1])), MakeAid(ps[2]), MakeSvc(ps[3]),
                       MakeAid(ps[4]), Num(ps[5], 0) != 0), n + m)
  }

  function MakeSvc(fs: seq<Field>): SvcId {
    SvcId(Num(fs, 0), Num(fs, 1))
  }

  // ---------------------------------------------------------------- what push and pop do to a message

  lemma AidWritable(a: Aid)
    requires AidFits(a)
    ensures Writable(AidFields(a)) && KindsOf(AidFields(a)) == AID_KINDS && MakeAid(AidFields(a)) == a
  {
    KindsOfFew(AidFields(a));
    hide KindsOf;
  }

  lemma SvcWritable(svc: SvcId)
    ensures var fs := SvcFields(svc);
            Writable(fs) && KindsOf(fs) == SVC_KINDS && MakeSvc(fs) == svc
  {
    var fs := SvcFields(svc);
    KindsOfFew(fs);
    hide KindsOf;
  }

  /** The kinds that a type code calls for are those of the tag that carries it. */
  lemma TagWritable(t: Tag)
    requires TagFits(t)
    ensures Writable(Extras(t)) && ExtraKinds(TypeOf(t)) == Some(KindsOf(Extras(t)))
    ensures MakeTag(TypeOf(t), Extras(t), t.aid) == OnWire(t)
  {
    var fs := Extras(t);
    assert forall i :: 0 <= i < |fs| ==> fs[i] in fs && WellTyped(fs[i]);
    TagMade(t);
    KindsOfFew(fs);
    hide KindsOf, MakeTag;
    assert ExtraKinds(TypeOf(t)).value == KindsOf(fs);
  }

  /** The type code and the numbers of a tag make it up again. */
  lemma TagMade(t: Tag)
    requires forall i :: 0 <= i < |Extras(t)| ==> WellTyped(Extras(t)[i])
    ensures MakeTag(TypeOf(t), Extras(t), t.aid) == OnWire(t)
  {
    var fs := Extras(t);
    assert forall i :: 0 <= i < |fs| ==> fs[i].UInt? && Num(fs, i) == fs[i].u;
    hide WellTyped, Num;
  }

  lemma PartsWritable(b: TagBlock)
    requires BlockFits(b)
    ensures AllWritable(Parts(b))
  {
    hide TagFits, AidFits, AidFields, SvcFields, Extras;
    TagFitsAid(b.tag);
    TagWritable(b.tag);
    AidWritable(b.tag.aid);
    AidWritable(b.recver);
    AidWritable(b.skt);
    SvcWritable(b.svc);
    FlagWritable(b.isErrRet);
  }

  lemma TagFitsAid(t: Tag)
    requires TagFits(t)
    ensures AidFits(t.aid)
  {
  }

  function EncodeBlock(b: TagBlock): seq<Byte>
    requires BlockFits(b)
  {
    PartsWritable(b);
    TypeWritable(b.tag);
    EncodePart([TypeField(b.tag)]) + EncodeParts(Parts(b))
  }

  // ---------------------------------------------------------------- the bytes of a block

  /** Numbers one after another; one beyond 64 bits cannot be written. */
  function Numbers(ns: seq<nat>): seq<Byte> {
    if ns == [] then [] else (if ns[0] < W64.Bound() then EncodeU(ns[0]) else []) + Numbers(ns[1..])
  }

  /** An identifier on the wire: context, start time, object, incarnation, and its service. */
  function AidNumbers(a: Aid): seq<nat> {
    [a.key.ctxid, a.key.timestamp, a.key.ptr, a.key.sid, a.svc.ctxid, a.svc.name]
  }

  /** The code of a tag's kind, and the numbers of that kind in front of the actor. */
  function TagNumbers(t: Tag): seq<nat> {
    match t
    case AidTag(_) => [TAG_AID]
    case RequestTag(id, _) => [TAG_REQUEST, id]
    case LinkTag(kind, _) => [TAG_LINK, kind]
    case ExitTag(code, _) => [TAG_EXIT, code]
    case ResponseTag(id, _, _, _) => [TAG_RESPONSE, id]
    case SpawnTag(kind, func, ctxid, stack, id, _) => [TAG_SPAWN, kind, func, ctxid, stack, id]
    case SpawnRetTag(error, id, _) => [TAG_SPAWN_RET, error, id]
  }

  /** A block: the tag, its actor, receiver, service and socket, and the error flag. */
  function BlockNumbers(b: TagBlock): seq<nat> {
    TagNumbers(b.tag) + AidNumbers(b.tag.aid) + AidNumbers(b.recver) + [b.svc.ctxid, b.svc.name]
    + AidNumbers(b.skt) + [if b.isErrRet then 1 else 0]
  }

  ghost predicate AllNumbers(fs: seq<Field>) {
    forall f :: f in fs ==> f.UInt? && f.u < W64.Bound()
  }

  function NumbersOf(fs: seq<Field>): seq<nat>
  {
    seq(|fs|, i requires 0 <= i < |fs| => if fs[i].UInt? then fs[i].u else 0)
  }

  lemma {:induction false} PartBytes(fs: seq<Field>)
    requires Writable(fs) && AllNumbers(fs)
    ensures EncodePart(fs) == Numbers(NumbersOf(fs))
  {
    hide EncodeU;
    if fs != [] {
      assert fs[0] in fs && NumbersOf(fs)[1..] == NumbersOf(fs[1..]);
      assert EncodeAll(fs) == EncodeField(fs[0]) + EncodeAll(fs[1..]);
      PartBytes(fs[1..]);
    }
  }

  lemma {:induction false} NumbersJoin(a: seq<nat>, b: seq<nat>)
    ensures Numbers(a + b) == Numbers(a) + Numbers(b)
  {
    hide EncodeU;
    if a == [] {
      assert a + b == b;
    } else {
      assert (a + b)[1..] == a[1..] + b;
      NumbersJoin(a[1..], b);
    }
  }

  function Flat(ps: seq<seq<Field>>): seq<nat> {
    if ps == [] then [] else NumbersOf(ps[0]) + Flat(ps[1..])
  }

  lemma {:induction false} PartsBytes(ps: seq<seq<Field>>)
    requires AllWritable(ps) && forall p :: p in ps ==> AllNumbers(p)
    ensures EncodeParts(ps) == Numbers(Flat(ps))
  {
    assert Numbers([]) == [];
    hide EncodePart, Writable, AllNumbers, Numbers, NumbersOf;
    if ps != [] {
      FirstWritable(ps);
      assert ps[0] in ps;
      PartBytes(ps[0]);
      PartsBytes(ps[1..]);
      NumbersJoin(NumbersOf(ps[0]), Flat(ps[1..]));
    }
  }

  /** What any block is on the wire. */
  lemma BlockBytes(b: TagBlock)
    requires BlockFits(b)
    ensures EncodeBlock(b) == Numbers(BlockNumbers(b)) && forall n :: n in BlockNumbers(b) ==> n < W64.Bound()
  {
    PartsWritable(b);
    TypeWritable(b.tag);
    TagParts(b);
    var ps, p := Parts(b), [TypeField(b.tag)];
    hide EncodePart, Numbers, NumbersOf, Flat, Writable, AllNumbers, Parts, TypeField, BlockNumbers;
    PartBytes(p);
    PartsBytes(ps);
    NumbersJoin(NumbersOf(p), Flat(ps));
  }

  /** The parts of a block are its numbers in order. */
  lemma TagParts(b: TagBlock)
    requires BlockFits(b)
    ensures AllNumbers([TypeField(b.tag)]) && forall p :: p in Parts(b) ==> AllNumbers(p)
    ensures BlockNumbers(b) == NumbersOf([TypeField(b.tag)]) + Flat(Parts(b))
    ensures forall n :: n in BlockNumbers(b) ==> n < W64.Bound()
  {
    TagFitsAid(b.tag);
    TypeAndExtras(b.tag);
    AidParts(b.tag.aid);
    AidParts(b.recver);
    AidParts(b.skt);
    ServiceAndFlag(b);
    hide TagFits, AidFits, TagNumbers, AidNumbers, Extras, AidFields, SvcFields, FlagField, TypeField;
    hide NumbersOf, AllNumbers, Flat;
    FlatOfSix(Extras(b.tag), AidFields(b.tag.aid), AidFields(b.recver), SvcFields(b.svc), AidFields(b.skt),
              [FlagField(b.isErrRet)]);
    Regroup(NumbersOf([TypeField(b.tag)]), NumbersOf(Extras(b.tag)), AidNumbers(b.tag.aid), AidNumbers(b.recver),
            [b.svc.ctxid, b.svc.name], AidNumbers(b.skt), [if b.isErrRet then 1 else 0]);
    SmallNumbers(b);
  }

  lemma ServiceAndFlag(b: TagBlock)
    ensures NumbersOf(SvcFields(b.svc)) == [b.svc.ctxid, b.svc.name] && AllNumbers(SvcFields(b.svc))
    ensures NumbersOf([FlagField(b.isErrRet)]) == [if b.isErrRet then 1 else 0]
    ensures AllNumbers([FlagField(b.isErrRet)])
  {
  }

  lemma SmallNumbers(b: TagBlock)
    requires forall n :: n in TagNumbers(b.tag) || n in AidNumbers(b.tag.aid) ==> n < W64.Bound()
    requires forall n :: n in AidNumbers(b.recver) || n in AidNumbers(b.skt) ==> n < W64.Bound()
    ensures forall n :: n in BlockNumbers(b) ==> n < W64.Bound()
  {
    hide TagNumbers, AidNumbers;
  }

  lemma FlatOfSix(a: seq<Field>, b: seq<Field>, c: seq<Field>, d: seq<Field>, e: seq<Field>, f: seq<Field>)
    ensures Flat([a, b, c, d, e, f]) ==
            NumbersOf(a) + (NumbersOf(b) + (NumbersOf(c) + (NumbersOf(d) + (NumbersOf(e) + NumbersOf(f)))))
  {
    hide NumbersOf;
    assert [a, b, c, d, e, f][1..] == [b, c, d, e, f] && [b, c, d, e, f][1..] == [c, d, e, f];
    assert [c, d, e, f][1..] == [d, e, f] && [d, e, f][1..] == [e, f] && [e, f][1..] == [f] && [f][1..] == [];
    assert Flat([f]) == NumbersOf(f) + [];
    assert Flat([e, f]) == NumbersOf(e) + Flat([f]);
    assert Flat([d, e, f]) == NumbersOf(d) + Flat([e, f]);
    assert Flat([c, d, e, f]) == NumbersOf(c) + Flat([d, e, f]);
    assert Flat([b, c, d, e, f]) == NumbersOf(b) + Flat([c, d, e, f]);
  }

  lemma Regroup(x: seq<nat>, a: seq<nat>, b: seq<nat>, c: seq<nat>, d: seq<nat>, e: seq<nat>, f: seq<nat>)
    ensures x + a + b + c + d + e + f == x + (a + (b + (c + (d + (e + f)))))
  {
  }

  lemma AidParts(a: Aid)
    requires AidFits(a)
    ensures AllNumbers(AidFields(a)) && NumbersOf(AidFields(a)) == AidNumbers(a)
    ensures forall n :: n in AidNumbers(a) ==> n < W64.Bound()
  {
  }

  lemma TypeAndExtras(t: Tag)
    requires TagFits(t)
    ensures AllNumbers([TypeField(t)]) && AllNumbers(Extras(t))
    ensures NumbersOf([TypeField(t)]) + NumbersOf(Extras(t)) == TagNumbers(t)
    ensures forall n :: n in TagNumbers(t) ==> n < W64.Bound()
  {
    var fs := Extras(t);
    assert forall i :: 0 <= i < |fs| ==> fs[i] in fs;
    forall f | f in fs ensures f.UInt? && f.u < W64.Bound() {
      assert WellTyped(f);
    }
    assert forall i :: 0 <= i < |fs| ==> NumbersOf(fs)[i] == TagNumbers(t)[i + 1];
    assert forall i :: 0 < i < |TagNumbers(t)| ==> TagNumbers(t)[i] == NumbersOf(fs)[i - 1];
  }

  function KindLists(ps: seq<seq<Field>>): seq<seq<Kind>> {
    if ps == [] then [] else [KindsOf(ps[0])] + KindLists(ps[1..])
  }

  lemma CutPart(fs: seq<Field>, more: seq<Byte>)
    requires Writable(fs)
    ensures Cutting(KindsOf(fs), EncodePart(fs) + more) == Cut(fs, |EncodePart(fs)|)
  {
    hide DecodeAll;
    RoundTripAll(fs, more);
  }

  lemma FirstWritable(ps: seq<seq<Field>>)
    requires ps != [] && AllWritable(ps)
    ensures Writable(ps[0]) && AllWritable(ps[1..])
  {
    assert ps[0] in ps;
  }

  lemma {:induction false} CutParts(ps: seq<seq<Field>>, rest: seq<Byte>)
    requires AllWritable(ps)
    ensures CutAll(KindLists(ps), EncodeParts(ps) + rest) == Cut(ps, |EncodeParts(ps)|)
  {
    hide EncodePart, Cutting, Writable, AllWritable, KindsOf, CutAll;
    if ps == [] {
      NoParts(rest);
    } else {
      FirstWritable(ps);
      var e, more := EncodePart(ps[0]), EncodeParts(ps[1..]) + rest;
      assert EncodeParts(ps) + rest == e + more;
      CutParts(ps[1..], rest);
      CutStep(ps[0], KindLists(ps[1..]), more);
      assert ps == [ps[0]] + ps[1..];
    }
  }

  lemma NoParts(rest: seq<Byte>)
    ensures CutAll(KindLists([]), EncodeParts([]) + rest) == Cut([], 0) && EncodeParts([]) == []
  {
  }

  lemma CutStep(p: seq<Field>, kss: seq<seq<Kind>>, more: seq<Byte>)
    requires Writable(p)
    ensures var r, x := CutAll([KindsOf(p)] + kss, EncodePart(p) + more), CutAll(kss, more);
            x.Cut? ==> r == Cut([p] + x.value, |EncodePart(p)| + x.used)
  {
    hide EncodePart, Cutting, Writable, KindsOf;
    CutPart(p, more);
    assert ([KindsOf(p)] + kss)[1..] == kss;
    assert (EncodePart(p) + more)[|EncodePart(p)|..] == more;
  }

  lemma PartKinds(b: TagBlock)
    requires BlockFits(b)
    ensures ExtraKinds(TypeOf(b.tag)).Some?
    ensures KindLists(Parts(b)) ==
            [ExtraKinds(TypeOf(b.tag)).value, AID_KINDS, AID_KINDS, SVC_KINDS, AID_KINDS, [UKind(W16)]]
  {
    TagFitsAid(b.tag);
    TagWritable(b.tag);
    AidWritable(b.tag.aid);
    AidWritable(b.recver);
    AidWritable(b.skt);
    SvcWritable(b.svc);
    FlagWritable(b.isErrRet);
    hide TagFits, AidFits, AidFields, SvcFields, Extras, ExtraKinds, TypeOf, FlagField, KindsOf;
    KindListsOfSix(Parts(b));
  }

  lemma KindListsOfSix(ps: seq<seq<Field>>)
    requires |ps| == 6
    ensures KindLists(ps) ==
            [KindsOf(ps[0]), KindsOf(ps[1]), KindsOf(ps[2]), KindsOf(ps[3]), KindsOf(ps[4]), KindsOf(ps[5])]
  {
    hide KindsOf;
    assert KindLists(ps) == [KindsOf(ps[0])] + KindLists(ps[1..]);
    assert KindLists(ps[1..]) == [KindsOf(ps[1])] + KindLists(ps[1..][1..]);
    assert KindLists(ps[1..][1..]) == [KindsOf(ps[2])] + KindLists(ps[1..][1..][1..]);
    assert KindLists(ps[1..][1..][1..]) == [KindsOf(ps[3])] + KindLists(ps[1..][1..][1..][1..]);
    assert KindLists(ps[1..][1..][1..][1..]) == [KindsOf(ps[4])] + KindLists(ps[1..][1..][1..][1..][1..]);
  }

  lemma BlockRoundTrip(b: TagBlock, rest: seq<Byte>)
    requires BlockFits(b)
    ensures DecodeBlock(EncodeBlock(b) + rest) == Cut(b.(tag := OnWire(b.tag)), |EncodeBlock(b)|)
  {
    PartsWritable(b);
    TypeWritable(b.tag);
    PartKinds(b);
    PartsRead(b);
    hide TagFits, AidFits, AidFields, SvcFields, Extras, ExtraKinds, EncodeParts, EncodePart, Writable, AllWritable,
         Cutting, CutAll, MakeTag, MakeAid, MakeSvc, OnWire, TypeOf, FlagField, Num, Parts, KindLists;
    var e, more := EncodePart([TypeField(b.tag)]), EncodeParts(Parts(b)) + rest;
    assert EncodeBlock(b) + rest == e + more;
    CutPart([TypeField(b.tag)], more);
    assert (e + more)[|e|..] == more;
    CutParts(Parts(b), rest);
  }

  /** The parts as read make up the block. */
  lemma PartsRead(b: TagBlock)
    requires BlockFits(b)
    ensures var ps := Parts(b);
            && |ps| == 6 && MakeTag(TypeOf(b.tag), ps[0], MakeAid(ps[1])) == OnWire(b.tag) && MakeAid(ps[2]) == b.recver
            && MakeSvc(ps[3]) == b.svc && MakeAid(ps[4]) == b.skt && (Num(ps[5], 0) != 0 <==> b.isErrRet)
  {
    TagFitsAid(b.tag);
    TagWritable(b.tag);
    AidWritable(b.tag.aid);
    AidWritable(b.recver);
    AidWritable(b.skt);
    SvcWritable(b.svc);
    FlagWritable(b.isErrRet);
    hide TagFits, AidFits, AidFields, SvcFields, Extras, ExtraKinds, MakeTag, MakeAid, MakeSvc, OnWire, TypeOf,
         FlagField, Num;
  }

  lemma FlagWritable(flag: bool)
    ensures var fs := [FlagField(flag)];
            Writable(fs) && KindsOf(fs) == [UKind(W16)] && (Num(fs, 0) != 0 <==> flag)
  {
  }

  lemma TypeWritable(t: Tag)
    ensures var fs := [TypeField(t)];
            Writable(fs) && KindsOf(fs) == [UKind(W64)] && Num(fs, 0) == TypeOf(t)
  {
  }

  function Pushed(v: Value, b: TagBlock): Value
    requires BlockFits(b)
  {
    v.(tagOffset := Low32(|v.bytes|), bytes := v.bytes + EncodeBlock(b))
  }

  /** No tag: the message is left alone. Otherwise the tag is read from the offset on and cut off. */
  datatype Popped = NoTag | Tagged(block: TagBlock, rest: Value) | Failed

  function Pop(v: Value): Popped {
    if v.tagOffset == U32_NIL then NoTag
    else if v.read + v.tagOffset > |v.bytes| then Failed
    else
      match DecodeBlock(v.bytes[v.read + v.tagOffset..])
      case Bad => Failed
      case Cut(b, _) => Popped.Tagged(b, v.(bytes := v.bytes[..v.tagOffset], read := 0))
  }

  /** Whatever the tag is, popping it leaves the bytes in front of it, to be read from the start. */
  lemma PopCuts(v: Value)
    ensures Pop(v).NoTag? <==> v.tagOffset == U32_NIL
    ensures Pop(v).Tagged? ==>
              v.tagOffset <= |v.bytes| && Pop(v).rest == v.(bytes := v.bytes[..v.tagOffset], read := 0)
  {
    hide DecodeBlock;
  }

  /**
   Popping undoes pushing for all seven kinds, from a zero read cursor: the tag
   without its local-only fields and the body, byte for byte, come back.
   */
  lemma PopUndoesPush(v: Value, b: TagBlock)
    requires BlockFits(b) && v.read == 0 && |v.bytes| < U32_NIL
    ensures Pop(Pushed(v, b)) == Popped.Tagged(b.(tag := OnWire(b.tag)), v.(tagOffset := |v.bytes|))
  {
    hide DecodeBlock, EncodeBlock;
    var bytes := v.bytes + EncodeBlock(b);
    BlockRoundTrip(b, []);
    assert bytes[|v.bytes|..] == EncodeBlock(b) + [];
    assert bytes[..|v.bytes|] == v.bytes;
  }

  // ---------------------------------------------------------------- the methods

  lemma {:induction false} PartsSnoc(ps: seq<seq<Field>>, p: seq<Field>)
    requires AllWritable(ps) && Writable(p)
    ensures AllWritable(ps + [p]) && EncodeParts(ps + [p]) == EncodeParts(ps) + EncodePart(p)
    decreases |ps|
  {
    hide EncodePart, Writable;
    if ps == [] {
      assert ps + [p] == [p] && [p][1..] == [];
      assert EncodeParts([]) == [];
    } else {
      FirstWritable(ps);
      PartsSnoc(ps[1..], p);
      assert (ps + [p])[1..] == ps[1..] + [p];
    }
  }

  lemma PrefixWritable(ps: seq<seq<Field>>, k: nat)
    requires AllWritable(ps) && k <= |ps|
    ensures AllWritable(ps[..k]) && (k < |ps| ==> Writable(ps[k]))
  {
  }

  /** Part k of a tag block, written behind the parts before it. */
  method AppendPart(m: Message, ghost body: seq<Byte>, ps: seq<seq<Field>>, k: nat, together: bool)
    requires m.Wf() && k < |ps| && AllWritable(ps) && AllWritable(ps[..k])
    requires m.Bytes() == body + EncodeParts(ps[..k])
    modifies m`large, m`buf, m`size, m`writeSize, m.large, m.buf
    ensures m.Wf()
    ensures ps[k] == [] && !together ==> unchanged(m) && (m.large != null ==> unchanged(m.large)) && unchanged(m.buf)
    ensures ps[k] != [] || together ==> m.Privatised(old(m.large))
    ensures old(m.large) != null && old(m.large.count) > 1 ==> old(m.buf)[..] == old(m.buf[..])
    ensures AllWritable(ps[..k + 1]) && m.AsValue() == old(m.AsValue()).(bytes := body + EncodeParts(ps[..k + 1]))
  {
    PrefixWritable(ps, k);
    PartsSnoc(ps[..k], ps[k]);
    assert ps[..k + 1] == ps[..k] + [ps[k]];
    WritableTyped(ps[k]);
    hide EncodeAll, EncodeParts, Writable, AllWritable;
    if together {
      m.AppendFields(ps[k]);
    } else {
      m.AppendEach(ps[k]);
    }
    assert body + EncodeParts(ps[..k]) + EncodePart(ps[k]) == body + (EncodeParts(ps[..k]) + EncodePart(ps[k]));
  }

  lemma WritableTyped(fs: seq<Field>)
    requires Writable(fs)
    ensures forall f :: f in fs ==> WellTyped(f)
  {
  }

  /** Remembers where the body ends and writes the tag behind it; identifiers are written as one structure each. */
  method PushTag(m: Message, b: TagBlock)
    requires m.Wf() && BlockFits(b)
    modifies m, m.large, m.buf
    ensures m.Wf() && m.AsValue() == Pushed(old(m.AsValue()), b)
    ensures m.Privatised(old(m.large))
    ensures old(m.large) != null && old(m.large.count) > 1 ==> old(m.buf)[..] == old(m.buf[..])
  {
    PartsWritable(b);
    TypeWritable(b.tag);
    BlockParts(b);
    var ps := [[TypeField(b.tag)]] + Parts(b);
    hide BlockFits, Parts, EncodeParts, EncodePart, EncodeBlock, Writable, AllWritable, Low32, TypeField;
    ghost var v := m.AsValue();
    m.MarkTag();
    assert m.Bytes() == v.bytes + EncodeParts(ps[..0]);
    for k := 0 to 7
      invariant m.Wf() && AllWritable(ps[..k])
      invariant k == 0 ==> m.large == old(m.large) && m.buf == old(m.buf)
      invariant k == 0 ==> (m.large != null ==> unchanged(m.large)) && unchanged(m.buf)
      invariant k > 0 ==> m.Privatised(old(m.large))
      invariant old(m.large) != null && old(m.large.count) > 1 ==> old(m.buf)[..] == old(m.buf[..])
      invariant m.AsValue() == v.(tagOffset := Low32(|v.bytes|), bytes := v.bytes + EncodeParts(ps[..k]))
    {
      AppendPart(m, v.bytes, ps, k, 2 <= k < 6);
    }
    assert ps[..7] == ps;
  }

  lemma BlockParts(b: TagBlock)
    requires BlockFits(b)
    ensures var ps := [[TypeField(b.tag)]] + Parts(b);
            && |ps| == 7 && AllWritable(ps) && AllWritable(ps[..0]) && EncodeParts(ps[..0]) == []
            && EncodeParts(ps) == EncodeBlock(b)
  {
    PartsWritable(b);
    TypeWritable(b.tag);
    var ps := [[TypeField(b.tag)]] + Parts(b);
    assert ps[1..] == Parts(b);
    hide Writable, EncodePart;
    assert forall p :: p in ps <==> p == [TypeField(b.tag)] || p in Parts(b);
  }

  /** Reads the tag block that starts at the remembered offset, and takes it off the body. */
  method PopTag(m: Message) returns (b: Option<TagBlock>)
    requires m.Wf()
    modifies m`readSize, m`writeSize
    ensures m.Wf()
    ensures match Pop(old(m.AsValue()))
            case NoTag => b == None && m.AsValue() == old(m.AsValue())
            case Tagged(block, rest) => b == Some(block) && m.AsValue() == rest
            case Failed => true
  {
    hide DecodeBlock;
    b := None;
    if m.tagOffset == U32_NIL {
      return;
    }
    ghost var v := m.AsValue();
    var ok := m.Skip(m.tagOffset);
    if !ok {
      return;
    }
    assert m.Unread() == v.bytes[v.read + v.tagOffset..];
    b := ReadBlock(m);
    if b == None {
      return;
    }
    assert v.tagOffset <= m.writeSize;
    m.CutOff(m.tagOffset);
    assert m.Bytes() == v.bytes[..v.tagOffset];
  }

  method ReadBlock(m: Message) returns (b: Option<TagBlock>)
    requires m.Wf()
    modifies m`readSize
    ensures m.Wf()
    ensures DecodeBlock(old(m.Unread())).Cut? ==> b == Some(DecodeBlock(old(m.Unread())).value)
  {
    hide DecodeAll, CutAll, Cutting, MakeTag, MakeAid, MakeSvc, Num;
    b := None;
    ghost var all, start := m.Unread(), m.readSize;
    CuttingIs([UKind(W64)], all);
    var ty := m.ReadEach([UKind(W64)]);
    if ty == None || ExtraKinds(Num(ty.value, 0)) == None {
      return;
    }
    assert Cutting([UKind(W64)], all).Cut? ==> m.Unread() == all[m.readSize - start..];
    var kss := [ExtraKinds(Num(ty.value, 0)).value, AID_KINDS, AID_KINDS, SVC_KINDS, AID_KINDS, [UKind(W16)]];
    var ps := ReadParts(m, kss);
    if ps == None {
      return;
    }
    var fs := ps.value;
    b := Some(TagBlock(MakeTag(Num(ty.value, 0), fs[0], MakeAid(fs[1])), MakeAid(fs[2]), MakeSvc(fs[3]),
                       MakeAid(fs[4]), Num(fs[5], 0) != 0));
  }

  method ReadParts(m: Message, kss: seq<seq<Kind>>) returns (ps: Option<seq<seq<Field>>>)
    requires m.Wf()
    modifies m`readSize
    ensures m.Wf() && (ps.Some? ==> |ps.value| == |kss|)
    ensures var d := CutAll(kss, old(m.Unread()));
            d.Cut? ==> ps == Some(d.value) && m.readSize == old(m.readSize) + d.used
  {
    hide DecodeAll, CutAll, Cutting, CutBehind;
    ghost var all, start := m.Unread(), m.readSize;
    var got: seq<seq<Field>> := [];
    NoneCut(CutAll(kss, all));
    assert kss[0..] == kss;
    for i := 0 to |kss|
      invariant m.Wf() && m.readSize >= start && |got| == i
      invariant CutAll(kss, all).Cut? ==>
                CutAll(kss, all) == CutBehind(got, m.readSize - start, CutAll(kss[i..], m.Unread()))
    {
      ghost var before, was := m.Unread(), m.readSize;
      CutNext(kss[i..], before, got, m.readSize - start);
      CuttingIs(kss[i], before);
      var fs := m.ReadEach(kss[i]);
      if fs == None {
        return None;
      }
      assert m.Unread() == before[m.readSize - was..];
      assert kss[i..][1..] == kss[i + 1..];
      got := got + [fs.value];
    }
    assert kss[|kss|..] == [];
    AllCut(got, m.readSize - start, m.Unread());
    ps := Some(got);
  }

  /** The outcome when some parts have been read. */
  function CutBehind(got: seq<seq<Field>>, used: nat, r: Cut<seq<seq<Field>>>): Cut<seq<seq<Field>>> {
    match r
    case Bad => Bad
    case Cut(ps, n) => Cut(got + ps, used + n)
  }

  lemma NoneCut(r: Cut<seq<seq<Field>>>)
    ensures CutBehind([], 0, r) == r
  {
    if r.Cut? {
      assert [] + r.value == r.value;
    }
  }

  lemma AllCut(got: seq<seq<Field>>, used: nat, s: seq<Byte>)
    ensures CutBehind(got, used, CutAll([], s)) == Cut(got, used)
  {
    assert got + [] == got;
  }

  lemma CuttingIs(ks: seq<Kind>, s: seq<Byte>)
    ensures var d := DecodeAll(ks, s);
            if d.ParsedAll? then Cutting(ks, s) == Cut(d.fields, d.used) else Cutting(ks, s) == Bad
  {
  }

  lemma CutNext(kss: seq<seq<Kind>>, s: seq<Byte>, got: seq<seq<Field>>, used: nat)
    requires kss != []
    ensures var r, x := CutBehind(got, used, CutAll(kss, s)), Cutting(kss[0], s);
            r.Cut? ==> x.Cut? && r == CutBehind(got + [x.value], used + x.used, CutAll(kss[1..], s[x.used..]))
  {
    hide Cutting;
    var x := Cutting(kss[0], s);
    if x.Cut? {
      var more := CutAll(kss[1..], s[x.used..]);
      if more.Cut? {
        assert got + ([x.value] + more.value) == got + [x.value] + more.value;
      }
    }
  }
}
