/**
 What a mailbox promises, on a plain list of queued messages: which message a
 receive takes, which earlier exit notice a new one replaces, and what that
 means over a whole run of pushes and pops.
 */
module MailboxSpec {
  import opened Ids
  import opened Sequences

  datatype Msg = Msg(typ: Match, body: seq<int>)

  /** Who a queued message came from. */
  datatype Recv =
    | FromAid(aid: Aid)
    | FromRequest(reqId: nat, requester: Aid)
    | FromExit(code: Match, dead: Aid)

  /** One node of the arrival list; `id` stands for the list iterator that names it. */
  datatype Entry = Entry(id: nat, src: Recv, msg: Msg)

  /** The slot an exit notice occupies: a mailbox keeps at most one notice in each. */
  datatype Slot = NoSlot | BySender(key: AidKey) | ByService(svc: SvcId)

  function SenderOf(src: Recv): Aid {
    match src
    case FromAid(aid) => aid
    case FromExit(_, aid) => aid
    case FromRequest(_, _) => NO_AID
  }

  function SlotFor(sender: Aid, typ: Match): Slot {
    if !sender.IsSet() || typ != EXIT then NoSlot
    else if sender.svc.IsSet() then ByService(sender.svc)
    else BySender(sender.key)
  }

  function SlotOf(e: Entry): Slot {
    SlotFor(SenderOf(e.src), e.msg.typ)
  }

  ghost predicate Ordered(q: seq<Entry>) {
    forall i, j :: 0 <= i < j < |q| ==> q[i].id < q[j].id
  }

  ghost predicate OnePerSlot(q: seq<Entry>) {
    forall i, j :: 0 <= i < j < |q| && SlotOf(q[i]) == SlotOf(q[j]) ==> SlotOf(q[i]).NoSlot?
  }

  // ---------------------------------------------------------------- filters

  function Select(q: seq<Entry>, p: Entry -> bool): seq<Entry> {
    if q == [] then []
    else if p(q[|q| - 1]) then Select(q[..|q| - 1], p) + [q[|q| - 1]]
    else Select(q[..|q| - 1], p)
  }

  lemma {:induction false} SelectConcat(a: seq<Entry>, b: seq<Entry>, p: Entry -> bool)
    ensures Select(a + b, p) == Select(a, p) + Select(b, p)
  {
    if b == [] {
      assert a + b == a;
    } else {
      assert (a + b)[..|a + b| - 1] == a + b[..|b| - 1];
      SelectConcat(a, b[..|b| - 1], p);
    }
  }

  function Just(e: Entry, p: Entry -> bool): seq<Entry> {
    if p(e) then [e] else []
  }

  lemma SelectOne(e: Entry, p: Entry -> bool)
    ensures Select([e], p) == Just(e, p)
  {
    assert [e][..0] == [];
  }

  lemma {:induction false} SelectMember(q: seq<Entry>, p: Entry -> bool)
    ensures forall e :: e in Select(q, p) <==> e in q && p(e)
  {
    if q != [] {
      SelectMember(q[..|q| - 1], p);
      assert q == q[..|q| - 1] + [q[|q| - 1]];
    }
  }

  lemma {:induction false} SelectNothing(q: seq<Entry>, p: Entry -> bool)
    requires forall e :: e in q ==> !p(e)
    ensures Select(q, p) == []
  {
    if q != [] {
      SelectNothing(q[..|q| - 1], p);
    }
  }

  /** Splits a selection at one element of the list. */
  lemma SelectAround(a: seq<Entry>, e: Entry, b: seq<Entry>, p: Entry -> bool)
    ensures Select(a + [e] + b, p) == Select(a, p) + Just(e, p) + Select(b, p)
  {
    SelectConcat(a + [e], b, p);
    SelectConcat(a, [e], p);
    SelectOne(e, p);
  }

  // ---------------------------------------------------------------- push

  function OtherSlot(s: Slot): Entry -> bool {
    (e: Entry) => SlotOf(e) != s
  }

  /** The list without whatever holds slot `s`. */
  function Vacated(q: seq<Entry>, s: Slot): seq<Entry> {
    if s.NoSlot? then q else Select(q, OtherSlot(s))
  }

  /** The list after `e` arrives: it replaces the notice that held its slot. */
  function Pushed(q: seq<Entry>, e: Entry): seq<Entry> {
    Vacated(q, SlotOf(e)) + [e]
  }

  lemma PushedOnePerSlot(q: seq<Entry>, e: Entry)
    requires OnePerSlot(q)
    ensures OnePerSlot(Pushed(q, e))
  {
    if !SlotOf(e).NoSlot? {
      var p := OtherSlot(SlotOf(e));
      SelectOnePerSlot(q, p);
      var s := Select(q, p);
      forall i | 0 <= i < |s| ensures SlotOf(s[i]) != SlotOf(e) {
        SelectMember(q, p);
        assert s[i] in s;
      }
    }
  }

  lemma {:induction false} SelectOnePerSlot(q: seq<Entry>, p: Entry -> bool)
    requires OnePerSlot(q)
    ensures OnePerSlot(Select(q, p))
  {
    if q != [] {
      var h, last := q[..|q| - 1], q[|q| - 1];
      SelectOnePerSlot(h, p);
      var s := Select(h, p);
      forall i | 0 <= i < |s| && SlotOf(s[i]) == SlotOf(last) ensures SlotOf(last).NoSlot? {
        SelectMember(h, p);
        assert s[i] in s;
        var k :| 0 <= k < |h| && h[k] == s[i];
        assert q[k] == s[i] && q[|q| - 1] == last;
      }
    }
  }

  /**
   Which messages an arrival replaces, by their fields: exactly the exit notices of
   the service it is an exit notice of or, where neither names a service, those of
   the same actor.
   */
  lemma ReplacedExactly(q: seq<Entry>, x: Entry, a: Aid, e: Entry, b: Aid)
    requires x in q && x != e
    requires (x.src.FromAid? && x.src.aid == a) || (x.src.FromExit? && x.src.dead == a)
    requires (e.src.FromAid? && e.src.aid == b) || (e.src.FromExit? && e.src.dead == b)
    ensures e in Pushed(q, e)
    ensures x !in Pushed(q, e) <==>
            && x.msg.typ == EXIT && e.msg.typ == EXIT && a.key.ptr != 0 && b.key.ptr != 0
            && (if b.svc.name != MATCH_NIL then a.svc == b.svc else a.svc.name == MATCH_NIL && a.key == b.key)
  {
    SelectMember(q, OtherSlot(SlotOf(e)));
  }

  /** A request neither replaces anything nor is replaced. */
  lemma RequestsStay(q: seq<Entry>, x: Entry, e: Entry)
    requires x in q && (x.src.FromRequest? || e.src.FromRequest?)
    ensures x in Pushed(q, e)
  {
    SelectMember(q, OtherSlot(SlotOf(e)));
  }

  // ---------------------------------------------------------------- pop

  /** Index of the oldest message of type `t`. */
  function FirstOfType(q: seq<Entry>, t: Match): (r: Option<nat>)
    ensures r.Some? ==> r.value < |q| && q[r.value].msg.typ == t
    ensures r.Some? ==> forall j :: 0 <= j < r.value ==> q[j].msg.typ != t
    ensures r.None? ==> forall j :: 0 <= j < |q| ==> q[j].msg.typ != t
  {
    if q == [] then None
    else
      var h := FirstOfType(q[..|q| - 1], t);
      if h.Some? then h
      else if q[|q| - 1].msg.typ == t then Some(|q| - 1) else None
  }

  function FirstListed(q: seq<Entry>, types: seq<Match>): Option<nat> {
    if types == [] then None
    else if FirstOfType(q, types[0]).Some? then FirstOfType(q, types[0])
    else FirstListed(q, types[1..])
  }

  /** Which queued message a receive for `types` takes; no types means any. */
  function PopIndex(q: seq<Entry>, types: seq<Match>): Option<nat> {
    if q == [] then None
    else if types == [] then Some(0)
    else FirstListed(q, types)
  }

  ghost predicate Wanted(e: Entry, types: seq<Match>) {
    types == [] || e.msg.typ in types
  }

  /** `i` is the oldest message of the first listed type that has any. */
  ghost predicate BestMatch(q: seq<Entry>, types: seq<Match>, i: nat) {
    && i < |q|
    && (forall j :: 0 <= j < i ==> q[j].msg.typ != q[i].msg.typ)
    && (types == [] ==> i == 0)
    && (types != [] ==> exists k :: 0 <= k < |types| && types[k] == q[i].msg.typ
                                    && forall l, j :: 0 <= l < k && 0 <= j < |q| ==> q[j].msg.typ != types[l])
  }

  lemma {:induction false} FirstListedMeaning(q: seq<Entry>, types: seq<Match>)
    requires types != []
    ensures var r := FirstListed(q, types);
            && (r.None? <==> forall e :: e in q ==> e.msg.typ !in types)
            && (r.Some? ==> BestMatch(q, types, r.value))
  {
    var r := FirstListed(q, types);
    if FirstOfType(q, types[0]).Some? {
      assert q[r.value] in q && types[0] in types;
    } else if |types| > 1 {
      FirstListedMeaning(q, types[1..]);
      assert types == [types[0]] + types[1..];
      if r.Some? {
        var k :| 0 <= k < |types[1..]| && types[1..][k] == q[r.value].msg.typ
                 && forall l, j :: 0 <= l < k && 0 <= j < |q| ==> q[j].msg.typ != types[1..][l];
        assert types[k + 1] == q[r.value].msg.typ;
        forall l, j | 0 <= l < k + 1 && 0 <= j < |q| ensures q[j].msg.typ != types[l] {
          if l > 0 { assert types[l] == types[1..][l - 1]; }
        }
      }
    }
  }

  /** A receive fails exactly when nothing queued is wanted, and otherwise takes the best match. */
  lemma PopIndexMeaning(q: seq<Entry>, types: seq<Match>)
    ensures var r := PopIndex(q, types);
            && (r.None? <==> forall e :: e in q ==> !Wanted(e, types))
            && (r.Some? ==> BestMatch(q, types, r.value))
  {
    if q != [] {
      assert q[0] in q;
      if types != [] {
        FirstListedMeaning(q, types);
      }
    }
  }

  /** There is only one best match, so the clause above fixes the result of every receive. */
  lemma BestMatchUnique(q: seq<Entry>, types: seq<Match>, i: nat, j: nat)
    requires BestMatch(q, types, i) && BestMatch(q, types, j)
    ensures i == j
  {
  }

  /** If nothing queued is wanted, a new arrival is taken exactly when it is itself wanted. */
  lemma ArrivalWakes(q: seq<Entry>, e: Entry, types: seq<Match>)
    requires PopIndex(q, types).None?
    ensures var r := PopIndex(Pushed(q, e), types);
            && (r.Some? <==> Wanted(e, types))
            && (r.Some? ==> r.value == |Pushed(q, e)| - 1)
  {
    var p := Pushed(q, e);
    PopIndexMeaning(q, types);
    PopIndexMeaning(p, types);
    SelectMember(q, OtherSlot(SlotOf(e)));
    assert forall x :: x in p ==> x == e || x in q;
    assert e in p;
    var r := PopIndex(p, types);
    if r.Some? {
      assert p[r.value] in p;
      assert Wanted(p[r.value], types);
    }
  }

  // ---------------------------------------------------------------- whole runs

  datatype Event = Push(entry: Entry) | Pop(types: seq<Match>)

  datatype Outcome = Outcome(queue: seq<Entry>, taken: seq<Entry>)

  function Step(o: Outcome, ev: Event): Outcome {
    match ev
    case Push(e) => Outcome(Pushed(o.queue, e), o.taken)
    case Pop(types) =>
      var r := PopIndex(o.queue, types);
      PopIndexBound(o.queue, types);
      if r.None? then o else Outcome(RemoveAt(o.queue, r.value), o.taken + [o.queue[r.value]])
  }

  lemma PopIndexBound(q: seq<Entry>, types: seq<Match>)
    ensures PopIndex(q, types).Some? ==> PopIndex(q, types).value < |q|
  {
    PopIndexMeaning(q, types);
  }

  function Run(evs: seq<Event>): Outcome {
    if evs == [] then Outcome([], []) else Step(Run(evs[..|evs| - 1]), evs[|evs| - 1])
  }

  function Arrivals(evs: seq<Event>): seq<Entry> {
    if evs == [] then []
    else if evs[|evs| - 1].Push? then Arrivals(evs[..|evs| - 1]) + [evs[|evs| - 1].entry]
    else Arrivals(evs[..|evs| - 1])
  }

  function OfType(t: Match): Entry -> bool {
    (e: Entry) => e.msg.typ == t
  }

  /** Messages of one type without those that a later notice replaced. */
  function Lasting(t: Match, gone: set<Entry>): Entry -> bool {
    (e: Entry) => e.msg.typ == t && e !in gone
  }

  /** Every queued notice whose slot a later one asked for. */
  function Replaced(evs: seq<Event>): set<Entry> {
    if evs == [] then {}
    else
      var h, ev := evs[..|evs| - 1], evs[|evs| - 1];
      if ev.Push? then Replaced(h) + Ousted(Run(h).queue, ev.entry) else Replaced(h)
  }

  function Ousted(q: seq<Entry>, e: Entry): set<Entry> {
    set x | x in q && !SlotOf(e).NoSlot? && SlotOf(x) == SlotOf(e)
  }

  function NextId(evs: seq<Event>): nat {
    if evs == [] then 0
    else if evs[|evs| - 1].Push? then evs[|evs| - 1].entry.id + 1
    else NextId(evs[..|evs| - 1])
  }

  /** Each arrival gets a new name, as the nodes of a list do. */
  ghost predicate Numbered(evs: seq<Event>) {
    evs == [] ||
    (Numbered(evs[..|evs| - 1]) && (evs[|evs| - 1].Push? ==> NextId(evs[..|evs| - 1]) <= evs[|evs| - 1].entry.id))
  }

  ghost predicate Below(q: seq<Entry>, bound: nat) {
    forall i :: 0 <= i < |q| ==> q[i].id < bound
  }

  lemma {:induction false} SelectOrdered(q: seq<Entry>, p: Entry -> bool, bound: nat)
    requires Ordered(q) && Below(q, bound)
    ensures Ordered(Select(q, p)) && Below(Select(q, p), bound)
  {
    if q != [] {
      SelectOrdered(q[..|q| - 1], p, q[|q| - 1].id);
    }
  }

  /** A message is queued, taken or replaced, and only one of these. */
  ghost predicate InOnePlace(o: Outcome, gone: set<Entry>, next: nat) {
    && Ordered(o.queue) && Below(o.queue, next)
    && (forall x :: x in o.queue ==> x !in o.taken && x !in gone)
    && (forall x :: x in o.taken ==> x.id < next && x !in gone)
    && (forall x :: x in gone ==> x.id < next)
  }

  lemma {:induction false} EachInOnePlace(evs: seq<Event>)
    requires Numbered(evs)
    ensures InOnePlace(Run(evs), Replaced(evs), NextId(evs))
  {
    if evs != [] {
      var h, ev := evs[..|evs| - 1], evs[|evs| - 1];
      EachInOnePlace(h);
      match ev {
        case Push(e) => PushInOnePlace(Run(h), Replaced(h), NextId(h), e);
        case Pop(types) => PopInOnePlace(Run(h), Replaced(h), NextId(h), types);
      }
    }
  }

  lemma PushInOnePlace(o: Outcome, gone: set<Entry>, next: nat, e: Entry)
    requires InOnePlace(o, gone, next) && next <= e.id
    ensures InOnePlace(Step(o, Push(e)), gone + Ousted(o.queue, e), e.id + 1)
  {
    var v := Vacated(o.queue, SlotOf(e));
    SelectOrdered(o.queue, OtherSlot(SlotOf(e)), next);
    SelectMember(o.queue, OtherSlot(SlotOf(e)));
    assert forall x :: x in v ==> x in o.queue && x !in Ousted(o.queue, e);
    assert forall x :: x in o.queue ==> x.id < next;
    hide Vacated, OtherSlot, SlotOf, Select;
    assert forall x :: x in v + [e] ==> x in v || x == e;
  }

  lemma PopInOnePlace(o: Outcome, gone: set<Entry>, next: nat, types: seq<Match>)
    requires InOnePlace(o, gone, next)
    ensures InOnePlace(Step(o, Pop(types)), gone, next)
  {
    PopIndexBound(o.queue, types);
    hide PopIndex;
    var r := PopIndex(o.queue, types);
    if r.Some? {
      var rest := RemoveAt(o.queue, r.value);
      assert o.queue[r.value] in o.queue;
      forall x | x in rest ensures x in o.queue && x != o.queue[r.value] {
        var j :| 0 <= j < |rest| && rest[j] == x;
        assert x == o.queue[if j < r.value then j else j + 1];
      }
    }
  }

  /** Selections that agree on a list give the same. */
  lemma {:induction false} SelectSame(q: seq<Entry>, p: Entry -> bool, r: Entry -> bool)
    requires forall e :: e in q ==> p(e) == r(e)
    ensures Select(q, p) == Select(q, r)
  {
    if q != [] {
      SelectSame(q[..|q| - 1], p, r);
      assert q[|q| - 1] in q;
    }
  }

  lemma {:induction false} SelectTwice(q: seq<Entry>, p: Entry -> bool, r: Entry -> bool)
    requires forall e :: r(e) ==> p(e)
    ensures Select(Select(q, p), r) == Select(q, r)
  {
    if q != [] {
      var h, last := q[..|q| - 1], q[|q| - 1];
      SelectTwice(h, p, r);
      if p(last) {
        SelectConcat(Select(h, p), [last], r);
        SelectOne(last, r);
        assert Select(q, p) == Select(h, p) + [last];
      } else {
        assert Select(q, p) == Select(h, p);
      }
    }
  }

  /** One receive moves its message from the queue's selection to the end of what was taken. */
  lemma PopMoves(o: Outcome, types: seq<Match>, t: Match)
    ensures var o' := Step(o, Pop(types));
            Select(o'.taken, OfType(t)) + Select(o'.queue, OfType(t)) ==
            Select(o.taken, OfType(t)) + Select(o.queue, OfType(t))
  {
    var r := PopIndex(o.queue, types);
    if r.Some? {
      PopIndexMeaning(o.queue, types);
      var i := r.value;
      var a, e, b := o.queue[..i], o.queue[i], o.queue[i + 1..];
      assert o.queue == a + [e] + b;
      if e.msg.typ == t {
        SelectNothing(a, OfType(t));
      }
      MoveFront(o.taken, a, e, b, OfType(t));
    }
  }

  lemma MoveFront(taken: seq<Entry>, a: seq<Entry>, e: Entry, b: seq<Entry>, p: Entry -> bool)
    requires p(e) ==> Select(a, p) == []
    ensures Select(taken + [e], p) + Select(a + b, p) == Select(taken, p) + Select(a + [e] + b, p)
  {
    SelectAround(a, e, b, p);
    SelectConcat(a, b, p);
    SelectConcat(taken, [e], p);
    SelectOne(e, p);
    Shuffle(Select(taken, p), Select(a, p), Just(e, p), Select(b, p));
  }

  lemma Shuffle(t: seq<Entry>, x: seq<Entry>, one: seq<Entry>, y: seq<Entry>)
    requires x == [] || one == []
    ensures (t + one) + (x + y) == t + (x + one + y)
  {
    if x == [] {
      assert x + y == y && x + one + y == one + y;
    } else {
      assert t + one == t && x + one + y == x + y;
    }
  }

  /** An arrival goes behind what lasts of the queue. */
  lemma PushAppends(q: seq<Entry>, e: Entry, t: Match, gone: set<Entry>)
    requires e !in gone && forall x :: x in q ==> x !in gone
    ensures Select(Pushed(q, e), OfType(t)) ==
            Select(Select(q, OfType(t)), Lasting(t, gone + Ousted(q, e))) + Select([e], OfType(t))
  {
    var p, all := Lasting(t, gone + Ousted(q, e)), OfType(t);
    SelectTwice(q, all, p);
    SelectConcat(Vacated(q, SlotOf(e)), [e], all);
    if SlotOf(e).NoSlot? {
      SelectSame(q, all, p);
    } else {
      var keep := OtherSlot(SlotOf(e));
      var both := (x: Entry) => all(x) && keep(x);
      SelectTwice(q, keep, both);
      SelectMember(q, keep);
      SelectSame(Select(q, keep), all, both);
      SelectSame(q, both, p);
    }
  }

  /**
   Per-type order and conservation: over any run, what was taken of a type
   followed by what is still queued of it is what arrived of it, in order and
   without the notices that later ones replaced.
   */
  lemma {:induction false} TypeFifo(evs: seq<Event>, t: Match)
    requires Numbered(evs)
    ensures var o := Run(evs);
            Select(o.taken, OfType(t)) + Select(o.queue, OfType(t)) == Select(Arrivals(evs), Lasting(t, Replaced(evs)))
  {
    if evs != [] {
      var h, ev := evs[..|evs| - 1], evs[|evs| - 1];
      TypeFifo(h, t);
      match ev {
        case Push(e) =>
          EachInOnePlace(h);
          FifoPush(Run(h), Replaced(h), NextId(h), Arrivals(h), e, t);
        case Pop(types) =>
          PopMoves(Run(h), types, t);
      }
    }
  }

  lemma FifoPush(o: Outcome, gone: set<Entry>, next: nat, arrivals: seq<Entry>, e: Entry, t: Match)
    requires InOnePlace(o, gone, next) && next <= e.id
    requires Select(o.taken, OfType(t)) + Select(o.queue, OfType(t)) == Select(arrivals, Lasting(t, gone))
    ensures Select(o.taken, OfType(t)) + Select(Pushed(o.queue, e), OfType(t)) ==
            Select(arrivals + [e], Lasting(t, gone + Ousted(o.queue, e)))
  {
    var all, p := OfType(t), Lasting(t, gone + Ousted(o.queue, e));
    PushAppends(o.queue, e, t, gone);
    assert forall x :: x in o.queue ==> x.id < next;
    SelectTwice(arrivals, Lasting(t, gone), p);
    SelectTwice(o.taken, all, p);
    SelectSame(o.taken, all, p);
    SelectSame([e], all, p);
    hide Select, Pushed, Ousted, InOnePlace;
    SelectConcat(Select(o.taken, all), Select(o.queue, all), p);
    SelectConcat(arrivals, [e], p);
  }

  /** Index of the last arrival that asked for slot `s`. */
  function LastFor(evs: seq<Event>, s: Slot): Option<Entry> {
    if evs == [] then None
    else if evs[|evs| - 1].Push? && SlotOf(evs[|evs| - 1].entry) == s then Some(evs[|evs| - 1].entry)
    else LastFor(evs[..|evs| - 1], s)
  }

  lemma PushKeeps(q: seq<Entry>, e: Entry)
    ensures e in Pushed(q, e)
    ensures forall x :: x in q && (SlotOf(x).NoSlot? || SlotOf(x) != SlotOf(e)) ==> x in Pushed(q, e)
  {
    SelectMember(q, OtherSlot(SlotOf(e)));
  }

  lemma PopKeeps(o: Outcome, types: seq<Match>)
    ensures var o' := Step(o, Pop(types));
            forall x :: x in o.queue || x in o.taken ==> x in o'.queue || x in o'.taken
  {
    var r := PopIndex(o.queue, types);
    PopIndexBound(o.queue, types);
    if r.Some? {
      assert o.queue == o.queue[..r.value] + [o.queue[r.value]] + o.queue[r.value + 1..];
    }
  }

  /** Replacing notices never loses the news: the latest notice of every sender is queued or was taken. */
  lemma {:induction false} LatestNoticeKept(evs: seq<Event>, s: Slot)
    requires s != NoSlot
    ensures LastFor(evs, s).Some? ==>
              LastFor(evs, s).value in Run(evs).queue || LastFor(evs, s).value in Run(evs).taken
  {
    if evs != [] {
      var h, ev := evs[..|evs| - 1], evs[|evs| - 1];
      var o := Run(h);
      LatestNoticeKept(h, s);
      LastForSlot(h, s);
      match ev {
        case Push(e) =>
          PushKeeps(o.queue, e);
        case Pop(types) =>
          PopKeeps(o, types);
      }
    }
  }

  lemma {:induction false} LastForSlot(evs: seq<Event>, s: Slot)
    ensures LastFor(evs, s).Some? ==> SlotOf(LastFor(evs, s).value) == s
  {
    if evs != [] { LastForSlot(evs[..|evs| - 1], s); }
  }

  /** No run ever queues two notices for one slot. */
  lemma {:induction false} RunOnePerSlot(evs: seq<Event>)
    ensures OnePerSlot(Run(evs).queue)
  {
    if evs != [] {
      var h, ev := evs[..|evs| - 1], evs[|evs| - 1];
      RunOnePerSlot(h);
      match ev {
        case Push(e) => PushedOnePerSlot(Run(h).queue, e);
        case Pop(types) => PopIndexBound(Run(h).queue, types);
      }
    }
  }
}
