/**
 The link tables of a socket, which stand in for the remote ends of links:
 when the connection breaks, the socket itself reports every recorded end as dead.
 */
module SocketLinks {
  import opened Ids
  import opened LinkTypes

  /** What moves a table: straight links of this process, and router links passed on between sockets. */
  datatype Event =
    | AddStraight(src: AidKey, des: AidKey)
    | RemoveStraight(src: AidKey, des: AidKey)
    | AddRouter(src: AidKey, des: AidKey, skt: AidKey)
    | RemoveRouter(src: AidKey, des: AidKey)
    | Broken

  datatype Out =
    | Link(kind: LinkType, from: AidKey, to: AidKey)
    | FwdLink(kind: LinkType, from: AidKey, to: AidKey, origin: AidKey, via: AidKey)
    | Exit(from: AidKey, to: AidKey)
    | FwdExit(from: AidKey, to: AidKey, origin: AidKey, via: AidKey)
    | Request(id: nat, from: AidKey, to: AidKey)
    | Other(from: AidKey, to: AidKey)
    | AlreadyExited(from: AidKey, to: AidKey)
    | AlreadyAnswered(id: nat, from: AidKey, to: AidKey)
    | ToPeer(tag: Out)

  /** Where an exit from the network goes on to; `Unrecorded` is the assertion that a router knows the way back. */
  datatype Passed = PassedOn(out: Out) | NobodyHere | Unrecorded

  /** What can happen to a socket while it is in use. */
  datatype Input =
    | LinkArrives(kind: LinkType, from: AidKey, recver: AidKey, skt: Option<AidKey>, here: bool)
    | ExitArrives(from: AidKey, recver: AidKey, here: bool)
    | Leaves(p: Out, to: AidKey, errRet: bool)
    | NetError

  /** What another actor or socket hands to a socket to be sent. */
  predicate Sendable(p: Out) {
    p.Link? || p.FwdLink? || p.Exit? || p.FwdExit? || p.Request? || p.Other?
  }

  predicate IsSet(a: AidKey) {
    a.ptr != 0
  }

  // ---------------------------------------------------------------- the tables as functions of what happened

  /** The pair is recorded: its last event is an add, and the connection has not broken since. */
  function InStraight(h: seq<Event>, src: AidKey, des: AidKey): bool {
    if h == [] then false
    else match h[|h| - 1]
      case Broken => false
      case AddStraight(s, d) => (IsSet(d) && s == src && d == des) || InStraight(h[..|h| - 1], src, des)
      case RemoveStraight(s, d) => !(s == src && d == des) && InStraight(h[..|h| - 1], src, des)
      case _ => InStraight(h[..|h| - 1], src, des)
  }

  /** The socket that a router pair is recorded with; adding a recorded pair again changes nothing. */
  function InRouter(h: seq<Event>, src: AidKey, des: AidKey): Option<AidKey> {
    if h == [] then None
    else
      var before := InRouter(h[..|h| - 1], src, des);
      match h[|h| - 1]
      case Broken => None
      case AddRouter(s, d, skt) => if IsSet(d) && s == src && d == des && before == None then Some(skt) else before
      case RemoveRouter(s, d) => if s == src && d == des then None else before
      case _ => before
  }

  /** Nothing from position i on takes the straight pair out. */
  ghost predicate StraightKept(h: seq<Event>, i: nat, src: AidKey, des: AidKey) {
    forall j :: i <= j < |h| ==> h[j] != Broken && h[j] != RemoveStraight(src, des)
  }

  ghost predicate StraightAddedAt(h: seq<Event>, i: nat, src: AidKey, des: AidKey) {
    i < |h| && h[i] == AddStraight(src, des) && StraightKept(h, i + 1, src, des)
  }

  /** A straight pair is recorded exactly when some add of it has been followed by no removal and no break. */
  lemma {:induction false} StraightIsAddsMinusRemoves(h: seq<Event>, src: AidKey, des: AidKey)
    requires IsSet(des)
    ensures InStraight(h, src, des) <==> exists i: nat :: StraightAddedAt(h, i, src, des)
  {
    if h != [] {
      var n := |h| - 1;
      StraightIsAddsMinusRemoves(h[..n], src, des);
      if h[n] == AddStraight(src, des) {
        assert StraightAddedAt(h, n, src, des);
      } else {
        if i: nat :| StraightAddedAt(h[..n], i, src, des) {
          assert InStraight(h, src, des) ==> StraightAddedAt(h, i, src, des);
        }
        if i: nat :| StraightAddedAt(h, i, src, des) {
          assert StraightAddedAt(h[..n], i, src, des);
        }
      }
    }
  }

  ghost predicate RouterCleared(e: Event, src: AidKey, des: AidKey) {
    e == Broken || e == RemoveRouter(src, des)
  }

  /** Position i is the first add of the pair since it was last taken out, and it has not been taken out again. */
  ghost predicate RouterAddedAt(h: seq<Event>, i: nat, src: AidKey, des: AidKey, skt: AidKey) {
    && i < |h| && h[i] == AddRouter(src, des, skt)
    && (forall j :: i < j < |h| ==> !RouterCleared(h[j], src, des))
    && InRouter(h[..i], src, des) == None
  }

  lemma {:induction false} RouterKeepsFirstAdd(h: seq<Event>, src: AidKey, des: AidKey, skt: AidKey)
    requires IsSet(des)
    ensures InRouter(h, src, des) == Some(skt) <==> exists i: nat :: RouterAddedAt(h, i, src, des, skt)
  {
    if h != [] {
      var n := |h| - 1;
      RouterKeepsFirstAdd(h[..n], src, des, skt);
      if i: nat :| RouterAddedAt(h[..n], i, src, des, skt) {
        assert h[..n][..i] == h[..i];
        assert !RouterCleared(h[n], src, des) ==> RouterAddedAt(h, i, src, des, skt);
      }
      if i: nat :| RouterAddedAt(h, i, src, des, skt) {
        if i < n {
          assert h[..n][..i] == h[..i];
          assert RouterAddedAt(h[..n], i, src, des, skt);
        }
      }
      if h[n] == AddRouter(src, des, skt) && InRouter(h[..n], src, des) == None {
        assert RouterAddedAt(h, n, src, des, skt);
      }
    }
  }

  // ---------------------------------------------------------------- what becomes of each recorded pair

  datatype Pair = StraightPair(src: AidKey, des: AidKey) | RouterPair(src: AidKey, des: AidKey, via: AidKey)

  predicate Holds(h: seq<Event>, x: Pair) {
    match x
    case StraightPair(src, des) => InStraight(h, src, des)
    case RouterPair(src, des, via) => InRouter(h, src, des) == Some(via)
  }

  /** How often the pair came to be recorded. */
  function Opened(h: seq<Event>, x: Pair): nat {
    if h == [] then 0
    else Opened(h[..|h| - 1], x) + if Holds(h, x) && !Holds(h[..|h| - 1], x) then 1 else 0
  }

  /** The passing of the pair's own exit. */
  predicate TakesOut(e: Event, x: Pair) {
    match x
    case StraightPair(src, des) => e == RemoveStraight(src, des)
    case RouterPair(src, des, _) => e == RemoveRouter(src, des)
  }

  /** How often its own exit passed by while it was recorded. */
  function TakenOut(h: seq<Event>, x: Pair): nat {
    if h == [] then 0
    else TakenOut(h[..|h| - 1], x) + if TakesOut(h[|h| - 1], x) && Holds(h[..|h| - 1], x) then 1 else 0
  }

  /** How often a break found it recorded. */
  function Reported(h: seq<Event>, x: Pair): nat {
    if h == [] then 0
    else Reported(h[..|h| - 1], x) + if h[|h| - 1] == Broken && Holds(h[..|h| - 1], x) then 1 else 0
  }

  /** The exit that a break sends for a pair. */
  function Report(self: AidKey, x: Pair): Out {
    match x
    case StraightPair(src, des) => Exit(des, src)
    case RouterPair(src, des, via) => FwdExit(des, src, self, via)
  }

  /** Every recording ends by one exit passing by or by one report, or lasts. */
  lemma {:induction false} EachIsSettledOnce(h: seq<Event>, x: Pair)
    ensures Opened(h, x) == TakenOut(h, x) + Reported(h, x) + if Holds(h, x) then 1 else 0
  {
    if h != [] {
      EachIsSettledOnce(h[..|h| - 1], x);
    }
  }

  /** The reports sent so far are those that the breaks so far called for. */
  ghost predicate AllTold(sent: multiset<Out>, self: AidKey, h: seq<Event>) {
    forall x :: sent[Report(self, x)] == Reported(h, x)
  }

  lemma NothingToTell(sent: multiset<Out>, self: AidKey, h: seq<Event>, e: Event)
    requires AllTold(sent, self, h) && e != Broken
    ensures AllTold(sent, self, h + [e])
  {
    assert (h + [e])[..|h|] == h;
  }

  /** A break reports every pair that holds, once, and leaves none. */
  lemma BreakTells(sent: multiset<Out>, self: AidKey, h: seq<Event>, out: seq<Out>)
    requires AllTold(sent, self, h)
    requires forall x :: multiset(out)[Report(self, x)] == if Holds(h, x) then 1 else 0
    ensures AllTold(sent + multiset(out), self, h + [Broken])
    ensures forall s, d :: !InStraight(h + [Broken], s, d) && InRouter(h + [Broken], s, d) == None
  {
    assert (h + [Broken])[..|h|] == h;
    hide InStraight, InRouter;
    forall x ensures (sent + multiset(out))[Report(self, x)] == Reported(h + [Broken], x) {
      assert sent[Report(self, x)] == Reported(h, x);
    }
  }

  // ---------------------------------------------------------------- what inputs mean to the tables

  /** The event that an input is to the tables of a socket, if it is one. */
  function Means(isRouter: bool, me: AidKey, x: Input): seq<Event> {
    match x
    case LinkArrives(kind, from, recver, skt, here) =>
      if kind == Monitored then []
      else if isRouter && skt.Some? then [AddRouter(recver, from, skt.value)]
      else if !isRouter && here then [AddStraight(recver, from)]
      else []
    case ExitArrives(from, recver, here) =>
      if isRouter then [RemoveRouter(recver, from)] else if here then [RemoveStraight(recver, from)] else []
    case Leaves(p, to, _) =>
      if to != me then []
      else if p.Link? then [AddStraight(p.from, p.to)]
      else if p.Exit? then [RemoveStraight(p.from, p.to)]
      else if p.FwdLink? then [AddRouter(p.from, p.to, p.origin)]
      else if p.FwdExit? then [RemoveRouter(p.from, p.to)]
      else []
    case NetError => [Broken]
  }

  function Trace(isRouter: bool, me: AidKey, xs: seq<Input>): seq<Event> {
    if xs == [] then [] else Trace(isRouter, me, xs[..|xs| - 1]) + Means(isRouter, me, xs[|xs| - 1])
  }

  /** The input links actors `near`, in this process, and `far` behind the connection, in whichever direction. */
  predicate Links(isRouter: bool, me: AidKey, x: Input, near: AidKey, far: AidKey) {
    || (!isRouter && x.LinkArrives? && x.kind == Linked && x.here && x.recver == near && x.from == far)
    || (x.Leaves? && x.to == me && x.p.Link? && x.p.from == near && x.p.to == far)
  }

  /** The input is the exit of one of the two on its way to the other, or a break. */
  predicate Unlinks(isRouter: bool, me: AidKey, x: Input, near: AidKey, far: AidKey) {
    || (!isRouter && x.ExitArrives? && x.here && x.recver == near && x.from == far)
    || (x.Leaves? && x.to == me && x.p.Exit? && x.p.from == near && x.p.to == far)
    || x.NetError?
  }

  ghost predicate LinkedSince(isRouter: bool, me: AidKey, xs: seq<Input>, i: nat, near: AidKey, far: AidKey) {
    && i < |xs| && Links(isRouter, me, xs[i], near, far)
    && forall j :: i < j < |xs| ==> !Unlinks(isRouter, me, xs[j], near, far)
  }

  lemma LastLinked(isRouter: bool, me: AidKey, xs: seq<Input>, near: AidKey, far: AidKey)
    requires IsSet(far) && xs != []
    ensures var before, x := InStraight(Trace(isRouter, me, xs[..|xs| - 1]), near, far), xs[|xs| - 1];
            InStraight(Trace(isRouter, me, xs), near, far) <==>
            Links(isRouter, me, x, near, far) || (before && !Unlinks(isRouter, me, x, near, far))
  {
    var t, e := Trace(isRouter, me, xs[..|xs| - 1]), Means(isRouter, me, xs[|xs| - 1]);
    assert Trace(isRouter, me, xs) == t + e;
    assert e == [] ==> t + e == t;
    assert e != [] ==> (t + e)[..|t|] == t;
  }

  /**
   A pair is recorded, and so reported to `near` if the connection breaks now, if
   and only if some input linked the two and neither has exited since nor has the
   connection broken.
   */
  lemma {:induction false} RecordedByInputs(isRouter: bool, me: AidKey, xs: seq<Input>, near: AidKey, far: AidKey)
    requires IsSet(far)
    ensures Holds(Trace(isRouter, me, xs), StraightPair(near, far)) <==>
            exists i: nat :: LinkedSince(isRouter, me, xs, i, near, far)
  {
    if xs != [] {
      var n := |xs| - 1;
      var h := xs[..n];
      LastLinked(isRouter, me, xs, near, far);
      RecordedByInputs(isRouter, me, h, near, far);
      forall i: nat
        ensures LinkedSince(isRouter, me, xs, i, near, far) <==>
                if i == n then Links(isRouter, me, xs[n], near, far)
                else LinkedSince(isRouter, me, h, i, near, far) && !Unlinks(isRouter, me, xs[n], near, far)
      {
        LinkedLonger(isRouter, me, xs, i, near, far);
      }
      assert !LinkedSince(isRouter, me, h, n, near, far);
      hide *;
      if i: nat :| LinkedSince(isRouter, me, xs, i, near, far) {
        assert i == n || LinkedSince(isRouter, me, h, i, near, far);
      }
      if i: nat :| LinkedSince(isRouter, me, h, i, near, far) {
        assert !Unlinks(isRouter, me, xs[n], near, far) ==> LinkedSince(isRouter, me, xs, i, near, far);
      }
      assert Links(isRouter, me, xs[n], near, far) ==> LinkedSince(isRouter, me, xs, n, near, far);
    } else {
      assert Trace(isRouter, me, xs) == [];
    }
  }

  lemma LinkedLonger(isRouter: bool, me: AidKey, xs: seq<Input>, i: nat, near: AidKey, far: AidKey)
    requires xs != []
    ensures var n := |xs| - 1;
            LinkedSince(isRouter, me, xs, i, near, far) <==>
            if i == n then Links(isRouter, me, xs[n], near, far)
            else LinkedSince(isRouter, me, xs[..n], i, near, far) && !Unlinks(isRouter, me, xs[n], near, far)
  {
    hide Links, Unlinks;
  }

  /** The input passes a link between the two on through this router, from or to socket `skt`. */
  predicate PassesLink(isRouter: bool, me: AidKey, x: Input, other: AidKey, far: AidKey, skt: AidKey) {
    || (isRouter && x.LinkArrives? && x.kind == Linked && x.skt == Some(skt) && x.recver == other && x.from == far)
    || (x.Leaves? && x.to == me && x.p.FwdLink? && x.p.from == other && x.p.to == far && x.p.origin == skt)
  }

  predicate PassesExit(isRouter: bool, me: AidKey, x: Input, other: AidKey, far: AidKey) {
    || (isRouter && x.ExitArrives? && x.recver == other && x.from == far)
    || (x.Leaves? && x.to == me && x.p.FwdExit? && x.p.from == other && x.p.to == far)
    || x.NetError?
  }

  ghost predicate PassedSince(
    isRouter: bool, me: AidKey, xs: seq<Input>, i: nat, other: AidKey, far: AidKey, skt: AidKey)
  {
    && i < |xs| && PassesLink(isRouter, me, xs[i], other, far, skt)
    && (forall j :: i < j < |xs| ==> !PassesExit(isRouter, me, xs[j], other, far))
    && InRouter(Trace(isRouter, me, xs[..i]), other, far) == None
  }

  lemma LastPassed(isRouter: bool, me: AidKey, xs: seq<Input>, other: AidKey, far: AidKey, skt: AidKey)
    requires IsSet(far) && xs != []
    ensures var before, x := InRouter(Trace(isRouter, me, xs[..|xs| - 1]), other, far), xs[|xs| - 1];
            InRouter(Trace(isRouter, me, xs), other, far) == Some(skt) <==>
            && !PassesExit(isRouter, me, x, other, far)
            && (before == Some(skt) || (before == None && PassesLink(isRouter, me, x, other, far, skt)))
  {
    var t, e := Trace(isRouter, me, xs[..|xs| - 1]), Means(isRouter, me, xs[|xs| - 1]);
    assert Trace(isRouter, me, xs) == t + e;
    assert e == [] ==> t + e == t;
    assert e != [] ==> (t + e)[..|t|] == t;
  }

  /**
   So for the pairs of a router, which keep the socket of the first link passed on
   since they were last taken out.
   */
  lemma {:induction false} PassedByInputs(
    isRouter: bool, me: AidKey, xs: seq<Input>, other: AidKey, far: AidKey, skt: AidKey)
    requires IsSet(far)
    ensures Holds(Trace(isRouter, me, xs), RouterPair(other, far, skt)) <==>
            exists i: nat :: PassedSince(isRouter, me, xs, i, other, far, skt)
  {
    if xs != [] {
      var n := |xs| - 1;
      var h := xs[..n];
      LastPassed(isRouter, me, xs, other, far, skt);
      PassedByInputs(isRouter, me, h, other, far, skt);
      forall i: nat
        ensures PassedSince(isRouter, me, xs, i, other, far, skt) <==>
                if i == n then PassesLink(isRouter, me, xs[n], other, far, skt)
                               && InRouter(Trace(isRouter, me, h), other, far) == None
                else PassedSince(isRouter, me, h, i, other, far, skt) && !PassesExit(isRouter, me, xs[n], other, far)
      {
        PassedLonger(isRouter, me, xs, i, other, far, skt);
      }
      hide *;
      if i: nat :| PassedSince(isRouter, me, xs, i, other, far, skt) {
        assert i == n || PassedSince(isRouter, me, h, i, other, far, skt);
      }
      if i: nat :| i != n && PassedSince(isRouter, me, h, i, other, far, skt) {
        assert !PassesExit(isRouter, me, xs[n], other, far) ==> PassedSince(isRouter, me, xs, i, other, far, skt);
      }
      assert PassesLink(isRouter, me, xs[n], other, far, skt) && InRouter(Trace(isRouter, me, h), other, far) == None
             ==> PassedSince(isRouter, me, xs, n, other, far, skt);
    } else {
      assert Trace(isRouter, me, xs) == [];
    }
  }

  lemma PassedLonger(
    isRouter: bool, me: AidKey, xs: seq<Input>, i: nat, other: AidKey, far: AidKey, skt: AidKey)
    requires xs != []
    ensures var n := |xs| - 1;
            PassedSince(isRouter, me, xs, i, other, far, skt) <==>
            if i == n then PassesLink(isRouter, me, xs[n], other, far, skt)
                           && InRouter(Trace(isRouter, me, xs[..n]), other, far) == None
            else PassedSince(isRouter, me, xs[..n], i, other, far, skt) && !PassesExit(isRouter, me, xs[n], other, far)
  {
    hide InRouter, Means, Trace, PassesLink, PassesExit;
    if i < |xs| - 1 {
      assert xs[..|xs| - 1][..i] == xs[..i];
    }
  }

  // ---------------------------------------------------------------- the exits that a break sends

  function StraightExits(t: map<AidKey, set<AidKey>>): set<Out> {
    set src, des | src in t && des in t[src] :: Exit(des, src)
  }

  function ExitsFor(src: AidKey, ds: set<AidKey>): set<Out> {
    set des | des in ds :: Exit(des, src)
  }

  function RouterExits(self: AidKey, t: map<AidKey, map<AidKey, AidKey>>): set<Out> {
    set src, des | src in t && des in t[src] :: FwdExit(des, src, self, t[src][des])
  }

  function FwdExitsFor(self: AidKey, src: AidKey, ds: map<AidKey, AidKey>): set<Out> {
    set des | des in ds :: FwdExit(des, src, self, ds[des])
  }

  lemma DisjointSum<T>(a: set<T>, b: set<T>)
    requires a !! b
    ensures multiset(a + b) == multiset(a) + multiset(b)
  {
    assert forall x :: multiset(a + b)[x] == multiset(a)[x] + multiset(b)[x];
  }

  // ---------------------------------------------------------------- the socket

  class Socket {
    const place: AidKey
    var sid: nat
    var isRouter: bool
    var straight: map<AidKey, set<AidKey>>
    var router: map<AidKey, map<AidKey, AidKey>>
    ghost var history: seq<Event>
    /** The identifier that the socket is or was last used under, and the reports sent under it. */
    ghost var name: AidKey
    ghost var sent: multiset<Out>

    function Me(): AidKey
      reads this
    {
      place.(sid := sid)
    }

    function Straight(src: AidKey, des: AidKey): bool
      reads this
    {
      src in straight && des in straight[src]
    }

    function Router(src: AidKey, des: AidKey): Option<AidKey>
      reads this
    {
      if src in router && des in router[src] then Some(router[src][des]) else None
    }

    ghost predicate TablesAgree()
      reads this
    {
      && (forall s, d :: Straight(s, d) == InStraight(history, s, d))
      && (forall s, d :: Router(s, d) == InRouter(history, s, d))
    }

    /** Both tables are what the events so far make of them, and every break was reported. */
    ghost predicate Valid()
      reads this
    {
      TablesAgree() && AllTold(sent, name, history)
    }

    constructor (place: AidKey)
      ensures Valid() && history == [] && sid == 0 && !isRouter && straight == map[] && router == map[]
    {
      this.place, sid, isRouter := place, 0, false;
      straight, router, history, sent := map[], map[], [], multiset{};
    }

    method UpdateAid()
      modifies this`sid
      ensures sid == old(sid) + 1
    {
      sid := sid + 1;
    }

    /** Takes the socket into use again, with empty tables. */
    method Init(isRouter: bool)
      requires straight == map[] && router == map[]
      modifies this
      ensures Valid() && history == [] && sent == multiset{} && this.isRouter == isRouter && sid == old(sid) + 1
              && name == Me()
      ensures straight == map[] && router == map[]
    {
      UpdateAid();
      this.isRouter := isRouter;
      history, sent, name := [], multiset{}, Me();
    }

    method AddStraightLink(src: AidKey, des: AidKey)
      requires Valid()
      modifies this`straight, this`history
      ensures Valid() && history == old(history) + [AddStraight(src, des)]
    {
      if IsSet(des) {
        if src !in straight {
          straight := straight[src := {}];
        }
        straight := straight[src := straight[src] + {des}];
      }
      NothingToTell(sent, name, history, AddStraight(src, des));
      history := history + [AddStraight(src, des)];
      assert history[..|history| - 1] == old(history);
    }

    method RemoveStraightLink(src: AidKey, des: AidKey)
      requires Valid()
      modifies this`straight, this`history
      ensures Valid() && history == old(history) + [RemoveStraight(src, des)]
    {
      NeverUnset(history, src, des);
      if IsSet(des) {
        if src in straight {
          straight := straight[src := straight[src] - {des}];
        }
      }
      NothingToTell(sent, name, history, RemoveStraight(src, des));
      history := history + [RemoveStraight(src, des)];
      assert history[..|history| - 1] == old(history);
    }

    method AddRouterLink(src: AidKey, des: AidKey, skt: AidKey)
      requires Valid()
      modifies this`router, this`history
      ensures Valid() && history == old(history) + [AddRouter(src, des, skt)]
    {
      if IsSet(des) {
        if src !in router {
          router := router[src := map[]];
        }
        if des !in router[src] {
          router := router[src := router[src][des := skt]];
        }
      }
      NothingToTell(sent, name, history, AddRouter(src, des, skt));
      history := history + [AddRouter(src, des, skt)];
      assert history[..|history| - 1] == old(history);
    }

    /** The socket that the pair was recorded with, or none. */
    method RemoveRouterLink(src: AidKey, des: AidKey) returns (skt: Option<AidKey>)
      requires Valid()
      modifies this`router, this`history
      ensures Valid() && history == old(history) + [RemoveRouter(src, des)]
      ensures skt == InRouter(old(history), src, des)
    {
      NeverUnset(history, src, des);
      skt := None;
      if IsSet(des) {
        if src in router {
          if des in router[src] {
            skt := Some(router[src][des]);
            router := router[src := router[src] - {des}];
          }
        }
      }
      NothingToTell(sent, name, history, RemoveRouter(src, des));
      history := history + [RemoveRouter(src, des)];
      assert history[..|history| - 1] == old(history);
    }

    /**
     A link request from the network; `skt` is the socket a router picks, `here` says
     that the receiver is alive in this process.
     */
    method LinkIn(kind: LinkType, from: AidKey, recver: AidKey, skt: Option<AidKey>, here: bool) returns (out: Out)
      requires Valid()
      modifies this`straight, this`router, this`history
      ensures Valid()
      ensures if isRouter && skt.Some? then
                out == FwdLink(kind, from, recver, Me(), skt.value)
                && history == old(history) + (if kind == Linked then [AddRouter(recver, from, skt.value)] else [])
              else if !isRouter && here then
                out == Link(kind, from, recver)
                && history == old(history) + (if kind == Linked then [AddStraight(recver, from)] else [])
              else out == AlreadyExited(recver, from) && history == old(history)
    {
      if isRouter {
        if skt == None {
          out := AlreadyExited(recver, from);
        } else {
          if kind == Linked {
            AddRouterLink(recver, from, skt.value);
          }
          out := FwdLink(kind, from, recver, Me(), skt.value);
        }
      } else {
        if here {
          if kind == Linked {
            AddStraightLink(recver, from);
          }
          out := Link(kind, from, recver);
        } else {
          out := AlreadyExited(recver, from);
        }
      }
    }

    /**
     An exit from the network goes the way its link came; a router that did not record
     the pair fails its assertion.
     */
    method ExitIn(from: AidKey, recver: AidKey, here: bool) returns (r: Passed)
      requires Valid()
      modifies this`straight, this`router, this`history
      ensures Valid()
      ensures if isRouter then
                history == old(history) + [RemoveRouter(recver, from)]
                && match InRouter(old(history), recver, from)
                   case Some(skt) => r == PassedOn(FwdExit(from, recver, Me(), skt))
                   case None => r == Unrecorded
              else if here then
                history == old(history) + [RemoveStraight(recver, from)] && r == PassedOn(Exit(from, recver))
              else history == old(history) && r == NobodyHere
    {
      r := NobodyHere;
      if isRouter {
        var skt := RemoveRouterLink(recver, from);
        if skt.None? {
          return Unrecorded;
        }
        r := PassedOn(FwdExit(from, recver, Me(), skt.value));
      } else {
        if here {
          RemoveStraightLink(recver, from);
          r := PassedOn(Exit(from, recver));
        }
      }
    }

    /**
     A pack that reaches this socket under the identifier `to`. Under the present
     one it goes out; a link or exit is recorded, and one that another socket passed
     on goes out as if it started here. Of what comes too late, only a link or a
     request that started in this process is answered, unless it is itself an error
     return.
     */
    method HandleRecv(p: Out, to: AidKey, errRet: bool) returns (out: Option<Out>)
      requires Valid() && Sendable(p)
      modifies this`straight, this`router, this`history
      ensures Valid()
      ensures to != Me() ==>
                && history == old(history)
                && out == if errRet then None
                          else if p.Link? then Some(AlreadyExited(p.to, p.from))
                          else if p.Request? then Some(AlreadyAnswered(p.id, p.to, p.from))
                          else None
      ensures to == Me() ==>
                && history == old(history) +
                     (match p
                      case Link(_, from, to) => [AddStraight(from, to)]
                      case Exit(from, to) => [RemoveStraight(from, to)]
                      case FwdLink(_, from, to, origin, _) => [AddRouter(from, to, origin)]
                      case FwdExit(from, to, _, _) => [RemoveRouter(from, to)]
                      case _ => [])
                && out == Some(ToPeer(match p
                                      case FwdLink(kind, from, to, _, _) => Link(kind, from, to)
                                      case FwdExit(from, to, _, _) => Exit(from, to)
                                      case _ => p))
    {
      if to != Me() {
        out := None;
        if !errRet {
          match p {
            case Link(_, from, to) => out := Some(AlreadyExited(to, from));
            case Request(id, from, to) => out := Some(AlreadyAnswered(id, to, from));
            case _ =>
          }
        }
        return;
      }
      out := Some(ToPeer(p));
      match p {
        case Link(_, from, to) =>
          AddStraightLink(from, to);
        case Exit(from, to) =>
          RemoveStraightLink(from, to);
        case FwdLink(kind, from, to, origin, _) =>
          AddRouterLink(from, to, origin);
          out := Some(ToPeer(Link(kind, from, to)));
        case FwdExit(from, to, _, _) =>
          var _ := RemoveRouterLink(from, to);
          out := Some(ToPeer(Exit(from, to)));
        case _ =>
      }
    }

    /**
     One exit for every recorded pair, to the source or to the socket it came through,
     and then nothing is recorded.
     */
    method OnNetErr(self: AidKey) returns (out: seq<Out>)
      requires Valid() && self == name
      modifies this`straight, this`router, this`history, this`sent
      ensures Valid() && history == old(history) + [Broken] && sent == old(sent) + multiset(out)
      ensures multiset(out) == multiset(StraightExits(old(straight))) + multiset(RouterExits(self, old(router)))
      ensures forall x :: multiset(out)[Report(self, x)] == if Holds(old(history), x) then 1 else 0
      ensures straight == map[] && router == map[]
    {
      Counted(self, straight, router);
      var a := StraightErrors();
      straight := map[];
      var b := RouterErrors(self);
      router := map[];
      out := a + b;
      forall x ensures multiset(out)[Report(self, x)] == if Holds(history, x) then 1 else 0 {
        HeldIsRecorded(x);
      }
      hide Holds, AllTold, InStraight, InRouter;
      BreakTells(sent, name, history, out);
      sent := sent + multiset(out);
      history := history + [Broken];
    }

    twostate lemma HeldIsRecorded(x: Pair)
      requires old(TablesAgree()) && history == old(history)
      ensures Holds(history, x) <==>
                match x
                case StraightPair(s, d) => s in old(straight) && d in old(straight)[s]
                case RouterPair(s, d, k) => s in old(router) && d in old(router)[s] && old(router)[s][d] == k
    {
      match x
      case StraightPair(s, d) => assert old(Straight(s, d)) == InStraight(history, s, d);
      case RouterPair(s, d, k) => assert old(Router(s, d)) == InRouter(history, s, d);
    }

    /** What the pool does with a freed socket. */
    method OnFree()
      modifies this`straight, this`isRouter
      ensures straight == map[] && !isRouter
    {
      straight, isRouter := map[], false;
    }

    /**
     Every way out of the socket's coroutine ends here: the identifier is given up,
     what is recorded is reported under the old one, and the pool gets the socket.
     */
    method FreeSelf() returns (out: seq<Out>)
      requires Valid() && name == Me()
      modifies this
      ensures Valid() && history == old(history) + [Broken] && sent == old(sent) + multiset(out)
      ensures forall x :: multiset(out)[Report(old(Me()), x)] == if Holds(old(history), x) then 1 else 0
      ensures straight == map[] && router == map[] && !isRouter && sid == old(sid) + 1 && name == old(name)
    {
      var self := Me();
      UpdateAid();
      out := OnNetErr(self);
      OnFree();
      assert TablesAgree();
    }

    /** One thing that happens to the socket in use; false when an assertion ends the program. */
    method Handle(x: Input) returns (ok: bool)
      requires Valid() && name == Me() && (x.Leaves? ==> Sendable(x.p))
      modifies this`straight, this`router, this`history, this`sent
      ensures Valid() && history == old(history) + Means(isRouter, name, x)
      ensures !ok <==> x.ExitArrives? && isRouter && InRouter(old(history), x.recver, x.from) == None
    {
      hide TablesAgree, AllTold;
      ok := true;
      match x {
        case LinkArrives(kind, from, recver, skt, here) =>
          var _ := LinkIn(kind, from, recver, skt, here);
        case ExitArrives(from, recver, here) =>
          var r := ExitIn(from, recver, here);
          ok := r != Unrecorded;
        case Leaves(p, to, errRet) =>
          var _ := HandleRecv(p, to, errRet);
        case NetError =>
          var _ := OnNetErr(Me());
      }
    }

    /**
     A whole use of the socket, from the pool back to the pool: whatever happens
     in between and however it ends, each recording of a pair is taken out once or
     reported once, and the next use finds empty tables. The exits sent at the end
     are exactly those of the pairs that the inputs leave recorded.
     */
    method Use(isRouter: bool, xs: seq<Input>) returns (ok: bool, out: seq<Out>)
      requires straight == map[] && router == map[]
      requires forall x :: x in xs && x.Leaves? ==> Sendable(x.p)
      modifies this
      ensures name == place.(sid := old(sid) + 1)
      ensures ok ==> straight == map[] && router == map[] && sid == old(sid) + 2
      ensures ok ==> history == Trace(isRouter, name, xs) + [Broken]
      ensures ok ==> forall x :: Opened(history, x) == TakenOut(history, x) + sent[Report(name, x)]
      ensures ok ==> forall x :: multiset(out)[Report(name, x)] == if Holds(Trace(isRouter, name, xs), x) then 1 else 0
    {
      Init(isRouter);
      out := [];
      for i := 0 to |xs|
        invariant Valid() && name == Me() && sid == old(sid) + 1 && this.isRouter == isRouter
        invariant history == Trace(isRouter, name, xs[..i])
      {
        ok := Handle(xs[i]);
        if !ok {
          return;
        }
        assert xs[..i + 1][..i] == xs[..i];
      }
      assert xs[..|xs|] == xs;
      out := FreeSelf();
      ok := true;
      forall x ensures Opened(history, x) == TakenOut(history, x) + sent[Report(name, x)] {
        EachIsSettledOnce(history, x);
        assert !Holds(history, x);
      }
    }

    method StraightErrors() returns (out: seq<Out>)
      ensures multiset(out) == multiset(StraightExits(straight))
    {
      out := [];
      var rest := straight.Keys;
      ghost var done: map<AidKey, set<AidKey>> := map[];
      while rest != {}
        invariant rest <= straight.Keys && done.Keys == straight.Keys - rest
        invariant forall s :: s in done ==> done[s] == straight[s]
        invariant multiset(out) == multiset(StraightExits(done))
        decreases |rest|
      {
        var src :| src in rest;
        var more := StraightErrorsOf(src, straight[src]);
        StraightGrows(done, src, straight[src]);
        out := out + more;
        done := done[src := straight[src]];
        rest := rest - {src};
      }
      assert done == straight;
    }

    method StraightErrorsOf(src: AidKey, ds: set<AidKey>) returns (out: seq<Out>)
      ensures multiset(out) == multiset(ExitsFor(src, ds))
    {
      out := [];
      var rest, done := ds, {};
      while rest != {}
        invariant rest + done == ds && rest !! done
        invariant multiset(out) == multiset(ExitsFor(src, done))
        decreases |rest|
      {
        var des :| des in rest;
        DisjointSum(ExitsFor(src, done), {Exit(des, src)});
        assert ExitsFor(src, done + {des}) == ExitsFor(src, done) + {Exit(des, src)};
        out := out + [Exit(des, src)];
        rest, done := rest - {des}, done + {des};
      }
      assert done == ds;
    }

    method RouterErrors(self: AidKey) returns (out: seq<Out>)
      ensures multiset(out) == multiset(RouterExits(self, router))
    {
      out := [];
      var rest := router.Keys;
      ghost var done: map<AidKey, map<AidKey, AidKey>> := map[];
      while rest != {}
        invariant rest <= router.Keys && done.Keys == router.Keys - rest
        invariant forall s :: s in done ==> done[s] == router[s]
        invariant multiset(out) == multiset(RouterExits(self, done))
        decreases |rest|
      {
        var src :| src in rest;
        var more := RouterErrorsOf(self, src, router[src]);
        RouterGrows(self, done, src, router[src]);
        out := out + more;
        done := done[src := router[src]];
        rest := rest - {src};
      }
      assert done == router;
    }

    method RouterErrorsOf(self: AidKey, src: AidKey, ds: map<AidKey, AidKey>) returns (out: seq<Out>)
      ensures multiset(out) == multiset(FwdExitsFor(self, src, ds))
    {
      out := [];
      var rest := ds.Keys;
      ghost var done: map<AidKey, AidKey> := map[];
      while rest != {}
        invariant rest <= ds.Keys && done.Keys == ds.Keys - rest
        invariant forall d :: d in done ==> done[d] == ds[d]
        invariant multiset(out) == multiset(FwdExitsFor(self, src, done))
        decreases |rest|
      {
        var des :| des in rest;
        FwdGrows(self, src, done, des, ds[des]);
        out := out + [FwdExit(des, src, self, ds[des])];
        done := done[des := ds[des]];
        rest := rest - {des};
      }
      assert done == ds;
    }
  }

  /** How often each exit occurs among those of two tables. */
  lemma Counted(self: AidKey, t: map<AidKey, set<AidKey>>, r: map<AidKey, map<AidKey, AidKey>>)
    ensures forall s, d :: multiset(StraightExits(t))[Exit(d, s)] == if s in t && d in t[s] then 1 else 0
    ensures forall s, d, k ::
              multiset(RouterExits(self, r))[FwdExit(d, s, self, k)] ==
              if s in r && d in r[s] && r[s][d] == k then 1 else 0
    ensures forall s, d :: multiset(RouterExits(self, r))[Exit(d, s)] == 0
    ensures forall s, d, k :: multiset(StraightExits(t))[FwdExit(d, s, self, k)] == 0
  {
    forall s, d, k ensures FwdExit(d, s, self, k) in RouterExits(self, r) <==> s in r && d in r[s] && r[s][d] == k {
    }
  }

  lemma {:induction false} NeverUnset(h: seq<Event>, src: AidKey, des: AidKey)
    ensures !IsSet(des) ==> !InStraight(h, src, des) && InRouter(h, src, des) == None
  {
    if h != [] {
      NeverUnset(h[..|h| - 1], src, des);
    }
  }

  lemma StraightGrows(t: map<AidKey, set<AidKey>>, src: AidKey, ds: set<AidKey>)
    requires src !in t
    ensures multiset(StraightExits(t[src := ds])) == multiset(StraightExits(t)) + multiset(ExitsFor(src, ds))
  {
    assert StraightExits(t[src := ds]) == StraightExits(t) + ExitsFor(src, ds);
    DisjointSum(StraightExits(t), ExitsFor(src, ds));
  }

  lemma RouterGrows(self: AidKey, t: map<AidKey, map<AidKey, AidKey>>, src: AidKey, ds: map<AidKey, AidKey>)
    requires src !in t
    ensures multiset(RouterExits(self, t[src := ds])) ==
            multiset(RouterExits(self, t)) + multiset(FwdExitsFor(self, src, ds))
  {
    var t' := t[src := ds];
    forall o | o in RouterExits(self, t) + FwdExitsFor(self, src, ds) ensures o in RouterExits(self, t') {
      if o in RouterExits(self, t) {
        var s, d :| s in t && d in t[s] && o == FwdExit(d, s, self, t[s][d]);
        assert s in t' && t'[s] == t[s];
      } else {
        var d :| d in ds && o == FwdExit(d, src, self, ds[d]);
        assert src in t' && t'[src] == ds;
      }
    }
    forall o | o in RouterExits(self, t') ensures o in RouterExits(self, t) + FwdExitsFor(self, src, ds) {
      var s, d :| s in t' && d in t'[s] && o == FwdExit(d, s, self, t'[s][d]);
      assert s != src ==> s in t && t[s] == t'[s];
    }
    assert RouterExits(self, t') == RouterExits(self, t) + FwdExitsFor(self, src, ds);
    DisjointSum(RouterExits(self, t), FwdExitsFor(self, src, ds));
  }

  lemma FwdGrows(self: AidKey, src: AidKey, ds: map<AidKey, AidKey>, des: AidKey, skt: AidKey)
    requires des !in ds
    ensures multiset(FwdExitsFor(self, src, ds[des := skt])) ==
            multiset(FwdExitsFor(self, src, ds)) + multiset{FwdExit(des, src, self, skt)}
  {
    var ds' := ds[des := skt];
    forall o | o in FwdExitsFor(self, src, ds) + {FwdExit(des, src, self, skt)}
      ensures o in FwdExitsFor(self, src, ds') {
      if o in FwdExitsFor(self, src, ds) {
        var d :| d in ds && o == FwdExit(d, src, self, ds[d]);
        assert d in ds' && ds'[d] == ds[d];
      } else {
        assert des in ds' && ds'[des] == skt;
      }
    }
    forall o | o in FwdExitsFor(self, src, ds')
      ensures o in FwdExitsFor(self, src, ds) + {FwdExit(des, src, self, skt)} {
      var d :| d in ds' && o == FwdExit(d, src, self, ds'[d]);
      assert d != des ==> d in ds && ds[d] == ds'[d];
    }
    assert FwdExitsFor(self, src, ds') == FwdExitsFor(self, src, ds) + {FwdExit(des, src, self, skt)};
    DisjointSum(FwdExitsFor(self, src, ds), {FwdExit(des, src, self, skt)});
  }

  /**
   A and B are linked through a router and exit at the same time. The exit of A
   takes the pair out of B's socket on its way to B, and the exit of B, which is
   on its way from there already, then fails the assertion that it is recorded.
   */
  method CrossingExits(a: AidKey, b: AidKey, sa: Socket, sb: Socket) returns (r: Passed)
    requires sa != sb && sa.Valid() && sb.Valid() && sa.history == sb.history == [] && sa.isRouter && sb.isRouter
    requires IsSet(a) && IsSet(b)
    modifies sa, sb
    ensures r == Unrecorded
  {
    LinkedThenGone(b, a, sb.Me());
    LinkedThenGone(a, b, sa.Me());
    hide InRouter, AllTold, InStraight;
    var link := sa.LinkIn(Linked, a, b, Some(sb.Me()), false);
    var _ := sb.HandleRecv(link, sb.Me(), false);
    assert sa.history == [AddRouter(b, a, sb.Me())] && sb.history == [AddRouter(a, b, sa.Me())];
    var exit := sa.ExitIn(a, b, false);
    var _ := sb.HandleRecv(exit.out, sb.Me(), false);
    assert sb.history == [AddRouter(a, b, sa.Me()), RemoveRouter(a, b)];
    r := sb.ExitIn(b, a, false);
  }

  /**
   A link that a router passes on to a socket which has just ended is dropped
   without an answer, and stays recorded where it came from.
   */
  method ForwardedLinkIsLost(a: AidKey, b: AidKey, sa: Socket, sb: Socket, ended: AidKey) returns (out: Option<Out>)
    requires sa != sb && sa.Valid() && sb.Valid() && sa.isRouter && ended != sb.Me() && IsSet(a)
    modifies sa, sb
    ensures out == None && sb.history == old(sb.history) && InRouter(sa.history, b, a).Some?
  {
    ghost var h := sa.history;
    var link := sa.LinkIn(Linked, a, b, Some(ended), false);
    assert (h + [AddRouter(b, a, ended)])[..|h|] == h;
    out := sb.HandleRecv(link, ended, false);
  }

  lemma LinkedThenGone(src: AidKey, des: AidKey, skt: AidKey)
    requires IsSet(des)
    ensures InRouter([AddRouter(src, des, skt)], src, des) == Some(skt)
    ensures InRouter([AddRouter(src, des, skt), RemoveRouter(src, des)], src, des) == None
  {
    var h := [AddRouter(src, des, skt), RemoveRouter(src, des)];
    assert h[..1] == [AddRouter(src, des, skt)] && h[..1][..0] == [];
  }
}
