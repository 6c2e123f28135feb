/** Round-robin selection of sockets: each context has an ordered set of sockets and a cursor into it. */
module CachePools {
  import opened Ids
  import opened Sequences

  /** The order on identifiers: context, start time, object, incarnation. */
  predicate Less(a: AidKey, b: AidKey) {
    if a.ctxid != b.ctxid then a.ctxid < b.ctxid
    else if a.timestamp != b.timestamp then a.timestamp < b.timestamp
    else if a.ptr != b.ptr then a.ptr < b.ptr
    else a.sid < b.sid
  }

  predicate Sorted(s: seq<AidKey>) {
    forall i, j :: 0 <= i < j < |s| ==> Less(s[i], s[j])
  }

  predicate Ascending(s: seq<Match>) {
    forall i, j :: 0 <= i < j < |s| ==> s[i] < s[j]
  }

  lemma LessIsTotal(a: AidKey, b: AidKey, c: AidKey)
    ensures !Less(a, a) && (a != b ==> (Less(a, b) <==> !Less(b, a))) && (Less(a, b) && Less(b, c) ==> Less(a, c))
  {
  }

  /** An ordered set of sockets and the one that is next; an empty set has its cursor at its end. */
  datatype SocketList = SocketList(skts: seq<AidKey>, cursor: nat) {
    predicate Valid() {
      Sorted(skts) && (cursor < |skts| || (skts == [] && cursor == 0))
    }
  }

  function Advance(cursor: nat, n: nat): nat {
    if cursor + 1 == n then 0 else cursor + 1
  }

  /** Where n selections leave the cursor. */
  function CursorAfter(l: SocketList, n: nat): (c: nat)
    requires l.Valid() && l.skts != []
    ensures c < |l.skts|
    ensures n <= |l.skts| ==> c == if l.cursor + n < |l.skts| then l.cursor + n else l.cursor + n - |l.skts|
  {
    if n == 0 then l.cursor else Advance(CursorAfter(l, n - 1), |l.skts|)
  }

  /** What n selections in a row return. */
  function Selections(l: SocketList, n: nat): (r: seq<AidKey>)
    requires l.Valid() && l.skts != []
    ensures |r| == n
  {
    if n == 0 then [] else Selections(l, n - 1) + [l.skts[CursorAfter(l, n - 1)]]
  }

  lemma {:induction false} SelectionsRotate(l: SocketList, n: nat)
    requires l.Valid() && l.skts != [] && n <= |l.skts|
    ensures Selections(l, n) == (l.skts[l.cursor..] + l.skts[..l.cursor])[..n]
  {
    if n > 0 {
      SelectionsRotate(l, n - 1);
    }
  }

  /** As many selections as there are sockets return each socket once and come back to where they began. */
  lemma EachOnce(l: SocketList)
    requires l.Valid() && l.skts != []
    ensures multiset(Selections(l, |l.skts|)) == multiset(l.skts) && CursorAfter(l, |l.skts|) == l.cursor
  {
    hide Selections, Sorted;
    SelectionsRotate(l, |l.skts|);
    RotationKeeps(l.skts, l.cursor);
  }

  lemma RotationKeeps(s: seq<AidKey>, c: nat)
    requires c <= |s|
    ensures multiset((s[c..] + s[..c])[..|s|]) == multiset(s)
  {
    assert (s[c..] + s[..c])[..|s|] == s[c..] + s[..c];
    assert s == s[..c] + s[c..];
  }

  // ---------------------------------------------------------------- one table of contexts

  /** The contexts of one kind of connection, in order, with a cursor that moves from context to context. */
  class ConnTable {
    var ctxs: seq<Match>
    var lists: map<Match, SocketList>
    var curr: nat

    ghost predicate Valid()
      reads this
    {
      && Ascending(ctxs) && (forall c :: c in lists <==> c in ctxs)
      && (forall c :: c in lists ==> lists[c].Valid())
      && (curr < |ctxs| || (ctxs == [] && curr == 0))
    }

    /** The sockets registered for a context. */
    function Registered(c: Match): set<AidKey>
      reads this
    {
      if c in lists then set x | x in lists[c].skts else {}
    }

    constructor ()
      ensures Valid() && lists == map[]
    {
      ctxs, lists, curr := [], map[], 0;
    }

    /** A new context goes to its place; the cursor stays on the context it was on. */
    method AddContext(c: Match)
      requires Valid()
      modifies this
      ensures Valid() && lists == if c in old(lists) then old(lists) else old(lists)[c := SocketList([], 0)]
      ensures old(ctxs) != [] ==> ctxs != [] && ctxs[curr] == old(ctxs)[old(curr)]
    {
      if c !in lists {
        var p := ContextPosition(c);
        InsertAscends(ctxs, p, c);
        InsertedHas(ctxs, p, c);
        if ctxs != [] && p <= curr {
          curr := curr + 1;
        }
        ctxs := InsertAt(ctxs, p, c);
        lists := lists[c := SocketList([], 0)];
      }
    }

    method ContextPosition(c: Match) returns (p: nat)
      requires Valid()
      ensures p <= |ctxs| && (forall i :: 0 <= i < p ==> ctxs[i] < c) && (p < |ctxs| ==> ctxs[p] >= c)
    {
      p := 0;
      while p < |ctxs| && ctxs[p] < c
        invariant p <= |ctxs| && forall i :: 0 <= i < p ==> ctxs[i] < c
      {
        p := p + 1;
      }
    }

    method Register(c: Match, skt: AidKey)
      requires Valid()
      modifies this
      ensures Valid() && Registered(c) == old(Registered(c)) + {skt}
      ensures forall d :: d != c ==> Registered(d) == old(Registered(d))
      ensures forall d :: d in old(lists) && d != c ==> d in lists && lists[d] == old(lists)[d]
      ensures lists.Keys == old(lists).Keys + {c} && (skt in old(Registered(c)) ==> lists == old(lists))
      ensures c in old(lists) && old(lists)[c].skts != [] && skt !in old(lists)[c].skts ==>
                lists[c].skts[lists[c].cursor] == old(lists)[c].skts[old(lists)[c].cursor]
    {
      hide Sorted, Ascending;
      ghost var was := lists;
      AddContext(c);
      assert lists.Keys == was.Keys + {c};
      var l := lists[c];
      var added := AddSocket(l, skt);
      lists := lists[c := added];
      if |ctxs| == 1 {
        curr := 0;
      }
    }

    /** The set keeps its order and the cursor its socket; the first socket puts the cursor on itself. */
    method AddSocket(l: SocketList, skt: AidKey) returns (r: SocketList)
      requires l.Valid()
      ensures r.Valid() && (forall x :: x in r.skts <==> x in l.skts || x == skt)
      ensures l.skts != [] && |l.skts| < |r.skts| ==> r.skts[r.cursor] == l.skts[l.cursor]
      ensures if skt in l.skts then r == l else |r.skts| == |l.skts| + 1
    {
      r := l;
      if skt !in l.skts {
        var p := 0;
        while p < |l.skts| && Less(l.skts[p], skt)
          invariant p <= |l.skts| && forall i :: 0 <= i < p ==> Less(l.skts[i], skt)
        {
          p := p + 1;
        }
        InsertKeepsOrder(l.skts, p, skt);
        InsertedHas(l.skts, p, skt);
        r := SocketList(InsertAt(l.skts, p, skt), if l.skts != [] && p <= l.cursor then l.cursor + 1 else l.cursor);
      }
      if |r.skts| == 1 {
        r := r.(cursor := 0);
      }
    }

    method Deregister(c: Match, skt: AidKey)
      requires Valid()
      modifies this
      ensures Valid() && Registered(c) == old(Registered(c)) - {skt} && ctxs == old(ctxs) && curr == old(curr)
      ensures forall d :: d != c ==> Registered(d) == old(Registered(d))
      ensures c in lists ==> lists[c].cursor == 0
    {
      if c in lists {
        var l := lists[c];
        var skts := l.skts;
        var p := 0;
        while p < |skts| && skts[p] != skt
          invariant p <= |skts| && forall i :: 0 <= i < p ==> skts[i] != skt
        {
          p := p + 1;
        }
        if p < |skts| {
          RemoveKeepsOrder(skts, p);
          skts := RemoveAt(skts, p);
        }
        lists := lists[c := SocketList(skts, 0)];
      }
    }

    /** The socket under a context's cursor, which moves on. */
    method Take(c: Match) returns (skt: Option<AidKey>)
      requires Valid() && c in lists
      modifies this`lists
      ensures Valid()
      ensures var l := old(lists)[c];
              if l.skts == [] then skt == None && lists == old(lists)
              else skt == Some(l.skts[l.cursor]) && lists == old(lists)[c := l.(cursor := CursorAfter(l, 1))]
    {
      var l := lists[c];
      skt := None;
      if l.skts != [] {
        if l.cursor != |l.skts| {
          skt := Some(l.skts[l.cursor]);
        }
        l := l.(cursor := l.cursor + 1);
        if l.cursor == |l.skts| {
          l := l.(cursor := 0);
        }
        lists := lists[c := l];
      }
    }

    /** Selects for one context; a context without sockets, or none at all, gives none. */
    method Select(c: Match) returns (skt: Option<AidKey>)
      requires Valid()
      modifies this`lists
      ensures Valid() && (skt.Some? <==> Registered(c) != {}) && (skt.Some? ==> skt.value in Registered(c))
      ensures c in old(lists) && old(lists)[c].skts != [] ==>
                var l := old(lists)[c];
                skt == Some(l.skts[l.cursor]) && lists == old(lists)[c := l.(cursor := CursorAfter(l, 1))]
      ensures skt == None ==> lists == old(lists)
      ensures forall d :: Registered(d) == old(Registered(d))
    {
      skt := None;
      if c in lists {
        SocketsRegistered(c);
        skt := Take(c);
      }
    }

    /** Selects from the context whose turn it is; an empty one gives none even if others have sockets. */
    method SelectAny() returns (skt: Option<AidKey>, target: Option<Match>)
      requires Valid()
      modifies this`lists, this`curr
      ensures Valid() && ctxs == old(ctxs) && (forall d :: Registered(d) == old(Registered(d)))
      ensures target == if ctxs == [] then None else Some(ctxs[old(curr)])
      ensures skt.Some? <==> target.Some? && Registered(target.value) != {}
      ensures skt.Some? ==> skt.value in Registered(target.value)
                            && target.value in old(lists) && old(lists)[target.value].skts != []
                            && var l := old(lists)[target.value];
                               skt.value == l.skts[l.cursor]
                               && lists == old(lists)[target.value := l.(cursor := CursorAfter(l, 1))]
      ensures skt == None ==> lists == old(lists)
      ensures ctxs != [] ==> curr == Advance(old(curr), |ctxs|)
    {
      skt, target := None, None;
      if ctxs != [] {
        var c := ctxs[curr];
        target := Some(c);
        curr := curr + 1;
        if curr == |ctxs| {
          curr := 0;
        }
        SocketsRegistered(c);
        skt := Take(c);
      }
    }

    lemma SocketsRegistered(c: Match)
      requires c in lists
      ensures Registered(c) != {} <==> lists[c].skts != []
      ensures lists[c].Valid() && lists[c].skts != [] ==> lists[c].skts[lists[c].cursor] in Registered(c)
    {
      assert lists[c].skts != [] ==> lists[c].skts[0] in Registered(c);
    }

    /** As many selections for a context as it has sockets return each socket once. */
    method SelectRound(c: Match, n: nat) returns (got: seq<AidKey>)
      requires Valid() && c in lists && n == |lists[c].skts| && n > 0
      modifies this`lists
      ensures Valid() && multiset(got) == multiset(old(lists)[c].skts) && lists == old(lists)
    {
      ghost var l := lists[c];
      got := [];
      for i := 0 to n
        invariant Valid() && got == Selections(l, i) && lists == old(lists)[c := l.(cursor := CursorAfter(l, i))]
      {
        hide Selections, CursorAfter, Registered, Sorted, Ascending;
        SelectionsStep(l, i);
        var skt := Select(c);
        got := got + [skt.value];
      }
      EachOnce(l);
      assert old(lists)[c := l] == old(lists);
    }
  }

  datatype SocketType = Comm | Router | Joint

  /** Straight connections, connections that joined a router, and routers for when there is no connection. */
  class CachePool {
    const conns: ConnTable
    const joints: ConnTable
    const routers: ConnTable

    constructor ()
      ensures fresh(conns) && fresh(joints) && fresh(routers) && Valid()
      ensures conns.lists == joints.lists == routers.lists == map[]
    {
      conns := new ConnTable();
      joints := new ConnTable();
      routers := new ConnTable();
    }

    ghost predicate Valid()
      reads conns, joints, routers
    {
      conns.Valid() && joints.Valid() && routers.Valid() && conns != joints && joints != routers && conns != routers
    }

    /** A socket is registered with the table of its kind, for its context, and nothing else changes. */
    method RegisterSocket(kind: SocketType, c: Match, skt: AidKey)
      requires Valid()
      modifies conns, joints, routers
      ensures Valid()
      ensures kind == Comm ==>
                && unchanged(joints, routers) && conns.Registered(c) == old(conns.Registered(c)) + {skt}
                && conns.lists.Keys == old(conns.lists.Keys) + {c}
                && forall d :: d != c ==> conns.Registered(d) == old(conns.Registered(d))
      ensures kind == Joint ==>
                && unchanged(conns, routers) && joints.Registered(c) == old(joints.Registered(c)) + {skt}
                && joints.lists.Keys == old(joints.lists.Keys) + {c}
                && forall d :: d != c ==> joints.Registered(d) == old(joints.Registered(d))
      ensures kind == Router ==>
                && unchanged(conns, joints) && routers.Registered(c) == old(routers.Registered(c)) + {skt}
                && routers.lists.Keys == old(routers.lists.Keys) + {c}
                && forall d :: d != c ==> routers.Registered(d) == old(routers.Registered(d))
    {
      match kind {
        case Router => routers.Register(c, skt);
        case Joint => joints.Register(c, skt);
        case Comm => conns.Register(c, skt);
      }
    }

    method DeregisterSocket(kind: SocketType, c: Match, skt: AidKey)
      requires Valid()
      modifies conns, joints, routers
      ensures Valid()
      ensures kind == Comm ==>
                && unchanged(joints, routers) && conns.Registered(c) == old(conns.Registered(c)) - {skt}
                && forall d :: d != c ==> conns.Registered(d) == old(conns.Registered(d))
      ensures kind == Joint ==>
                && unchanged(conns, routers) && joints.Registered(c) == old(joints.Registered(c)) - {skt}
                && forall d :: d != c ==> joints.Registered(d) == old(joints.Registered(d))
      ensures kind == Router ==>
                && unchanged(conns, joints) && routers.Registered(c) == old(routers.Registered(c)) - {skt}
                && forall d :: d != c ==> routers.Registered(d) == old(routers.Registered(d))
    {
      match kind {
        case Router => routers.Deregister(c, skt);
        case Joint => joints.Deregister(c, skt);
        case Comm => conns.Deregister(c, skt);
      }
    }

    /**
     A socket of the asked context, or of the context whose turn it is when none is
     asked; or else of the router whose turn it is.
     */
    method SelectSocket(c: Match) returns (skt: Option<AidKey>, target: Option<Match>)
      requires Valid()
      modifies conns, routers
      ensures Valid() && (forall d :: conns.Registered(d) == old(conns.Registered(d)))
      ensures forall d :: routers.Registered(d) == old(routers.Registered(d))
      ensures var asked := if c != MATCH_NIL then Some(c) else Turn(old(conns.ctxs), old(conns.curr));
              var router := Turn(old(routers.ctxs), old(routers.curr));
              if asked.Some? && old(conns.Registered(asked.value)) != {} then
                && skt.Some? && skt.value in old(conns.Registered(asked.value))
                && target == (if c != MATCH_NIL then None else asked)
                && routers.curr == old(routers.curr) && routers.lists == old(routers.lists)
              else
                && target == (if router.Some? then router else if c != MATCH_NIL then None else asked)
                && (skt.Some? <==> router.Some? && old(routers.Registered(router.value)) != {})
                && (skt.Some? ==> skt.value in old(routers.Registered(router.value)))
    {
      target := None;
      if c != MATCH_NIL {
        skt := conns.Select(c);
      } else {
        skt, target := conns.SelectAny();
      }
      if skt == None {
        var router: Option<Match>;
        skt, router := routers.SelectAny();
        if router.Some? {
          target := router;
        }
      }
    }

    /** What a router passes packs on to: a joined connection of the asked context, or of the one whose turn it is. */
    method SelectJointSocket(c: Match) returns (skt: Option<AidKey>, target: Option<Match>)
      requires Valid()
      modifies joints
      ensures Valid() && forall d :: joints.Registered(d) == old(joints.Registered(d))
      ensures var asked := if c != MATCH_NIL then Some(c) else Turn(old(joints.ctxs), old(joints.curr));
              && target == (if c != MATCH_NIL then None else asked)
              && (skt.Some? <==> asked.Some? && old(joints.Registered(asked.value)) != {})
              && (skt.Some? ==> skt.value in old(joints.Registered(asked.value)))
    {
      target := None;
      if c != MATCH_NIL {
        skt := joints.Select(c);
      } else {
        skt, target := joints.SelectAny();
      }
    }
  }

  /** A registered connection to a context is what a selection for this context finds, or another one to it. */
  method ConnectedIsSelected(pool: CachePool, c: Match, skt: AidKey) returns (got: Option<AidKey>)
    requires pool.Valid() && c != MATCH_NIL
    modifies pool.conns, pool.joints, pool.routers
    ensures pool.Valid() && got.Some? && got.value in old(pool.conns.Registered(c)) + {skt}
  {
    pool.RegisterSocket(Comm, c, skt);
    var target: Option<Match>;
    got, target := pool.SelectSocket(c);
  }

  /** So for a connection that joined this router and a selection of where to pass packs on. */
  method JoinedIsSelected(pool: CachePool, c: Match, skt: AidKey) returns (got: Option<AidKey>)
    requires pool.Valid() && c != MATCH_NIL
    modifies pool.conns, pool.joints, pool.routers
    ensures pool.Valid() && got.Some? && got.value in old(pool.joints.Registered(c)) + {skt}
  {
    pool.RegisterSocket(Joint, c, skt);
    var target: Option<Match>;
    got, target := pool.SelectJointSocket(c);
  }

  /** The only router is selected for any context that there is no connection to, and joined connections are not. */
  method OnlyRouterIsSelected(r: Match, skt: AidKey, joined: AidKey, c: Match) returns (got: Option<AidKey>)
    requires c != MATCH_NIL
    ensures got == Some(skt)
  {
    var pool := new CachePool();
    pool.RegisterSocket(Router, r, skt);
    assert pool.routers.ctxs == [r] by { OneContext(pool.routers, r); }
    pool.RegisterSocket(Joint, c, joined);
    var target: Option<Match>;
    got, target := pool.SelectSocket(c);
  }

  lemma OneContext(t: ConnTable, c: Match)
    requires t.Valid() && t.Registered(c) != {} && forall d :: d != c ==> d !in t.lists
    ensures t.ctxs == [c] && t.curr == 0
  {
    assert c in t.ctxs && (|t.ctxs| > 1 ==> t.ctxs[0] < t.ctxs[1]);
    forall i | 0 <= i < |t.ctxs| ensures t.ctxs[i] == c {
      assert t.ctxs[i] in t.lists;
    }
  }

  function Turn(ctxs: seq<Match>, curr: nat): Option<Match> {
    if curr < |ctxs| then Some(ctxs[curr]) else None
  }

  lemma InsertedHas<T>(s: seq<T>, p: nat, x: T)
    requires p <= |s|
    ensures forall y :: y in InsertAt(s, p, x) <==> y in s || y == x
  {
    forall y | y in s ensures y in InsertAt(s, p, x) {
      var i :| 0 <= i < |s| && s[i] == y;
      assert i < p ==> InsertAt(s, p, x)[i] == y;
      assert i >= p ==> InsertAt(s, p, x)[i + 1] == y;
    }
  }

  lemma InsertAscends(s: seq<Match>, p: nat, x: Match)
    requires Ascending(s) && p <= |s| && x !in s
    requires (forall i :: 0 <= i < p ==> s[i] < x) && (p < |s| ==> s[p] >= x)
    ensures Ascending(InsertAt(s, p, x))
  {
    hide InsertAt;
    var r := InsertAt(s, p, x);
    forall i, j | 0 <= i < j < |r| ensures r[i] < r[j] {
      assert i > p ==> r[i] == s[i - 1];
      assert j > p ==> r[j] == s[j - 1];
    }
  }

  lemma SelectionsStep(l: SocketList, i: nat)
    requires l.Valid() && l.skts != []
    ensures CursorAfter(l, i) < |l.skts|
    ensures Selections(l, i + 1) == Selections(l, i) + [l.skts[CursorAfter(l, i)]]
    ensures CursorAfter(l.(cursor := CursorAfter(l, i)), 1) == CursorAfter(l, i + 1)
  {
    assert CursorAfter(l.(cursor := CursorAfter(l, i)), 0) == CursorAfter(l, i);
  }

  lemma InsertKeepsOrder(s: seq<AidKey>, p: nat, x: AidKey)
    requires Sorted(s) && p <= |s| && x !in s
    requires (forall i :: 0 <= i < p ==> Less(s[i], x)) && (p < |s| ==> !Less(s[p], x))
    ensures Sorted(InsertAt(s, p, x))
  {
  }

  lemma RemoveKeepsOrder(s: seq<AidKey>, p: nat)
    requires Sorted(s) && p < |s|
    ensures Sorted(RemoveAt(s, p)) && forall y :: y in RemoveAt(s, p) <==> y in s && y != s[p]
  {
    LessIsTotal(s[p], s[p], s[p]);
    forall y | y in s && y != s[p] ensures y in RemoveAt(s, p) {
      var i :| 0 <= i < |s| && s[i] == y;
      assert i < p ==> RemoveAt(s, p)[i] == y;
      assert i > p ==> RemoveAt(s, p)[i - 1] == y;
    }
  }
}
