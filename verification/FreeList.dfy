/** The pool of reusable objects: a singly linked list threaded through the objects themselves. */
module FreeLists {

  class Node {
    var next: Node?
    var alive: bool
    var cleaned: nat

    constructor ()
      ensures next == null && alive && cleaned == 0
    {
      next, alive, cleaned := null, true, 0;
    }
  }

  /** Following `next` from `head` meets the nodes of s in order and then ends. */
  ghost predicate Chain(s: seq<Node>, head: Node?)
    reads s
  {
    && head == At(s, 0)
    && forall i {:trigger s[i].next} :: 0 <= i < |s| ==> s[i].next == At(s, i + 1)
  }

  ghost function At(s: seq<Node>, i: nat): Node? {
    if i < |s| then s[i] else null
  }

  ghost function Last(s: seq<Node>): Node? {
    if s == [] then null else s[|s| - 1]
  }

  ghost predicate AllAlive(s: seq<Node>)
    reads s
  {
    forall n :: n in s ==> n.alive
  }

  /** What is handed out is usable, and not in the pool. */
  ghost predicate Apart(s: seq<Node>, out: set<Node>)
    reads out
  {
    forall n :: n in out ==> n.alive && n !in s
  }

  ghost predicate Distinct(s: seq<Node>) {
    forall i, j :: 0 <= i < j < |s| ==> s[i] != s[j]
  }

  /** A chain that ends cannot come back to a node, so following it always ends. */
  lemma {:induction false} ChainIsAcyclic(s: seq<Node>, head: Node?)
    requires Chain(s, head)
    ensures Distinct(s)
  {
    forall i, j | 0 <= i < j < |s| ensures s[i] != s[j] {
      if s[i] == s[j] {
        SameTail(s, head, i, j);
      }
    }
  }

  /** Equal nodes are followed by equally many nodes. */
  lemma {:induction false} SameTail(s: seq<Node>, head: Node?, i: nat, j: nat)
    requires Chain(s, head) && i < j < |s| && s[i] == s[j]
    ensures false
    decreases |s| - j
  {
    assert s[i].next == At(s, i + 1) && s[j].next == At(s, j + 1);
    if j + 1 < |s| {
      SameTail(s, head, i + 1, j + 1);
    }
  }

  function Reversed<T>(s: seq<T>): (r: seq<T>)
    ensures |r| == |s|
  {
    if s == [] then [] else [s[|s| - 1]] + Reversed(s[..|s| - 1])
  }

  lemma {:induction false} ReversedHas<T>(s: seq<T>, x: T)
    ensures x in Reversed(s) <==> x in s
  {
    if s != [] {
      ReversedHas(s[..|s| - 1], x);
      assert s == s[..|s| - 1] + [s[|s| - 1]];
    }
  }

  class FreeList {
    const cacheSize: nat
    var size: nat
    var head: Node?
    ghost var nodes: seq<Node>
    /** The objects that were handed out and have not been returned. */
    ghost var out: set<Node>

    /**
     The list is what `nodes` says: it ends, and has exactly `size` objects, all
     usable. None of them is handed out, so relinking those does not touch the list.
     */
    ghost predicate Valid()
      reads this, nodes, out
    {
      Chain(nodes, head) && size == |nodes| && AllAlive(nodes) && Apart(nodes, out)
    }

    constructor (cacheSize: nat, reserve: nat)
      ensures Valid() && this.cacheSize == cacheSize && |nodes| == reserve && fresh(nodes) && out == {}
    {
      this.cacheSize, size, head, nodes, out := cacheSize, 0, null, [], {};
      new;
      Reserve(reserve);
    }

    /** Links new objects behind one another; only called on an empty pool. */
    method Reserve(n: nat)
      requires Valid() && nodes == []
      modifies this
      ensures Valid() && |nodes| == n && fresh(nodes) && out == old(out)
    {
      var curr := head;
      for i := 0 to n
        invariant |nodes| == i && fresh(nodes) && size == 0 && curr == Last(nodes) && (curr != null ==> fresh(curr))
        invariant Chain(nodes, head) && AllAlive(nodes) && out == old(out)
      {
        hide Chain, AllAlive, Last;
        curr := Extend(curr);
      }
      size := size + n;
    }

    method Extend(curr: Node?) returns (obj: Node)
      requires Chain(nodes, head) && AllAlive(nodes) && curr == Last(nodes)
      modifies this, if curr == null then {} else {curr}
      ensures nodes == old(nodes) + [obj] && fresh(obj) && size == old(size) && out == old(out)
      ensures Chain(nodes, head) && AllAlive(nodes) && obj == Last(nodes)
    {
      ghost var before := nodes;
      ChainIsAcyclic(nodes, head);
      obj := new Node();
      if curr != null {
        curr.next := obj;
      } else {
        head := obj;
      }
      nodes := nodes + [obj];
      Linked(before, obj, head);
    }

    /** A pooled object, unlinked, or a new one when there is none. */
    method Get() returns (obj: Node)
      requires Valid()
      modifies this, head
      ensures Valid() && obj.next == null && obj.alive && obj !in old(out) && out == old(out) + {obj}
      ensures if old(nodes) == [] then fresh(obj) && nodes == [] else old(nodes) == [obj] + nodes && obj !in nodes
    {
      if head != null {
        ChainIsAcyclic(nodes, head);
        Rest(nodes, head);
        obj := head;
        var next := head.next;
        head := next;
        nodes := nodes[1..];
        obj.next := null;
        size := size - 1;
      } else {
        obj := new Node();
      }
      out := out + {obj};
    }

    /** How many objects of a returned chain the pool has room for. */
    function Room(n: nat): (k: nat)
      reads this
      ensures k <= n
    {
      RoomFor(cacheSize, size, n)
    }

    method FreeOne(curr: Node)
      requires Chain(nodes, head) && size == |nodes| && curr !in nodes
      modifies this`size, this`head, this`nodes, curr
      ensures Chain(nodes, head) && size == |nodes| && curr.cleaned == old(curr.cleaned) + 1
      ensures if old(size) < cacheSize then nodes == [curr] + old(nodes) && curr.alive == old(curr.alive)
              else nodes == old(nodes) && !curr.alive
    {
      curr.cleaned := curr.cleaned + 1;
      if size < cacheSize {
        curr.next := head;
        Pushed(nodes, head, curr);
        head := curr;
        size := size + 1;
        nodes := [curr] + nodes;
      } else {
        curr.alive := false;
      }
    }

    /**
     Each object of a chain of handed out ones is cleaned once, and then kept in front
     of the pool or, when that is full, destroyed.
     */
    method Free(obj: Node?, ghost chain: seq<Node>)
      requires Valid() && Chain(chain, obj)
      requires forall n :: n in chain ==> n in out
      modifies this, chain
      ensures Valid() && out == old(out) - Members(chain)
      ensures nodes == Reversed(chain[..old(Room(|chain|))]) + old(nodes)
      ensures forall i :: 0 <= i < |chain| ==> chain[i].cleaned == old(chain[i].cleaned) + 1
      ensures forall i :: 0 <= i < |chain| ==> (chain[i].alive <==> i < old(Room(|chain|)))
    {
      hide Chain, AllAlive, Reversed, RoomFor;
      ghost var was, room := nodes, Room(|chain|);
      FreeAll(obj, chain);
      out := out - Members(chain);
      StillApart(chain, room, was, out);
    }

    method FreeAll(obj: Node?, ghost chain: seq<Node>)
      requires Chain(nodes, head) && size == |nodes| && AllAlive(nodes) && Chain(chain, obj)
      requires forall n :: n in chain ==> n !in nodes && n.alive
      modifies this`size, this`head, this`nodes, chain
      ensures Chain(nodes, head) && size == |nodes| && AllAlive(nodes)
      ensures nodes == Reversed(chain[..old(Room(|chain|))]) + old(nodes)
      ensures forall i :: 0 <= i < |chain| ==> chain[i].cleaned == old(chain[i].cleaned) + 1
      ensures forall i :: 0 <= i < |chain| ==> (chain[i].alive <==> i < old(Room(|chain|)))
    {
      ghost var was, room, before := nodes, Room(|chain|), Cleaned(chain);
      Begin(chain, obj, room, before);
      hide Waiting, Returned, Pooled, Chain, Reversed, Least, Distinct, Room, RoomFor, Cleaned, AllAlive;
      ghost var k := 0;
      var curr := obj;
      while curr != null
        invariant k <= |chain| && curr == At(chain, k)
        invariant Waiting(chain, k, before) && Returned(chain, k, room, before) && Pooled(chain, k, room, was)
        decreases |chain| - k
      {
        curr := FreeNext(curr, chain, k, room, was, before);
        k := k + 1;
      }
      End(chain, room, was, before);
    }

    lemma Begin(chain: seq<Node>, obj: Node?, room: nat, before: seq<nat>)
      requires Chain(nodes, head) && size == |nodes| && Chain(chain, obj) && (forall n :: n in chain ==> n.alive)
      requires room == Room(|chain|) && before == Cleaned(chain)
      ensures Distinct(chain)
      ensures Waiting(chain, 0, before) && Returned(chain, 0, room, before) && Pooled(chain, 0, room, nodes)
    {
      ChainIsAcyclic(chain, obj);
      assert Reversed(chain[..0]) + nodes == nodes;
    }

    lemma End(chain: seq<Node>, room: nat, was: seq<Node>, before: seq<nat>)
      requires Returned(chain, |chain|, room, before) && Pooled(chain, |chain|, room, was)
      requires forall n :: n in was ==> n.alive
      ensures Chain(nodes, head) && size == |nodes| && AllAlive(nodes) && nodes == Reversed(chain[..room]) + was
      ensures forall i :: 0 <= i < |chain| ==> chain[i].cleaned == before[i] + 1 && (chain[i].alive <==> i < room)
    {
      Survivors(chain, was, room);
    }

    /** Objects 0 to k of the chain are dealt with, and the pool is what that makes of it. */
    ghost predicate Pooled(chain: seq<Node>, k: nat, room: nat, was: seq<Node>)
      reads this, nodes
    {
      && k <= |chain| && room == RoomFor(cacheSize, |was|, |chain|) && Least(k, room) <= |chain|
      && nodes == Reversed(chain[..Least(k, room)]) + was && Chain(nodes, head) && size == |nodes|
    }

    method FreeNext(
      curr: Node, ghost chain: seq<Node>, ghost k: nat, ghost room: nat, ghost was: seq<Node>, ghost before: seq<nat>)
      returns (next: Node?)
      requires k < |chain| && curr == chain[k] && Distinct(chain) && (forall n :: n in chain ==> n !in was)
      requires Waiting(chain, k, before) && Returned(chain, k, room, before) && Pooled(chain, k, room, was)
      modifies this`size, this`head, this`nodes, curr
      ensures Waiting(chain, k + 1, before) && Returned(chain, k + 1, room, before) && Pooled(chain, k + 1, room, was)
      ensures next == At(chain, k + 1)
    {
      hide Reversed, Least;
      assert WaitsAt(chain, k, before);
      next := curr.next;
      NotPooled(chain, was, k, room);
      NextKept(chain, was, k, room);
      FreeOne(curr);
      forall i: nat | k + 1 <= i < |chain| ensures WaitsAt(chain, i, before) {
        assert chain[i] != curr && old(WaitsAt(chain, i, before));
      }
    }

    /** Destroys every object of the pool, once. */
    method ClearPool()
      requires Valid()
      modifies this, nodes
      ensures Valid() && nodes == [] && forall n :: n in old(nodes) ==> !n.alive
    {
      ChainIsAcyclic(nodes, head);
      ghost var k := 0;
      var curr := head;
      while curr != null
        modifies nodes
        invariant k <= |nodes| && curr == At(nodes, k)
        invariant forall i {:trigger nodes[i].next} :: k <= i < |nodes| ==> nodes[i].next == At(nodes, i + 1)
        invariant forall i :: 0 <= i < k ==> !nodes[i].alive
        decreases |nodes| - k
      {
        assert curr == nodes[k];
        var next := curr.next;
        curr.alive := false;
        k := k + 1;
        curr := next;
      }
      head, size := null, 0;
      nodes := [];
    }
  }

  ghost function Cleaned(chain: seq<Node>): (c: seq<nat>)
    reads chain
    ensures |c| == |chain| && forall i :: 0 <= i < |chain| ==> c[i] == chain[i].cleaned
  {
    seq(|chain|, i requires 0 <= i < |chain| reads chain => chain[i].cleaned)
  }

  /** Object i of the chain is as it was. */
  ghost predicate WaitsAt(chain: seq<Node>, i: nat, before: seq<nat>)
    requires i < |chain| == |before|
    reads chain
  {
    chain[i].next == At(chain, i + 1) && chain[i].alive && chain[i].cleaned == before[i]
  }

  ghost predicate Waiting(chain: seq<Node>, k: nat, before: seq<nat>)
    reads chain
  {
    |before| == |chain| && forall i: nat :: k <= i < |chain| ==> WaitsAt(chain, i, before)
  }

  /** Objects of the chain before k are cleaned once more, and alive exactly when the pool had room for them. */
  ghost predicate Returned(chain: seq<Node>, k: nat, room: nat, before: seq<nat>)
    reads chain
  {
    |before| == |chain| && forall i :: 0 <= i < k && i < |chain| ==>
      chain[i].cleaned == before[i] + 1 && (chain[i].alive <==> i < room)
  }

  function RoomFor(cacheSize: nat, size: nat, n: nat): (k: nat)
    ensures k <= n
  {
    if size >= cacheSize then 0 else if n <= cacheSize - size then n else cacheSize - size
  }

  function Least(a: nat, b: nat): nat {
    if a < b then a else b
  }

  lemma NotPooled(chain: seq<Node>, was: seq<Node>, k: nat, room: nat)
    requires Distinct(chain) && k < |chain| && forall n :: n in chain ==> n !in was
    ensures chain[k] !in Reversed(chain[..Least(k, room)]) + was
  {
    ReversedHas(chain[..Least(k, room)], chain[k]);
  }

  function Members(chain: seq<Node>): set<Node> {
    set n | n in chain
  }

  lemma StillApart(chain: seq<Node>, room: nat, was: seq<Node>, out: set<Node>)
    requires room <= |chain| && Apart(was, out) && out !! Members(chain)
    ensures Apart(Reversed(chain[..room]) + was, out)
  {
    forall n | n in out ensures n !in Reversed(chain[..room]) {
      ReversedHas(chain[..room], n);
    }
  }

  lemma NextKept(chain: seq<Node>, was: seq<Node>, k: nat, room: nat)
    requires k < |chain|
    ensures k < room ==> Reversed(chain[..k + 1]) + was == [chain[k]] + (Reversed(chain[..k]) + was)
    ensures Least(k + 1, room) == if k < room then k + 1 else Least(k, room)
    ensures Least(k, room) == if k < room then k else room
    ensures Least(k, room) <= |chain|
  {
    assert chain[..k + 1][..k] == chain[..k];
  }

  lemma Survivors(chain: seq<Node>, was: seq<Node>, room: nat)
    requires room <= |chain| && (forall n :: n in was ==> n.alive) && forall i :: 0 <= i < room ==> chain[i].alive
    ensures AllAlive(Reversed(chain[..room]) + was)
  {
    forall n | n in Reversed(chain[..room]) ensures n.alive {
      ReversedHas(chain[..room], n);
    }
  }

  lemma Pushed(s: seq<Node>, head: Node?, n: Node)
    requires Chain(s, head) && n !in s && n.next == head
    ensures Chain([n] + s, n)
  {
    var t := [n] + s;
    forall i {:trigger t[i].next} | 0 <= i < |t| ensures t[i].next == At(t, i + 1) {
      if i > 0 {
        assert t[i] == s[i - 1];
      }
    }
  }

  lemma Rest(s: seq<Node>, head: Node)
    requires Chain(s, head) && Distinct(s)
    ensures s != [] && Chain(s[1..], head.next) && head !in s[1..]
  {
    var t := s[1..];
    forall i {:trigger t[i].next} | 0 <= i < |t| ensures t[i].next == At(t, i + 1) {
      assert t[i] == s[i + 1] && s[i + 1].next == At(s, i + 2);
    }
  }

  lemma Linked(before: seq<Node>, obj: Node, head: Node?)
    requires Distinct(before) && obj !in before && obj.next == null
    requires head == (if before == [] then obj else before[0])
    requires forall i :: 0 <= i < |before| - 1 ==> before[i].next == At(before, i + 1)
    requires before != [] ==> before[|before| - 1].next == obj
    ensures Chain(before + [obj], head)
  {
    var s := before + [obj];
    forall i {:trigger s[i].next} | 0 <= i < |s| ensures s[i].next == At(s, i + 1) {
    }
  }
}
