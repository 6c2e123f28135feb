/**
 The cross-thread pack queue of the nonblocking actor, as a step system.

 Each producer owns a deque of packs and pushes their addresses into one FIFO.
 The consumer handles packs in place, and publishes for each producer the index
 of the last pack it handled; the producer frees its packs up to that index the
 next time it pushes. Every step below may interleave with every other.
 */
module PackQueues {
  import opened Ids

  /** A pack as it lies in memory: its producer, its number within the producer, and what it carries. */
  datatype Pack = Pack(queue: nat, index: nat, payload: int)

  /** Where a producer is inside a push; `left` packs are still to be freed. */
  datatype Phase = Idle | Popping(left: nat) | Ready

  /** One producer's deque of addresses, its counters, and the index the consumer published for it. */
  datatype Queue = Queue(que: seq<nat>, indexBase: nat, head: nat, tail: Option<nat>, phase: Phase) {
    /** The number of the oldest pack in the deque. */
    function First(): int {
      indexBase - |que|
    }
  }

  /** Where the consumer is: draining the FIFO, perhaps inside a handler, or publishing what it handled. */
  datatype Consumer = Resting | Moving(handling: Option<nat>) | Releasing(next: nat)

  /**
   `mem` holds the packs that are allocated: a dangling address is one outside
   it. `pushed` and `handed` record, for each producer, what entered its queue
   and what was passed to the handler.
   */
  datatype State = State(
    mem: map<nat, Pack>, queues: seq<Queue>, fifo: seq<nat>,
    consumer: Consumer, gc: seq<Option<nat>>,
    pushed: seq<seq<int>>, handed: seq<seq<int>>)

  datatype Step =
    | Load(q: nat) | PopFront(q: nat) | FixHead(q: nat) | Push(q: nat, payload: int, addr: nat)
    | Begin | Take | Finish | Abort | Drain | Release | End

  /** Control flow allows the step. */
  ghost predicate Enabled(s: State, st: Step) {
    match st
    case Load(q) => q < |s.queues| && s.queues[q].phase.Idle?
    case PopFront(q) => q < |s.queues| && s.queues[q].phase.Popping? && s.queues[q].phase.left > 0
    case FixHead(q) => q < |s.queues| && s.queues[q].phase == Popping(0)
    case Push(q, _, addr) => q < |s.queues| && s.queues[q].phase.Ready? && addr !in s.mem
    case Begin => s.consumer.Resting?
    case Take => s.consumer == Moving(None) && s.fifo != []
    case Finish => s.consumer.Moving? && s.consumer.handling.Some?
    case Abort => s.consumer.Moving? && s.consumer.handling.Some?
    case Drain => s.consumer == Moving(None) && s.fifo == []
    case Release => s.consumer.Releasing? && s.consumer.next < |s.queues|
    case End => s.consumer == Releasing(|s.queues|)
  }

  /** The step reads only live packs, frees only from a nonempty deque, and passes its assertions. */
  ghost predicate Safe(s: State, st: Step) {
    match st
    case Load(q) =>
      q < |s.queues|
      && var c := s.queues[q];
         c.tail.Some? && c.tail.value >= c.head ==> |c.que| >= c.tail.value - c.head + 1
    case PopFront(q) => q < |s.queues| && s.queues[q].que != []
    case FixHead(q) => q < |s.queues| && (s.queues[q].que != [] ==> s.queues[q].que[0] in s.mem)
    case Push(q, _, _) => q < |s.queues| == |s.pushed|
    case Take => s.fifo != [] && s.fifo[0] in s.mem && s.mem[s.fifo[0]].queue < |s.gc| == |s.handed|
    case Finish => s.consumer.Moving? && s.consumer.handling.Some? && s.consumer.handling.value in s.mem
    case Abort => s.consumer.Moving? && s.consumer.handling.Some? && s.consumer.handling.value in s.mem
    case Release =>
      s.consumer.Releasing? && s.consumer.next < |s.gc| == |s.queues|
      && (s.gc[s.consumer.next].Some? ==> s.gc[s.consumer.next].value in s.mem)
    case Begin => true
    case Drain => true
    case End => true
  }

  function Loaded(c: Queue): Queue {
    if c.tail.Some? && c.tail.value >= c.head then c.(phase := Popping(c.tail.value - c.head + 1))
    else c.(phase := Ready)
  }

  function Popped(c: Queue): Queue
    requires c.que != [] && c.phase.Popping? && c.phase.left > 0
  {
    c.(que := c.que[1..], phase := Popping(c.phase.left - 1))
  }

  function Headed(c: Queue, mem: map<nat, Pack>): Queue
    requires c.que != [] ==> c.que[0] in mem
  {
    c.(head := if c.que == [] then c.indexBase else mem[c.que[0]].index, phase := Ready)
  }

  function Extended(c: Queue, addr: nat): Queue {
    c.(que := c.que + [addr], indexBase := c.indexBase + 1, phase := Idle)
  }

  ghost function Apply(s: State, st: Step): State
    requires Enabled(s, st) && Safe(s, st)
  {
    match st
    case Load(q) => s.(queues := s.queues[q := Loaded(s.queues[q])])
    case PopFront(q) =>
      s.(mem := s.mem - {s.queues[q].que[0]}, queues := s.queues[q := Popped(s.queues[q])])
    case FixHead(q) => s.(queues := s.queues[q := Headed(s.queues[q], s.mem)])
    case Push(q, payload, addr) =>
      s.(mem := s.mem[addr := Pack(q, s.queues[q].indexBase, payload)],
         queues := s.queues[q := Extended(s.queues[q], addr)],
         fifo := s.fifo + [addr],
         pushed := s.pushed[q := s.pushed[q] + [payload]])
    case Begin => s.(gc := seq(|s.queues|, _ => None), consumer := Moving(None))
    case Take =>
      var a := s.fifo[0];
      var p := s.mem[a];
      s.(fifo := s.fifo[1..], gc := s.gc[p.queue := Some(a)], consumer := Moving(Some(a)),
         handed := s.handed[p.queue := s.handed[p.queue] + [p.payload]])
    case Finish => s.(consumer := Moving(None))
    case Abort => s.(consumer := Releasing(0))
    case Drain => s.(consumer := Releasing(0))
    case Release =>
      var i := s.consumer.next;
      var published := if s.gc[i].Some? then Some(s.mem[s.gc[i].value].index) else s.queues[i].tail;
      s.(queues := s.queues[i := s.queues[i].(tail := published)], consumer := Releasing(i + 1))
    case End => s.(consumer := Resting)
  }

  function Init(n: nat): State {
    State(map[], seq(n, _ => Queue([], 0, 0, None, Idle)), [], Resting, [], seq(n, _ => []), seq(n, _ => []))
  }

  // ---------------------------------------------------------------- the invariant

  /** The addresses in the FIFO that belong to producer `q`, in order. */
  function Pending(fifo: seq<nat>, mem: map<nat, Pack>, q: nat): seq<nat> {
    if fifo == [] then []
    else
      var h := Pending(fifo[..|fifo| - 1], mem, q);
      var a := fifo[|fifo| - 1];
      if a in mem && mem[a].queue == q then h + [a] else h
  }

  /** The pack of producer `q` that the consumer holds and has not yet published. */
  function Held(s: State, q: nat): Option<nat> {
    if q < |s.gc| && (s.consumer.Moving? || (s.consumer.Releasing? && s.consumer.next <= q)) then s.gc[q] else None
  }

  /** Slot `j` of the deque holds pack number `First() + j` of producer `q`, alive, with the payload pushed then. */
  ghost predicate Stored(q: nat, c: Queue, mem: map<nat, Pack>, pushed: seq<int>) {
    && 0 <= c.First() && c.indexBase == |pushed|
    && forall j :: 0 <= j < |c.que| ==>
         c.que[j] in mem && mem[c.que[j]] == Pack(q, c.First() + j, pushed[c.First() + j])
  }

  /** Only published packs have been freed or are about to be, and only handled packs are published. */
  ghost predicate Published(c: Queue, handed: nat) {
    && (c.tail.None? ==> c.First() == 0)
    && (c.tail.Some? ==> c.First() <= c.tail.value + 1 <= handed)
    && (c.phase.Popping? ==> c.tail.Some? && c.First() + c.phase.left <= c.tail.value + 1)
    && (!c.phase.Popping? ==> c.head == c.First())
  }

  /** What is published is the number of the last pack handed over. */
  ghost predicate UpToDate(c: Queue, handed: nat) {
    c.tail == if handed == 0 then None else Some(handed - 1)
  }

  /**
   What was handed over is a prefix of what was pushed, the rest of the deque is
   exactly what the FIFO still holds for `q`, and a held pack is the last one
   handed over, above everything published. Without one, all is published.
   */
  ghost predicate QueueOk(
    q: nat, c: Queue, mem: map<nat, Pack>, pend: seq<nat>, held: Option<nat>,
    pushed: seq<int>, handed: seq<int>)
  {
    var h := |handed|;
    && Stored(q, c, mem, pushed)
    && Published(c, h)
    && h <= |pushed| && handed == pushed[..h]
    && pend == c.que[h - c.First()..]
    && (held.Some? ==> h > 0 && 0 <= h - 1 - c.First() && held.value == c.que[h - 1 - c.First()]
                       && (c.tail.Some? ==> c.tail.value < h - 1))
    && (held.None? ==> UpToDate(c, h))
  }

  /** Every live pack is in the slot of the deque that its numbers name. */
  ghost predicate Owned(a: nat, mem: map<nat, Pack>, queues: seq<Queue>) {
    a in mem
    && var p := mem[a];
       p.queue < |queues| && var c := queues[p.queue];
                             0 <= p.index - c.First() < |c.que| && c.que[p.index - c.First()] == a
  }

  ghost predicate Ok(s: State, q: nat) {
    && q < |s.queues| == |s.pushed| == |s.handed|
    && QueueOk(q, s.queues[q], s.mem, Pending(s.fifo, s.mem, q), Held(s, q), s.pushed[q], s.handed[q])
  }

  /** The pack being handled is the one the consumer holds for its producer. */
  ghost predicate HandlingOk(s: State) {
    s.consumer.Moving? && s.consumer.handling.Some? ==>
      var a := s.consumer.handling.value;
      a in s.mem && s.mem[a].queue < |s.gc| && s.gc[s.mem[a].queue] == Some(a)
  }

  ghost predicate Inv(s: State) {
    && |s.pushed| == |s.queues| && |s.handed| == |s.queues|
    && (!s.consumer.Resting? ==> |s.gc| == |s.queues|)
    && (s.consumer.Releasing? ==> s.consumer.next <= |s.queues|)
    && (forall q: nat :: q < |s.queues| ==> Ok(s, q))
    && (forall a :: a in s.mem ==> Owned(a, s.mem, s.queues))
    && (forall a :: a in s.fifo ==> a in s.mem)
    && HandlingOk(s)
  }

  lemma {:induction false} PendingFrame(fifo: seq<nat>, mem: map<nat, Pack>, mem': map<nat, Pack>, q: nat)
    requires forall a :: a in fifo ==> a in mem && a in mem' && mem[a] == mem'[a]
    ensures Pending(fifo, mem, q) == Pending(fifo, mem', q)
  {
    if fifo != [] {
      PendingFrame(fifo[..|fifo| - 1], mem, mem', q);
    }
  }

  lemma {:induction false} PendingHead(fifo: seq<nat>, mem: map<nat, Pack>, q: nat)
    requires fifo != [] && fifo[0] in mem
    ensures Pending(fifo, mem, q) ==
            if mem[fifo[0]].queue == q then [fifo[0]] + Pending(fifo[1..], mem, q) else Pending(fifo[1..], mem, q)
  {
    if |fifo| > 1 {
      var h := fifo[..|fifo| - 1];
      PendingHead(h, mem, q);
      assert fifo[1..][..|fifo| - 2] == h[1..];
    } else {
      assert fifo[..0] == [] && fifo[1..] == [];
    }
  }

  lemma {:induction false} PendingMember(fifo: seq<nat>, mem: map<nat, Pack>, a: nat)
    requires a in fifo && a in mem
    ensures a in Pending(fifo, mem, mem[a].queue)
  {
    if fifo[|fifo| - 1] != a {
      assert fifo == fifo[..|fifo| - 1] + [fifo[|fifo| - 1]];
      PendingMember(fifo[..|fifo| - 1], mem, a);
    }
  }

  lemma InitInv(n: nat)
    ensures Inv(Init(n))
  {
  }

  // ---------------------------------------------------------------- every step keeps it

  /** A producer whose deque, records and FIFO share are untouched stays in order. */
  lemma Untouched(s: State, s': State, p: nat)
    requires Ok(s, p) && p < |s'.queues| == |s'.pushed| == |s'.handed|
    requires s'.queues[p] == s.queues[p] && s'.pushed[p] == s.pushed[p] && s'.handed[p] == s.handed[p]
    requires Held(s', p) == Held(s, p)
    requires Pending(s'.fifo, s'.mem, p) == Pending(s.fifo, s.mem, p)
    requires forall j :: 0 <= j < |s.queues[p].que| && s.queues[p].que[j] in s.mem ==>
               s.queues[p].que[j] in s'.mem && s'.mem[s.queues[p].que[j]] == s.mem[s.queues[p].que[j]]
    ensures Ok(s', p)
  {
  }

  /** A producer's private bookkeeping changes nothing that others see. */
  lemma LocalInv(s: State, q: nat, c: Queue)
    requires Inv(s) && q < |s.queues|
    requires c.que == s.queues[q].que && c.indexBase == s.queues[q].indexBase && c.tail == s.queues[q].tail
    requires Published(c, |s.handed[q]|)
    ensures Inv(s.(queues := s.queues[q := c]))
  {
    hide QueueOk;
    var s' := s.(queues := s.queues[q := c]);
    forall p: nat | p < |s'.queues| ensures Ok(s', p) {
      assert Ok(s, p);
      if p != q {
        Untouched(s, s', p);
      } else {
        BookkeepingOk(q, s.queues[q], c, s.mem, Pending(s.fifo, s.mem, q), Held(s, q), s.pushed[q], s.handed[q]);
      }
    }
    SameOwners(s, s');
  }

  lemma BookkeepingOk(
    q: nat, c: Queue, c': Queue, mem: map<nat, Pack>, pend: seq<nat>, held: Option<nat>, pushed: seq<int>,
    handed: seq<int>)
    requires QueueOk(q, c, mem, pend, held, pushed, handed)
    requires c'.que == c.que && c'.indexBase == c.indexBase && c'.tail == c.tail && Published(c', |handed|)
    ensures QueueOk(q, c', mem, pend, held, pushed, handed)
  {
    hide Published, Stored;
    StoredSame(q, c, c', mem, pushed);
    assert c'.First() == c.First();
  }

  lemma LoadInv(s: State, q: nat)
    requires Inv(s) && Enabled(s, Load(q)) && Safe(s, Load(q))
    ensures Inv(Apply(s, Load(q)))
  {
    assert Ok(s, q);
    LocalInv(s, q, Loaded(s.queues[q]));
  }

  lemma FixHeadInv(s: State, q: nat)
    requires Inv(s) && Enabled(s, FixHead(q)) && Safe(s, FixHead(q))
    ensures Inv(Apply(s, FixHead(q)))
  {
    hide QueueOk;
    assert Ok(s, q);
    HeadedOk(q, s.queues[q], s.mem, Pending(s.fifo, s.mem, q), Held(s, q), s.pushed[q], s.handed[q]);
    LocalInv(s, q, Headed(s.queues[q], s.mem));
  }

  lemma HeadedOk(
    q: nat, c: Queue, mem: map<nat, Pack>, pend: seq<nat>, held: Option<nat>, pushed: seq<int>, handed: seq<int>)
    requires QueueOk(q, c, mem, pend, held, pushed, handed)
    ensures (c.que != [] ==> c.que[0] in mem) && Published(Headed(c, mem), |handed|)
  {
    if c.que != [] {
      assert mem[c.que[0]].index == c.First();
    }
  }

  lemma SameOwners(s: State, s': State)
    requires Inv(s) && s'.mem == s.mem && |s'.queues| == |s.queues|
    requires forall p :: 0 <= p < |s.queues| ==>
               s'.queues[p].que == s.queues[p].que && s'.queues[p].indexBase == s.queues[p].indexBase
    ensures forall a :: a in s'.mem ==> Owned(a, s'.mem, s'.queues)
  {
    forall a | a in s'.mem ensures Owned(a, s'.mem, s'.queues) {
      assert Owned(a, s.mem, s.queues);
    }
  }

  /** A pack about to be freed is no longer in the FIFO, held or being handled. */
  lemma FreedUnreachable(s: State, q: nat)
    requires Inv(s) && q < |s.queues| && s.queues[q].phase.Popping? && s.queues[q].phase.left > 0
    requires s.queues[q].que != []
    ensures var a := s.queues[q].que[0];
            && a in s.mem && s.mem[a].queue == q && a !in s.fifo
            && (forall p :: Held(s, p) != Some(a))
            && (s.consumer.Moving? ==> s.consumer.handling != Some(a))
  {
    var c := s.queues[q];
    var a := c.que[0];
    assert Ok(s, q);
    assert s.mem[a] == Pack(q, c.First(), s.pushed[q][c.First()]);
    if a in s.fifo {
      PendingMember(s.fifo, s.mem, a);
      assert false;
    }
    forall p: nat ensures Held(s, p) != Some(a) {
      if p < |s.queues| { assert Ok(s, p); }
    }
  }

  lemma PopFrontInv(s: State, q: nat)
    requires Inv(s) && Enabled(s, PopFront(q)) && Safe(s, PopFront(q))
    ensures Inv(Apply(s, PopFront(q)))
  {
    hide QueueOk;
    var s' := Apply(s, PopFront(q));
    var a := s.queues[q].que[0];
    FreedUnreachable(s, q);
    forall p: nat | p < |s'.queues| ensures Ok(s', p) {
      assert Ok(s, p);
      PendingFrame(s.fifo, s.mem, s'.mem, p);
      if p == q {
        PoppedOk(q, s.queues[q], s.mem, Pending(s.fifo, s.mem, q), Held(s, q), s.pushed[q], s.handed[q]);
      } else {
        OwnAddresses(s, p);
        Untouched(s, s', p);
      }
    }
    PoppedOwners(s, q);
  }

  lemma OwnAddresses(s: State, p: nat)
    requires Ok(s, p)
    ensures forall j :: 0 <= j < |s.queues[p].que| ==>
            s.queues[p].que[j] in s.mem && s.mem[s.queues[p].que[j]].queue == p
  {
  }

  lemma PoppedOk(
    q: nat, c: Queue, mem: map<nat, Pack>, pend: seq<nat>, held: Option<nat>, pushed: seq<int>, handed: seq<int>)
    requires QueueOk(q, c, mem, pend, held, pushed, handed)
    requires c.que != [] && c.phase.Popping? && c.phase.left > 0
    ensures QueueOk(q, Popped(c), mem - {c.que[0]}, pend, held, pushed, handed)
  {
    hide Stored;
    PoppedStored(q, c, mem, pushed);
    StoredSize(q, c, mem, pushed);
    var c', h := Popped(c), |handed|;
    assert c'.First() == c.First() + 1;
    assert c.que[1..][h - c'.First()..] == c.que[h - c.First()..];
    assert held.Some? ==> c'.que[h - 1 - c'.First()] == c.que[h - 1 - c.First()];
  }

  lemma PoppedStored(q: nat, c: Queue, mem: map<nat, Pack>, pushed: seq<int>)
    requires Stored(q, c, mem, pushed) && c.que != [] && c.phase.Popping? && c.phase.left > 0
    ensures Stored(q, Popped(c), mem - {c.que[0]}, pushed)
  {
    var c', mem' := Popped(c), mem - {c.que[0]};
    forall j | 0 <= j < |c'.que|
      ensures c'.que[j] in mem' && mem'[c'.que[j]] == Pack(q, c'.First() + j, pushed[c'.First() + j])
    {
      assert c'.que[j] == c.que[j + 1];
      assert mem[c.que[0]].index != mem[c.que[j + 1]].index;
    }
  }

  lemma PoppedOwners(s: State, q: nat)
    requires Inv(s) && Enabled(s, PopFront(q)) && Safe(s, PopFront(q))
    ensures var s' := Apply(s, PopFront(q)); forall b :: b in s'.mem ==> Owned(b, s'.mem, s'.queues)
  {
    var s' := Apply(s, PopFront(q));
    forall b | b in s'.mem ensures Owned(b, s'.mem, s'.queues) {
      assert Owned(b, s.mem, s.queues);
    }
  }

  lemma PushInv(s: State, q: nat, payload: int, addr: nat)
    requires Inv(s) && Enabled(s, Push(q, payload, addr)) && Safe(s, Push(q, payload, addr))
    ensures Inv(Apply(s, Push(q, payload, addr)))
  {
    hide QueueOk;
    var s' := Apply(s, Push(q, payload, addr));
    assert s'.fifo[..|s.fifo|] == s.fifo;
    assert addr !in s.fifo;
    forall p: nat | p < |s'.queues| ensures Ok(s', p) {
      assert Ok(s, p);
      PendingFrame(s.fifo, s.mem, s'.mem, p);
      if p == q {
        PushedOk(q, s.queues[q], s.mem, Pending(s.fifo, s.mem, q), Held(s, q), s.pushed[q], s.handed[q], payload, addr);
      } else {
        Untouched(s, s', p);
      }
    }
    PushedOwners(s, q, payload, addr);
  }

  lemma PushedOwners(s: State, q: nat, payload: int, addr: nat)
    requires Inv(s) && Enabled(s, Push(q, payload, addr)) && Safe(s, Push(q, payload, addr))
    ensures var s' := Apply(s, Push(q, payload, addr)); forall b :: b in s'.mem ==> Owned(b, s'.mem, s'.queues)
  {
    hide QueueOk;
    var s' := Apply(s, Push(q, payload, addr));
    assert s.queues[q].First() >= 0 by { assert Ok(s, q); StoredFirst(s, q); }
    forall b | b in s'.mem ensures Owned(b, s'.mem, s'.queues) {
      if b != addr { assert Owned(b, s.mem, s.queues); }
    }
  }

  lemma StoredFirst(s: State, q: nat)
    requires Ok(s, q)
    ensures 0 <= s.queues[q].First()
  {
  }

  lemma PushedOk(
    q: nat, c: Queue, mem: map<nat, Pack>, pend: seq<nat>, held: Option<nat>, pushed: seq<int>, handed: seq<int>,
    payload: int, addr: nat)
    requires QueueOk(q, c, mem, pend, held, pushed, handed) && !c.phase.Popping? && addr !in mem
    ensures QueueOk(q, Extended(c, addr), mem[addr := Pack(q, c.indexBase, payload)], pend + [addr], held,
                    pushed + [payload], handed)
  {
    hide Stored;
    PushedStored(q, c, mem, pushed, payload, addr);
    var k := |handed| - c.First();
    StoredSize(q, c, mem, pushed);
    assert Extended(c, addr).First() == c.First();
    assert (pushed + [payload])[..|handed|] == pushed[..|handed|];
    assert (c.que + [addr])[k..] == c.que[k..] + [addr];
  }

  lemma StoredSame(q: nat, c: Queue, c': Queue, mem: map<nat, Pack>, pushed: seq<int>)
    requires Stored(q, c, mem, pushed) && c'.que == c.que && c'.indexBase == c.indexBase
    ensures Stored(q, c', mem, pushed)
  {
  }

  lemma StoredSize(q: nat, c: Queue, mem: map<nat, Pack>, pushed: seq<int>)
    requires Stored(q, c, mem, pushed)
    ensures c.indexBase == |pushed| && 0 <= c.First()
  {
  }

  lemma PushedStored(q: nat, c: Queue, mem: map<nat, Pack>, pushed: seq<int>, payload: int, addr: nat)
    requires Stored(q, c, mem, pushed) && addr !in mem
    ensures Stored(q, Extended(c, addr), mem[addr := Pack(q, c.indexBase, payload)], pushed + [payload])
  {
    var c', mem', pushed' := Extended(c, addr), mem[addr := Pack(q, c.indexBase, payload)], pushed + [payload];
    forall j | 0 <= j < |c'.que|
      ensures c'.que[j] in mem' && mem'[c'.que[j]] == Pack(q, c'.First() + j, pushed'[c'.First() + j])
    {
      if j < |c.que| { assert c.que[j] in mem; }
    }
  }

  lemma BeginInv(s: State)
    requires Inv(s) && Enabled(s, Begin)
    ensures Inv(Apply(s, Begin))
  {
    forall p: nat | p < |s.queues| ensures Ok(Apply(s, Begin), p) {
      assert Ok(s, p);
      Untouched(s, Apply(s, Begin), p);
    }
  }

  lemma TakeInv(s: State)
    requires Inv(s) && Enabled(s, Take) && Safe(s, Take)
    ensures Inv(Apply(s, Take))
  {
    hide QueueOk;
    var s' := Apply(s, Take);
    var a := s.fifo[0];
    var q := s.mem[a].queue;
    assert Owned(a, s.mem, s.queues);
    forall p: nat | p < |s'.queues| ensures Ok(s', p) {
      assert Ok(s, p);
      PendingHead(s.fifo, s.mem, p);
      if p == q {
        TakenOk(q, s.queues[q], s.mem, a, Pending(s'.fifo, s.mem, q), Held(s, q), s.pushed[q], s.handed[q]);
      } else {
        Untouched(s, s', p);
      }
    }
    SameOwners(s, s');
  }

  lemma TakenOk(
    q: nat, c: Queue, mem: map<nat, Pack>, a: nat, rest: seq<nat>, held: Option<nat>, pushed: seq<int>,
    handed: seq<int>)
    requires QueueOk(q, c, mem, [a] + rest, held, pushed, handed) && a in mem
    ensures QueueOk(q, c, mem, rest, Some(a), pushed, handed + [mem[a].payload])
  {
    hide Stored;
    var h, pend := |handed|, [a] + rest;
    var k := h - c.First();
    StoredSize(q, c, mem, pushed);
    assert pend[0] == a && pend[1..] == rest;
    assert c.que[k..][0] == c.que[k] && c.que[k..][1..] == c.que[k + 1..];
    StoredAt(q, c, mem, pushed, k);
    assert pushed[..h + 1] == pushed[..h] + [pushed[h]];
  }

  lemma StoredAt(q: nat, c: Queue, mem: map<nat, Pack>, pushed: seq<int>, j: nat)
    requires Stored(q, c, mem, pushed) && j < |c.que|
    ensures c.que[j] in mem && mem[c.que[j]] == Pack(q, c.First() + j, pushed[c.First() + j])
  {
  }

  lemma ReleaseInv(s: State)
    requires Inv(s) && Enabled(s, Release) && Safe(s, Release)
    ensures Inv(Apply(s, Release))
  {
    hide QueueOk;
    var s' := Apply(s, Release);
    forall p: nat | p < |s'.queues| ensures Ok(s', p) {
      assert Ok(s, p);
      if p != s.consumer.next {
        Untouched(s, s', p);
      } else {
        ReleasedOk(p, s.queues[p], s.mem, Pending(s.fifo, s.mem, p), s.gc[p], s.pushed[p], s.handed[p]);
      }
    }
    SameOwners(s, s');
  }

  lemma ReleasedOk(
    q: nat, c: Queue, mem: map<nat, Pack>, pend: seq<nat>, held: Option<nat>, pushed: seq<int>, handed: seq<int>)
    requires QueueOk(q, c, mem, pend, held, pushed, handed) && (held.Some? ==> held.value in mem)
    ensures var c' := if held.Some? then c.(tail := Some(mem[held.value].index)) else c;
            QueueOk(q, c', mem, pend, None, pushed, handed)
  {
    hide Stored;
    StoredSize(q, c, mem, pushed);
    if held.Some? {
      StoredAt(q, c, mem, pushed, |handed| - 1 - c.First());
      StoredSame(q, c, c.(tail := Some(mem[held.value].index)), mem, pushed);
    }
  }

  /** The consumer's other steps change only its own control state. */
  lemma ConsumerInv(s: State, to: Consumer)
    requires Inv(s)
    requires if to.Resting? then s.consumer == Releasing(|s.queues|)
             else s.consumer.Moving? && (to == Moving(None) || to == Releasing(0))
    ensures Inv(s.(consumer := to))
  {
    forall p: nat | p < |s.queues| ensures Ok(s.(consumer := to), p) {
      assert Ok(s, p);
      Untouched(s, s.(consumer := to), p);
    }
  }

  /** In every state that satisfies the invariant, every step that control flow allows is safe. */
  lemma StepSafe(s: State, st: Step)
    requires Inv(s) && Enabled(s, st)
    ensures Safe(s, st)
  {
    match st {
      case Load(q) => assert Ok(s, q);
      case PopFront(q) => assert Ok(s, q);
      case FixHead(q) => assert Ok(s, q);
      case Take =>
        assert s.fifo[0] in s.fifo;
        assert Owned(s.fifo[0], s.mem, s.queues);
      case Release => assert Ok(s, s.consumer.next);
      case _ =>
    }
  }

  /** Nothing that can still be reached is ever freed, and no pack is handled twice, skipped or reordered. */
  lemma StepInv(s: State, st: Step)
    requires Inv(s) && Enabled(s, st) && Safe(s, st)
    ensures Inv(Apply(s, st))
  {
    match st {
      case Load(q) => LoadInv(s, q);
      case PopFront(q) => PopFrontInv(s, q);
      case FixHead(q) => FixHeadInv(s, q);
      case Push(q, payload, addr) => PushInv(s, q, payload, addr);
      case Begin => BeginInv(s);
      case Take => TakeInv(s);
      case Release => ReleaseInv(s);
      case Finish => ConsumerInv(s, Moving(None));
      case Abort => ConsumerInv(s, Releasing(0));
      case Drain => ConsumerInv(s, Releasing(0));
      case End => ConsumerInv(s, Resting);
    }
  }

  // ---------------------------------------------------------------- whole runs

  /** A run of `n` producers: every step is one that control flow allows where it is taken. */
  ghost predicate RunFrom(s: State, steps: seq<Step>, end: State)
    decreases |steps|
  {
    if steps == [] then s == end
    else Enabled(s, steps[0]) && Safe(s, steps[0]) && RunFrom(Apply(s, steps[0]), steps[1..], end)
  }

  lemma {:induction false} RunInv(s: State, steps: seq<Step>, end: State)
    requires Inv(s) && RunFrom(s, steps, end)
    ensures Inv(end)
    decreases |steps|
  {
    if steps != [] {
      StepInv(s, steps[0]);
      RunInv(Apply(s, steps[0]), steps[1..], end);
    }
  }

  /** No run, however its steps interleave, can get to an unsafe step. */
  lemma NoRunIsUnsafe(n: nat, steps: seq<Step>, end: State, next: Step)
    requires RunFrom(Init(n), steps, end) && Enabled(end, next)
    ensures Safe(end, next)
  {
    InitInv(n);
    RunInv(Init(n), steps, end);
    StepSafe(end, next);
  }

  function Payloads(addrs: seq<nat>, mem: map<nat, Pack>): seq<int>
    requires forall a :: a in addrs ==> a in mem
  {
    seq(|addrs|, i requires 0 <= i < |addrs| => mem[addrs[i]].payload)
  }

  /**
   After any run, what each producer's handler saw, then what is pending for it, is
   everything it pushed, in order.
   */
  lemma ExactlyOnceInOrder(n: nat, steps: seq<Step>, end: State, q: nat)
    requires RunFrom(Init(n), steps, end) && q < n
    ensures |end.queues| == |end.handed| == |end.pushed| == n
    ensures var pend := Pending(end.fifo, end.mem, q);
            && (forall a :: a in pend ==> a in end.mem)
            && end.handed[q] + Payloads(pend, end.mem) == end.pushed[q]
  {
    InitInv(n);
    RunInv(Init(n), steps, end);
    RunKeepsSize(Init(n), steps, end);
    assert Ok(end, q);
    PendingPayloads(q, end.queues[q], end.mem, Pending(end.fifo, end.mem, q), Held(end, q), end.pushed[q],
      end.handed[q]);
  }

  lemma PendingPayloads(
    q: nat, c: Queue, mem: map<nat, Pack>, pend: seq<nat>, held: Option<nat>, pushed: seq<int>, handed: seq<int>)
    requires QueueOk(q, c, mem, pend, held, pushed, handed)
    ensures (forall a :: a in pend ==> a in mem) && handed + Payloads(pend, mem) == pushed
  {
    hide Stored;
    StoredSize(q, c, mem, pushed);
    forall i | 0 <= i < |pend| ensures pend[i] in mem && mem[pend[i]].payload == pushed[|handed| + i] {
      StoredAt(q, c, mem, pushed, |handed| - c.First() + i);
    }
  }

  lemma {:induction false} RunKeepsSize(s: State, steps: seq<Step>, end: State)
    requires RunFrom(s, steps, end)
    ensures |end.queues| == |s.queues|
    decreases |steps|
  {
    if steps != [] { RunKeepsSize(Apply(s, steps[0]), steps[1..], end); }
  }

  /** Memory is bounded by what is unreclaimed: the live packs are exactly those in the deques. */
  lemma NothingLeaks(n: nat, steps: seq<Step>, end: State, a: nat)
    requires RunFrom(Init(n), steps, end)
    ensures a in end.mem <==>
            exists q, j :: 0 <= q < |end.queues| && 0 <= j < |end.queues[q].que| && end.queues[q].que[j] == a
  {
    InitInv(n);
    RunInv(Init(n), steps, end);
    if a in end.mem {
      assert Owned(a, end.mem, end.queues);
    }
    forall q, j | 0 <= q < |end.queues| && 0 <= j < |end.queues[q].que| && end.queues[q].que[j] == a
      ensures a in end.mem {
      assert Ok(end, q);
    }
  }

  /** What the next push of a producer leaves: nothing of what was handed over, once that is published. */
  lemma HandledIsReclaimable(s: State, q: nat)
    requires Inv(s) && q < |s.queues| && Held(s, q).None? && !s.queues[q].phase.Popping?
    ensures q < |s.pushed| == |s.handed| && |s.handed[q]| <= |s.pushed[q]|
    ensures Reclaimable(s.queues[q]) == |s.queues[q].que| - (|s.pushed[q]| - |s.handed[q]|)
  {
    assert Ok(s, q);
    hide Stored;
    StoredSize(q, s.queues[q], s.mem, s.pushed[q]);
  }

  /**
   Over any run, a producer whose handled packs are published frees all of them
   before its next push stores a pack, and none that is still to be handled.
   */
  lemma PublishedIsReclaimed(n: nat, steps: seq<Step>, end: State, q: nat)
    requires RunFrom(Init(n), steps, end) && q < n && q < |end.queues|
    requires Held(end, q).None? && !end.queues[q].phase.Popping?
    ensures |end.queues| == |end.handed| == |end.pushed| == n
    ensures Reclaimable(end.queues[q]) == |end.queues[q].que| - |Pending(end.fifo, end.mem, q)|
    ensures UpToDate(end.queues[q], |end.handed[q]|)
  {
    InitInv(n);
    RunInv(Init(n), steps, end);
    RunKeepsSize(Init(n), steps, end);
    ExactlyOnceInOrder(n, steps, end, q);
    HandledIsReclaimable(end, q);
    assert Ok(end, q);
  }

  // ---------------------------------------------------------------- the loops

  lemma {:induction false} RunSnoc(s: State, steps: seq<Step>, mid: State, st: Step)
    requires RunFrom(s, steps, mid) && Enabled(mid, st) && Safe(mid, st)
    ensures RunFrom(s, steps + [st], Apply(mid, st))
    decreases |steps|
  {
    if steps == [] {
      assert [st][1..] == [];
    } else {
      RunSnoc(Apply(s, steps[0]), steps[1..], mid, st);
      assert (steps + [st])[1..] == steps[1..] + [st];
    }
  }

  lemma {:induction false} Bound(keys: set<nat>) returns (b: nat)
    ensures forall k :: k in keys ==> k < b
  {
    b := 0;
    if keys != {} {
      var k :| k in keys;
      var c := Bound(keys - {k});
      b := if k < c then c else k + 1;
      forall x | x in keys ensures x < b {
        assert x == k || x in keys - {k};
      }
    }
  }

  /** How many packs a producer may free: those up to the published tail. */
  function Reclaimable(c: Queue): nat {
    if c.tail.Some? && c.tail.value >= c.head then c.tail.value - c.head + 1 else 0
  }

  class NonblockingActor {
    var mem: map<nat, Pack>
    var queues: seq<Queue>
    var packQueue: seq<nat>
    var gc: seq<Option<nat>>
    /** Where the consumer is, what went in and out, and the steps taken since `start`. */
    ghost var consumer: Consumer
    ghost var pushed: seq<seq<int>>
    ghost var handed: seq<seq<int>>
    ghost var start: State
    ghost var steps: seq<Step>

    ghost function View(): State
      reads this
    {
      State(mem, queues, packQueue, consumer, gc, pushed, handed)
    }

    ghost predicate Valid()
      reads this
    {
      Inv(View()) && Inv(start) && RunFrom(start, steps, View())
    }

    constructor (producers: nat)
      ensures Valid() && View() == start == Init(producers)
    {
      mem, packQueue, gc := map[], [], [];
      queues := seq(producers, _ => Queue([], 0, 0, None, Idle));
      consumer, pushed, handed := Resting, seq(producers, _ => []), seq(producers, _ => []);
      start, steps := Init(producers), [];
      new;
      InitInv(producers);
    }

    /** The fields have just made one atomic step, which the invariant shows to be safe. */
    ghost method Record(st: Step, from: State)
      requires Inv(start) && Inv(from) && RunFrom(start, steps, from) && Enabled(from, st) && Safe(from, st)
      requires View() == Apply(from, st)
      modifies this`steps
      ensures Valid() && steps == old(steps) + [st]
    {
      StepInv(from, st);
      RunSnoc(start, steps, from, st);
      steps := steps + [st];
    }

    /**
     A push: frees what the consumer has published, then stores the new pack and
     makes it visible. It is a run of the step system, so it may be cut anywhere
     by the steps of the consumer and of the other producers.
     */
    method OnRecv(q: nat, payload: int)
      requires Valid() && q < |queues| && queues[q].phase.Idle?
      modifies this
      ensures Valid() && start == old(start) && old(steps) <= steps
      ensures SameElsewhere(old(View()), View(), q)
      ensures q < |old(pushed)| && pushed == old(pushed)[q := old(pushed)[q] + [payload]]
      ensures var k := Reclaimable(old(queues)[q]);
              && k <= |old(queues)[q].que|
              && |queues[q].que| == |old(queues)[q].que| - k + 1
              && queues[q].que[..|queues[q].que| - 1] == old(queues)[q].que[k..]
              && packQueue == old(packQueue) + [queues[q].que[|queues[q].que| - 1]]
    {
      hide Inv, RunFrom;
      Reclaim(q);
      ghost var from := View();
      ghost var b := Bound(mem.Keys);
      assert b !in mem;
      var addr: nat :| addr !in mem;
      StepSafe(from, Push(q, payload, addr));
      mem := mem[addr := Pack(q, queues[q].indexBase, payload)];
      queues := queues[q := Extended(queues[q], addr)];
      packQueue := packQueue + [addr];
      pushed := pushed[q := pushed[q] + [payload]];
      Record(Push(q, payload, addr), from);
    }

    method Reclaim(q: nat)
      requires Valid() && q < |queues| && queues[q].phase.Idle?
      modifies this`mem, this`queues, this`steps
      ensures Valid() && old(steps) <= steps && SameElsewhere(old(View()), View(), q) && queues[q].phase.Ready?
      ensures var k := Reclaimable(old(queues)[q]);
              k <= |old(queues)[q].que| && queues[q].que == old(queues)[q].que[k..]
    {
      hide Inv, RunFrom;
      ghost var was := View();
      StepSafe(was, Load(q));
      var size := Reclaimable(queues[q]);
      queues := queues[q := Loaded(queues[q])];
      Record(Load(q), was);
      if size > 0 {
        var i := 0;
        while i < size
          invariant 0 <= i <= size <= |was.queues[q].que|
          invariant Valid() && old(steps) <= steps && SameElsewhere(was, View(), q)
          invariant queues[q].phase == Popping(size - i) && queues[q].que == was.queues[q].que[i..]
        {
          ghost var from := View();
          StepSafe(from, PopFront(q));
          mem := mem - {queues[q].que[0]};
          queues := queues[q := Popped(queues[q])];
          Record(PopFront(q), from);
          i := i + 1;
        }
        ghost var from := View();
        StepSafe(from, FixHead(q));
        queues := queues[q := Headed(queues[q], mem)];
        Record(FixHead(q), from);
      }
    }

    /**
     Drains the FIFO, handing over every pack in place, then publishes for each
     producer the last pack handled. When nothing interferes, everything that
     was ever pushed has been handed over.
     */
    method MovePack()
      requires Valid() && consumer.Resting?
      modifies this
      ensures Valid() && start == old(start) && old(steps) <= steps
      ensures consumer.Resting? && packQueue == [] && pushed == old(pushed) && handed == pushed
      ensures forall q :: 0 <= q < |queues| && !queues[q].phase.Popping? ==> Reclaimable(queues[q]) == |queues[q].que|
    {
      hide Inv, RunFrom;
      ghost var from := View();
      gc, consumer := seq(|queues|, _ => None), Moving(None);
      Record(Begin, from);
      while packQueue != []
        invariant Valid() && start == old(start) && old(steps) <= steps
        invariant consumer == Moving(None) && pushed == old(pushed)
        decreases |packQueue|
      {
        HandleNext();
      }
      from := View();
      AllHanded(from);
      consumer := Releasing(0);
      Record(Drain, from);
      ReleasePack();
      from := View();
      consumer := Resting;
      Record(End, from);
      AllReclaimable(View());
    }

    /** Once everything was handled, the next push of a producer frees all of its packs and leaves the new one. */
    method PushAfterMove(q: nat, payload: int)
      requires Valid() && consumer.Resting? && q < |queues| && queues[q].phase.Idle? && packQueue == []
      modifies this
      ensures Valid() && |queues| == |old(queues)| && |queues[q].que| == 1
    {
      hide Inv, RunFrom;
      AllHanded(View());
      HandledIsReclaimable(View(), q);
      OnRecv(q, payload);
    }

    /** Pops one address, remembers it as its producer's last, and handles the pack where it lies. */
    method HandleNext()
      requires Valid() && consumer == Moving(None) && packQueue != []
      modifies this`packQueue, this`gc, this`consumer, this`handed, this`steps
      ensures Valid() && old(steps) <= steps && consumer == Moving(None)
      ensures packQueue == old(packQueue)[1..]
    {
      hide Inv, RunFrom;
      ghost var from := View();
      StepSafe(from, Take);
      var a := packQueue[0];
      packQueue := packQueue[1..];
      var p := mem[a];
      gc, consumer := gc[p.queue := Some(a)], Moving(Some(a));
      handed := handed[p.queue := handed[p.queue] + [p.payload]];
      Record(Take, from);
      from := View();
      StepSafe(from, Finish);
      consumer := Moving(None);
      Record(Finish, from);
    }

    method ReleasePack()
      requires Valid() && consumer == Releasing(0)
      modifies this`queues, this`consumer, this`steps
      ensures Valid() && old(steps) <= steps
      ensures |queues| == |old(queues)| && consumer == Releasing(|queues|) && pushed == old(pushed)
      ensures forall q :: 0 <= q < |queues| && q < |handed| ==> UpToDate(queues[q], |handed[q]|)
    {
      hide Inv, RunFrom;
      var i := 0;
      while i < |queues|
        invariant 0 <= i <= |queues| == |old(queues)|
        invariant Valid() && old(steps) <= steps && consumer == Releasing(i)
      {
        ghost var from := View();
        StepSafe(from, Release);
        if gc[i].Some? {
          queues := queues[i := queues[i].(tail := Some(mem[gc[i].value].index))];
        }
        consumer := Releasing(i + 1);
        assert queues == Apply(from, Release).queues;
        Record(Release, from);
        i := i + 1;
      }
      forall q | 0 <= q < |queues| && q < |handed| ensures UpToDate(queues[q], |handed[q]|) {
        NothingHeld(View(), q);
      }
    }
  }

  ghost predicate SameElsewhere(was: State, s: State, q: nat) {
    && s.consumer == was.consumer && s.gc == was.gc && s.handed == was.handed && |s.queues| == |was.queues|
    && forall p :: 0 <= p < |s.queues| && p != q ==> s.queues[p] == was.queues[p]
  }

  lemma AllReclaimable(s: State)
    requires Inv(s) && s.consumer.Resting? && s.handed == s.pushed
    ensures forall q :: 0 <= q < |s.queues| && !s.queues[q].phase.Popping? ==>
              Reclaimable(s.queues[q]) == |s.queues[q].que|
  {
    forall q | 0 <= q < |s.queues| && !s.queues[q].phase.Popping?
      ensures Reclaimable(s.queues[q]) == |s.queues[q].que| {
      HandledIsReclaimable(s, q);
    }
  }

  /** A consumer that holds nothing of a producer has published all it handed over. */
  lemma NothingHeld(s: State, q: nat)
    requires Inv(s) && q < |s.queues| && Held(s, q).None?
    ensures q < |s.handed| && UpToDate(s.queues[q], |s.handed[q]|)
  {
    assert Ok(s, q);
  }

  /** With an empty FIFO nothing is pending. */
  lemma AllHanded(s: State)
    requires Inv(s) && s.fifo == []
    ensures s.handed == s.pushed
  {
    forall q: nat | q < |s.pushed| ensures s.handed[q] == s.pushed[q] {
      assert Ok(s, q);
      PendingPayloads(q, s.queues[q], s.mem, [], Held(s, q), s.pushed[q], s.handed[q]);
      assert Payloads([], s.mem) == [];
    }
  }
}
