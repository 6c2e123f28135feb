/**
 The link and exit protocol between local actors, as a distributed step system.

 An actor object is reused by one incarnation after another; an identifier
 names the object and the incarnation. Link requests, exit notices and
 already-exited notices travel independently and arrive in any order.
 */
module LinkProtocol {
  import opened LinkTypes

  /** The actor object and its incarnation number. Numbers are odd exactly while an incarnation lives. */
  datatype Aid = Aid(slot: nat, sid: nat)

  datatype Packet =
    | LinkMsg(kind: LinkType, from: Aid, to: Aid)
    | ExitMsg(from: Aid, to: Aid)
    | AlreadyMsg(from: Aid, to: Aid)

  /** A dying actor has given up its identifier and has not sent its exit notices yet. */
  datatype Phase = Free | Live | Dying(dead: nat)

  datatype Actor = Actor(sid: nat, phase: Phase, links: set<Aid>, monitors: set<Aid>)

  /**
   `told` has (a, b) when a notice of b's death reached a since a last asked to
   watch b. `bound` has (a, b) when a asked to watch b, or b asked to be linked
   with a while a was alive. `early` has the identifiers that someone asked to
   watch before they existed, and `watchers` has (b, a) when b asked to monitor a.
   */
  datatype World = World(
    actors: seq<Actor>, net: multiset<Packet>,
    told: set<(Aid, Aid)>, bound: set<(Aid, Aid)>, early: set<Aid>, watchers: set<(Aid, Aid)>)

  datatype Step =
    | Spawn(i: nat)
    | Link(i: nat, kind: LinkType, target: Aid)
    | Deliver(p: Packet)
    | Die(i: nat)
    | Quit(i: nat)
    | Stop(i: nat)

  function AidOf(w: World, i: nat): Aid
    requires i < |w.actors|
  {
    Aid(i, w.actors[i].sid)
  }

  /** `a` names the incarnation now living in its object. */
  ghost predicate IsLive(w: World, a: Aid) {
    a.slot < |w.actors| && w.actors[a.slot].sid == a.sid && w.actors[a.slot].phase.Live?
  }

  /** `a` named an incarnation of its object before the present number. */
  ghost predicate IsPast(w: World, a: Aid) {
    a.slot < |w.actors| && a.sid < w.actors[a.slot].sid
  }

  ghost predicate Enabled(w: World, st: Step) {
    match st
    case Spawn(i) => i < |w.actors| && w.actors[i].phase.Free?
    case Link(i, _, target) => i < |w.actors| && w.actors[i].phase.Live? && target.slot < |w.actors|
    case Deliver(p) => p in w.net && p.to.slot < |w.actors|
    case Die(i) => i < |w.actors| && w.actors[i].phase.Live?
    case Quit(i) => i < |w.actors| && w.actors[i].phase.Live?
    case Stop(i) => i < |w.actors| && w.actors[i].phase.Dying?
  }

  // ---------------------------------------------------------------- one actor's part of each step

  /** `init` and `quit` move to the next incarnation number. */
  function Renamed(c: Actor, phase: Phase): Actor {
    c.(sid := c.sid + 1, phase := phase)
  }

  function WithLink(c: Actor, kind: LinkType, target: Aid): Actor {
    match kind
    case Linked => c.(links := c.links + {target})
    case Monitored => c.(monitors := c.monitors + {target})
  }

  /** An addressed actor records a link whatever its kind, and forgets an actor whose exit notice it gets. */
  function Accepting(c: Actor, p: Packet): Actor {
    match p
    case LinkMsg(_, from, _) => c.(links := c.links + {from})
    case ExitMsg(from, _) => c.(links := c.links - {from}, monitors := c.monitors - {from})
    case AlreadyMsg(_, _) => c
  }

  /** An object back in its pool keeps its number and nothing else. */
  function Freed(c: Actor): Actor {
    c.(phase := Free, links := {}, monitors := {})
  }

  function Notices(dead: Aid, links: set<Aid>): multiset<Packet> {
    multiset(set a | a in links :: ExitMsg(dead, a))
  }

  ghost function Apply(w: World, st: Step): World
    requires Enabled(w, st)
  {
    match st
    case Spawn(i) => w.(actors := w.actors[i := Renamed(w.actors[i], Live)])
    case Link(i, kind, target) =>
      var me := AidOf(w, i);
      w.(actors := w.actors[i := WithLink(w.actors[i], kind, target)],
         net := w.net + multiset{LinkMsg(kind, me, target)},
         told := w.told - {(me, target)},
         bound := w.bound + {(me, target)} + (if kind.Linked? && IsLive(w, target) then {(target, me)} else {}),
         early := w.early + (if target.sid > w.actors[target.slot].sid then {target} else {}),
         watchers := w.watchers + (if kind.Monitored? then {(me, target)} else {}))
    case Deliver(p) =>
      var c := w.actors[p.to.slot];
      var net := w.net - multiset{p};
      if c.sid == p.to.sid then
        w.(actors := w.actors[p.to.slot := Accepting(c, p)], net := net,
           told := w.told + (if p.LinkMsg? then {} else {(p.to, p.from)}))
      else if p.LinkMsg? then
        w.(net := net + multiset{AlreadyMsg(p.to, p.from)})
      else
        w.(net := net)
    case Die(i) =>
      w.(actors := w.actors[i := Freed(Renamed(w.actors[i], Free))],
         net := w.net + Notices(AidOf(w, i), w.actors[i].links))
    case Quit(i) => w.(actors := w.actors[i := Renamed(w.actors[i], Dying(w.actors[i].sid))])
    case Stop(i) =>
      w.(actors := w.actors[i := Freed(w.actors[i])],
         net := w.net + Notices(Aid(i, w.actors[i].phase.dead), w.actors[i].links))
  }

  function Init(n: nat): World {
    World(seq(n, _ => Actor(0, Free, {}, {})), multiset{}, {}, {}, {}, {})
  }

  // ---------------------------------------------------------------- invariants

  ghost predicate PhaseOk(c: Actor) {
    && (c.phase.Live? <==> c.sid % 2 == 1)
    && (c.phase.Dying? ==> c.sid == c.phase.dead + 1)
    && (c.phase.Free? ==> c.links == {} && c.monitors == {})
  }

  /** b's death is still going to be reported to a, or has been. */
  ghost predicate Covered(w: World, a: Aid, b: Aid) {
    || (exists k :: LinkMsg(k, a, b) in w.net)
    || (IsLive(w, b) && a in w.actors[b.slot].links)
    || (b.slot < |w.actors| && w.actors[b.slot].phase == Dying(b.sid) && a in w.actors[b.slot].links)
    || ExitMsg(b, a) in w.net
    || AlreadyMsg(b, a) in w.net
    || (a, b) in w.told
  }

  /** Who may be in flight: exits come from past incarnations, requests from bound ones, to published numbers. */
  ghost predicate PacketOk(w: World, p: Packet) {
    && p.to.slot < |w.actors| && p.from.slot < |w.actors|
    && match p
       case LinkMsg(kind, from, to) =>
         && to.sid % 2 == 1 && (from, to) in w.bound
         && (to.sid > w.actors[to.slot].sid ==> to in w.early)
         && (kind.Linked? ==> (to, from) in w.bound || IsPast(w, to) || to in w.early)
         && (kind.Monitored? ==> (from, to) in w.watchers)
       case ExitMsg(from, to) =>
         IsPast(w, from) && ((to, from) in w.bound || IsPast(w, to) || to in w.early)
       case AlreadyMsg(from, to) =>
         (IsPast(w, from) || from in w.early) && (to, from) in w.bound
  }

  /** The identifier under which an actor's exit notices go out. */
  function ExitName(i: nat, c: Actor): Aid {
    if c.phase.Dying? then Aid(i, c.phase.dead) else Aid(i, c.sid)
  }

  /** Why `a` may be in the lists of the actor that exits as `b`. */
  ghost predicate LinkReason(w: World, b: Aid, a: Aid) {
    (a, b) in w.bound || IsPast(w, a) || a in w.early
  }

  ghost predicate HeldReason(w: World, me: Aid, x: Aid) {
    (me, x) in w.bound || (x, me) in w.watchers || me in w.early
  }

  ghost predicate ActorOk(w: World, i: nat) {
    && i < |w.actors| && PhaseOk(w.actors[i])
    && var c := w.actors[i];
       var me := ExitName(i, c);
       && (forall a :: a in c.links ==> a.slot < |w.actors| && LinkReason(w, me, a) && HeldReason(w, me, a))
       && (forall a :: a in c.monitors ==> HeldReason(w, me, a))
  }

  ghost predicate BoundOk(w: World, a: Aid, b: Aid) {
    a.slot < |w.actors| && a.sid <= w.actors[a.slot].sid && (IsLive(w, a) ==> Covered(w, a, b))
  }

  ghost predicate ToldOk(w: World, a: Aid, b: Aid) {
    (IsPast(w, b) || b in w.early) && ((a, b) in w.bound || a in w.early)
  }

  ghost predicate Inv(w: World) {
    && (forall i: nat :: i < |w.actors| ==> ActorOk(w, i))
    && (forall p :: p in w.net ==> PacketOk(w, p))
    && (forall a, b :: (a, b) in w.bound ==> BoundOk(w, a, b))
    && (forall a, b :: (a, b) in w.told ==> ToldOk(w, a, b))
  }

  lemma InitInv(n: nat)
    ensures Inv(Init(n))
  {
  }

  /** Only numbers that were ever published are asked for. */
  ghost predicate Proper(st: Step) {
    st.Link? ==> st.target.sid % 2 == 1
  }

  /** Numbers only go up and records only grow, so what is known of a packet stays true. */
  ghost predicate Grows(w: World, w': World) {
    && |w'.actors| == |w.actors|
    && (forall i :: 0 <= i < |w.actors| ==> w.actors[i].sid <= w'.actors[i].sid)
    && w.bound <= w'.bound && w.early <= w'.early && w.watchers <= w'.watchers
  }

  lemma PacketKept(w: World, w': World, p: Packet)
    requires PacketOk(w, p) && Grows(w, w')
    ensures PacketOk(w', p)
  {
  }

  lemma ActorKept(w: World, w': World, i: nat)
    requires ActorOk(w, i) && Grows(w, w') && w'.actors[i] == w.actors[i]
    ensures ActorOk(w', i)
  {
  }

  /** Two live packets or one death notice cannot disagree: an exit notice names a dead sender. */
  lemma ExitFromPast(w: World, a: Aid, b: Aid)
    requires Inv(w) && ExitMsg(a, b) in w.net
    ensures !IsLive(w, a)
  {
    assert PacketOk(w, ExitMsg(a, b));
  }

  lemma SpawnInv(w: World, i: nat)
    requires Inv(w) && Enabled(w, Spawn(i))
    ensures Inv(Apply(w, Spawn(i)))
  {
    hide PacketOk;
    var w' := Apply(w, Spawn(i));
    forall j: nat | j < |w'.actors| ensures ActorOk(w', j) {
      assert ActorOk(w, j);
      if j != i { ActorKept(w, w', j); }
    }
    forall p | p in w'.net ensures PacketOk(w', p) { PacketKept(w, w', p); }
    forall a, b | (a, b) in w'.bound ensures BoundOk(w', a, b) {
      assert BoundOk(w, a, b) && ActorOk(w, i);
    }
    forall a, b | (a, b) in w'.told ensures ToldOk(w', a, b) { assert ToldOk(w, a, b); }
  }

  lemma LinkInv(w: World, i: nat, kind: LinkType, target: Aid)
    requires Inv(w) && Enabled(w, Link(i, kind, target)) && target.sid % 2 == 1
    ensures Inv(Apply(w, Link(i, kind, target)))
  {
    var w' := Apply(w, Link(i, kind, target));
    var me := AidOf(w, i);
    assert ActorOk(w, i) && ActorOk(w, target.slot);
    LinkActors(w, i, kind, target);
    forall p | p in w'.net ensures PacketOk(w', p) {
      if p != LinkMsg(kind, me, target) { PacketKept(w, w', p); }
    }
    forall a, b | (a, b) in w'.bound ensures BoundOk(w', a, b) {
      LinkCovers(w, i, kind, target, a, b);
    }
    forall a, b | (a, b) in w'.told ensures ToldOk(w', a, b) { assert ToldOk(w, a, b); }
  }

  lemma LinkActors(w: World, i: nat, kind: LinkType, target: Aid)
    requires Inv(w) && Enabled(w, Link(i, kind, target)) && target.sid % 2 == 1
    ensures var w' := Apply(w, Link(i, kind, target)); forall j: nat :: j < |w'.actors| ==> ActorOk(w', j)
  {
    hide PacketOk, BoundOk, ToldOk;
    var w' := Apply(w, Link(i, kind, target));
    forall j: nat | j < |w'.actors| ensures ActorOk(w', j) {
      assert ActorOk(w, j);
      if j != i {
        ActorKept(w, w', j);
      } else {
        assert ActorOk(w, target.slot);
        var me := AidOf(w, i);
        forall a | a in w'.actors[i].links
          ensures a.slot < |w'.actors| && LinkReason(w', me, a) && HeldReason(w', me, a) {
          if a != target { assert LinkReason(w, me, a) && HeldReason(w, me, a); }
        }
        forall a | a in w'.actors[i].monitors ensures HeldReason(w', me, a) {
          if a != target { assert HeldReason(w, me, a); }
        }
      }
    }
  }

  lemma LinkCovers(w: World, i: nat, kind: LinkType, target: Aid, a: Aid, b: Aid)
    requires Inv(w) && Enabled(w, Link(i, kind, target)) && target.sid % 2 == 1
    requires (a, b) in Apply(w, Link(i, kind, target)).bound
    ensures BoundOk(Apply(w, Link(i, kind, target)), a, b)
  {
    hide PacketOk, ToldOk;
    var w' := Apply(w, Link(i, kind, target));
    var me := AidOf(w, i);
    if (a, b) == (me, target) {
      assert LinkMsg(kind, a, b) in w'.net;
    } else if (a, b) in w.bound {
      assert BoundOk(w, a, b);
      if IsLive(w', a) {
        CoveredGrows(w, w', a, b);
      }
    } else {
      assert kind.Linked? && (a, b) == (target, me);
      assert IsLive(w', b) && a in w'.actors[i].links;
    }
  }

  /** More packets and more links cover at least as much, as long as no incarnation changes. */
  lemma CoveredGrows(w: World, w': World, a: Aid, b: Aid)
    requires Covered(w, a, b) && w.net <= w'.net && |w'.actors| == |w.actors|
    requires (a, b) in w.told ==> (a, b) in w'.told
    requires forall j :: 0 <= j < |w.actors| ==>
               w'.actors[j].sid == w.actors[j].sid && w'.actors[j].phase == w.actors[j].phase
               && w.actors[j].links <= w'.actors[j].links
    ensures Covered(w', a, b)
  {
    if k :| LinkMsg(k, a, b) in w.net {
      assert LinkMsg(k, a, b) in w'.net;
    }
  }

  lemma DeliverInv(w: World, p: Packet)
    requires Inv(w) && Enabled(w, Deliver(p))
    ensures Inv(Apply(w, Deliver(p)))
  {
    var w' := Apply(w, Deliver(p));
    assert PacketOk(w, p);
    DeliverActors(w, p);
    forall q | q in w'.net ensures PacketOk(w', q) {
      if q in w.net { PacketKept(w, w', q); }
    }
    forall a, b | (a, b) in w'.bound ensures BoundOk(w', a, b) {
      DeliverCovers(w, p, a, b);
    }
    forall a, b | (a, b) in w'.told ensures ToldOk(w', a, b) {
      if (a, b) in w.told { assert ToldOk(w, a, b); }
    }
  }

  lemma DeliverActors(w: World, p: Packet)
    requires Inv(w) && Enabled(w, Deliver(p))
    ensures var w' := Apply(w, Deliver(p)); forall j: nat :: j < |w'.actors| ==> ActorOk(w', j)
  {
    hide BoundOk, ToldOk;
    var w' := Apply(w, Deliver(p));
    forall j: nat | j < |w'.actors| ensures ActorOk(w', j) {
      assert ActorOk(w, j);
      if w'.actors[j] == w.actors[j] {
        ActorKept(w, w', j);
      } else {
        assert j == p.to.slot && PacketOk(w, p);
        var me := ExitName(j, w.actors[j]);
        forall a | a in w'.actors[j].links
          ensures a.slot < |w'.actors| && LinkReason(w', me, a) && HeldReason(w', me, a) {
          if a in w.actors[j].links { assert LinkReason(w, me, a) && HeldReason(w, me, a); }
        }
        forall a | a in w'.actors[j].monitors ensures HeldReason(w', me, a) {
          assert HeldReason(w, me, a);
        }
      }
    }
  }

  lemma DeliverCovers(w: World, p: Packet, a: Aid, b: Aid)
    requires Inv(w) && Enabled(w, Deliver(p)) && (a, b) in w.bound
    ensures BoundOk(Apply(w, Deliver(p)), a, b)
  {
    hide PacketOk, ActorOk, ToldOk, Covered;
    assert BoundOk(w, a, b);
    if IsLive(w, a) {
      DeliverKeepsCovered(w, p, a, b);
    }
  }

  lemma DeliverKeepsCovered(w: World, p: Packet, a: Aid, b: Aid)
    requires Inv(w) && Enabled(w, Deliver(p)) && IsLive(w, a) && Covered(w, a, b)
    ensures Covered(Apply(w, Deliver(p)), a, b)
  {
    hide PacketOk, ActorOk, BoundOk, ToldOk;
    var w' := Apply(w, Deliver(p));
    if k :| LinkMsg(k, a, b) in w.net {
      if p == LinkMsg(k, a, b) {
        RequestAnswered(w, k, a, b);
      } else {
        assert LinkMsg(k, a, b) in w'.net;
      }
    } else if b.slot < |w.actors| && a in w.actors[b.slot].links
              && (IsLive(w, b) || w.actors[b.slot].phase == Dying(b.sid)) {
      if a !in w'.actors[b.slot].links {
        ExitFromPast(w, a, p.to);
      }
    } else if ExitMsg(b, a) in w.net {
      assert p == ExitMsg(b, a) || ExitMsg(b, a) in w'.net;
    } else if AlreadyMsg(b, a) in w.net {
      assert p == AlreadyMsg(b, a) || AlreadyMsg(b, a) in w'.net;
    }
  }

  /** A delivered request is recorded by a living actor or turned into an already-exited notice. */
  lemma RequestAnswered(w: World, k: LinkType, a: Aid, b: Aid)
    requires Inv(w) && LinkMsg(k, a, b) in w.net
    ensures b.slot < |w.actors| && Covered(Apply(w, Deliver(LinkMsg(k, a, b))), a, b)
  {
    hide BoundOk, ToldOk;
    assert PacketOk(w, LinkMsg(k, a, b)) && ActorOk(w, b.slot);
    var w' := Apply(w, Deliver(LinkMsg(k, a, b)));
    assert IsLive(w', b) || AlreadyMsg(b, a) in w'.net;
  }

  lemma NoticesMeaning(dead: Aid, links: set<Aid>, p: Packet)
    ensures p in Notices(dead, links) <==> p.ExitMsg? && p.from == dead && p.to in links
  {
  }

  /** Sending exit notices to every link leaves every bound actor covered. */
  lemma DepartInv(w: World, w': World, i: nat, me: Aid)
    requires Inv(w) && i < |w.actors| && me == ExitName(i, w.actors[i]) && !w.actors[i].phase.Free?
    requires |w'.actors| == |w.actors| && w'.actors[i] == Actor(me.sid + 1, Free, {}, {})
    requires w' == w.(actors := w.actors[i := w'.actors[i]], net := w.net + Notices(me, w.actors[i].links))
    ensures Inv(w')
  {
    hide PacketOk;
    assert ActorOk(w, i);
    forall j: nat | j < |w'.actors| ensures ActorOk(w', j) {
      assert ActorOk(w, j);
      if j != i { ActorKept(w, w', j); }
    }
    forall p | p in w'.net ensures PacketOk(w', p) {
      NoticesMeaning(me, w.actors[i].links, p);
      if p in w.net { PacketKept(w, w', p); } else { NoticeOk(w, w', i, me, p); }
    }
    forall a, b | (a, b) in w'.bound ensures BoundOk(w', a, b) {
      assert BoundOk(w, a, b);
      NoticesMeaning(me, w.actors[i].links, ExitMsg(b, a));
      if IsLive(w', a) {
        assert IsLive(w, a);
        if k :| LinkMsg(k, a, b) in w.net { assert LinkMsg(k, a, b) in w'.net; }
      }
    }
    forall a, b | (a, b) in w'.told ensures ToldOk(w', a, b) { assert ToldOk(w, a, b); }
  }

  lemma NoticeOk(w: World, w': World, i: nat, me: Aid, p: Packet)
    requires ActorOk(w, i) && me == ExitName(i, w.actors[i]) && Grows(w, w') && w'.actors[i].sid == me.sid + 1
    requires p.ExitMsg? && p.from == me && p.to in w.actors[i].links
    ensures PacketOk(w', p)
  {
    assert LinkReason(w, me, p.to);
  }

  lemma DieInv(w: World, i: nat)
    requires Inv(w) && Enabled(w, Die(i))
    ensures Inv(Apply(w, Die(i)))
  {
    DepartInv(w, Apply(w, Die(i)), i, AidOf(w, i));
  }

  lemma StopInv(w: World, i: nat)
    requires Inv(w) && Enabled(w, Stop(i))
    ensures Inv(Apply(w, Stop(i)))
  {
    assert ActorOk(w, i);
    DepartInv(w, Apply(w, Stop(i)), i, ExitName(i, w.actors[i]));
  }

  lemma QuitInv(w: World, i: nat)
    requires Inv(w) && Enabled(w, Quit(i))
    ensures Inv(Apply(w, Quit(i)))
  {
    hide PacketOk;
    var w' := Apply(w, Quit(i));
    forall j: nat | j < |w'.actors| ensures ActorOk(w', j) {
      assert ActorOk(w, j);
      if j != i {
        ActorKept(w, w', j);
      } else {
        var me := AidOf(w, i);
        forall a | a in w'.actors[i].links
          ensures a.slot < |w'.actors| && LinkReason(w', me, a) && HeldReason(w', me, a) {
          assert LinkReason(w, me, a) && HeldReason(w, me, a);
        }
        forall a | a in w'.actors[i].monitors ensures HeldReason(w', me, a) {
          assert HeldReason(w, me, a);
        }
      }
    }
    forall p | p in w'.net ensures PacketOk(w', p) { PacketKept(w, w', p); }
    forall a, b | (a, b) in w'.bound ensures BoundOk(w', a, b) {
      assert BoundOk(w, a, b);
      if IsLive(w', a) {
        assert IsLive(w, a);
        if k :| LinkMsg(k, a, b) in w.net { assert LinkMsg(k, a, b) in w'.net; }
      }
    }
    forall a, b | (a, b) in w'.told ensures ToldOk(w', a, b) { assert ToldOk(w, a, b); }
  }

  lemma StepInv(w: World, st: Step)
    requires Inv(w) && Enabled(w, st) && Proper(st)
    ensures Inv(Apply(w, st))
  {
    match st {
      case Spawn(i) => SpawnInv(w, i);
      case Link(i, kind, target) => LinkInv(w, i, kind, target);
      case Deliver(p) => DeliverInv(w, p);
      case Die(i) => DieInv(w, i);
      case Quit(i) => QuitInv(w, i);
      case Stop(i) => StopInv(w, i);
    }
  }

  // ---------------------------------------------------------------- whole runs

  ghost predicate RunFrom(w: World, steps: seq<Step>, end: World)
    decreases |steps|
  {
    if steps == [] then w == end
    else Enabled(w, steps[0]) && RunFrom(Apply(w, steps[0]), steps[1..], end)
  }

  lemma {:induction false} RunInv(w: World, steps: seq<Step>, end: World)
    requires Inv(w) && RunFrom(w, steps, end) && forall i :: 0 <= i < |steps| ==> Proper(steps[i])
    ensures Inv(end)
    decreases |steps|
  {
    if steps != [] {
      StepInv(w, steps[0]);
      RunInv(Apply(w, steps[0]), steps[1..], end);
    }
  }

  ghost predicate ProperRun(n: nat, steps: seq<Step>, w: World) {
    RunFrom(Init(n), steps, w) && forall i :: 0 <= i < |steps| ==> Proper(steps[i])
  }

  ghost predicate Reachable(w: World) {
    exists n: nat, steps :: ProperRun(n, steps, w)
  }

  lemma ReachableInv(w: World)
    requires Reachable(w)
    ensures Inv(w)
  {
    var n: nat, steps :| ProperRun(n, steps, w);
    InitInv(n);
    RunInv(Init(n), steps, w);
  }

  /**
   Completeness, whatever the delivery order: while a live actor is bound to b,
   its request is in flight, b lives or is dying with it in its link list, or
   the news of b's death is in flight or has been delivered since the last request.
   */
  lemma NoDeathUnreported(w: World, a: Aid, b: Aid)
    requires Reachable(w) && IsLive(w, a) && (a, b) in w.bound
    ensures Covered(w, a, b)
  {
    ReachableInv(w);
    assert BoundOk(w, a, b);
  }

  /** Conversely, there is nothing of b's death for a to learn unless a is bound to b: exactly the bound are covered. */
  lemma ExactlyTheBoundAreCovered(w: World, a: Aid, b: Aid)
    requires Reachable(w) && IsLive(w, a) && a !in w.early
    ensures Covered(w, a, b) <==> (a, b) in w.bound
  {
    ReachableInv(w);
    hide Covered;
    if (a, b) in w.bound {
      assert BoundOk(w, a, b);
    } else if Covered(w, a, b) {
      OnlyTheBoundAreCovered(w, a, b);
    }
  }

  lemma OnlyTheBoundAreCovered(w: World, a: Aid, b: Aid)
    requires Inv(w) && IsLive(w, a) && a !in w.early && Covered(w, a, b)
    ensures (a, b) in w.bound
  {
    hide BoundOk, PhaseOk, HeldReason;
    if k :| LinkMsg(k, a, b) in w.net {
      assert PacketOk(w, LinkMsg(k, a, b));
    } else if ExitMsg(b, a) in w.net {
      assert PacketOk(w, ExitMsg(b, a));
    } else if AlreadyMsg(b, a) in w.net {
      assert PacketOk(w, AlreadyMsg(b, a));
    } else if (a, b) in w.told {
      assert ToldOk(w, a, b);
    } else {
      assert ActorOk(w, b.slot) && LinkReason(w, ExitName(b.slot, w.actors[b.slot]), a);
    }
  }

  /** An actor in a live actor's lists is one it is bound to, or one that only monitors it. */
  lemma ListsExplained(w: World, a: Aid, b: Aid)
    requires Reachable(w) && IsLive(w, a) && a !in w.early
    requires b in w.actors[a.slot].links || b in w.actors[a.slot].monitors
    ensures (a, b) in w.bound || (b, a) in w.watchers
  {
    ReachableInv(w);
    assert ActorOk(w, a.slot);
    assert HeldReason(w, a, b);
  }

  /** Accuracy: a notice about an actor that existed when it was asked for is never wrong, now or later. */
  lemma NoticesAreTrue(w: World, a: Aid, b: Aid)
    requires Reachable(w) && b !in w.early
    requires (a, b) in w.told || ExitMsg(b, a) in w.net || AlreadyMsg(b, a) in w.net
    ensures IsPast(w, b)
  {
    ReachableInv(w);
    if (a, b) in w.told {
      assert ToldOk(w, a, b);
    } else if ExitMsg(b, a) in w.net {
      assert PacketOk(w, ExitMsg(b, a));
    } else {
      assert PacketOk(w, AlreadyMsg(b, a));
    }
  }

  /** A delivered request is answered wrongly exactly when it asks for a number that is still to come. */
  lemma AnswerWrongExactlyIfEarly(w: World, p: Packet)
    requires Enabled(w, Deliver(p)) && p.LinkMsg?
    ensures var w', answer := Apply(w, Deliver(p)), AlreadyMsg(p.to, p.from);
            w'.net[answer] > w.net[answer] && !IsPast(w', p.to) <==> p.to.sid > w.actors[p.to.slot].sid
  {
    DeliveryIs(w, p);
    hide Accepting;
  }

  /** Once nothing is in flight, exactly the bound actors have been told of a death. */
  lemma ToldExactlyTheBound(w: World, a: Aid, b: Aid)
    requires Reachable(w) && w.net == multiset{} && IsLive(w, a) && a !in w.early
    requires IsPast(w, b) && w.actors[b.slot].phase != Dying(b.sid)
    ensures (a, b) in w.told <==> (a, b) in w.bound
  {
    ReachableInv(w);
    if (a, b) in w.bound {
      assert BoundOk(w, a, b);
    }
    if (a, b) in w.told {
      assert ToldOk(w, a, b);
    }
  }

  // ---------------------------------------------------------------- who is in an actor's lists

  function ListOf(w: World, a: Aid, kind: LinkType): set<Aid>
    requires a.slot < |w.actors|
  {
    match kind
    case Linked => w.actors[a.slot].links
    case Monitored => w.actors[a.slot].monitors
  }

  /** The step puts b into that list of a: a's own request or, for its links, any request of b. */
  predicate Lists(st: Step, kind: LinkType, a: Aid, b: Aid) {
    || (st.Link? && st.i == a.slot && st.kind == kind && st.target == b)
    || (kind == Linked && st.Deliver? && st.p.LinkMsg? && st.p.from == b && st.p.to == a)
  }

  /** The step takes b out: the news of its exit, or a new incarnation in the place of a. */
  predicate Unlists(st: Step, a: Aid, b: Aid) {
    st == Deliver(ExitMsg(b, a)) || st == Spawn(a.slot)
  }

  ghost predicate NoneUnlists(steps: seq<Step>, a: Aid, b: Aid) {
    forall j :: 0 <= j < |steps| ==> !Unlists(steps[j], a, b)
  }

  /** Some step put b into the list, and none since has taken it out. */
  ghost predicate Listed(steps: seq<Step>, kind: LinkType, a: Aid, b: Aid) {
    exists i: nat :: ListedSince(steps, i, kind, a, b)
  }

  ghost predicate ListedSince(steps: seq<Step>, i: nat, kind: LinkType, a: Aid, b: Aid) {
    i < |steps| && Lists(steps[i], kind, a, b) && NoneUnlists(steps[i + 1..], a, b)
  }

  /** What one step does to the lists of an actor that lives after it. */
  lemma ListedByStep(w: World, st: Step, kind: LinkType, a: Aid, b: Aid)
    requires Inv(w) && Enabled(w, st) && IsLive(Apply(w, st), a)
    ensures IsLive(w, a) <==> st != Spawn(a.slot)
    ensures b in ListOf(Apply(w, st), a, kind) <==>
            Lists(st, kind, a, b) || (IsLive(w, a) && b in ListOf(w, a, kind) && !Unlists(st, a, b))
  {
    hide PacketOk, BoundOk, ToldOk, LinkReason, HeldReason, Notices;
    assert PhaseOk(w.actors[a.slot]) by { assert ActorOk(w, a.slot); }
    hide Inv;
    if st.Deliver? {
      DeliveryIs(w, st.p);
      hide Apply;
    }
  }

  lemma {:induction false} LivedThroughout(w: World, steps: seq<Step>, end: World, a: Aid, b: Aid)
    requires Inv(w) && RunFrom(w, steps, end) && forall i :: 0 <= i < |steps| ==> Proper(steps[i])
    requires IsLive(end, a) && NoneUnlists(steps, a, b)
    ensures IsLive(w, a)
    decreases |steps|
  {
    hide Inv, Proper, IsLive;
    if steps != [] {
      StepInv(w, steps[0]);
      LivedThroughout(Apply(w, steps[0]), steps[1..], end, a, b);
      ListedByStep(w, steps[0], Linked, a, b);
    }
  }

  lemma {:induction false} ListedByRun(w: World, steps: seq<Step>, end: World, kind: LinkType, a: Aid, b: Aid)
    requires Inv(w) && RunFrom(w, steps, end) && forall i :: 0 <= i < |steps| ==> Proper(steps[i])
    requires IsLive(end, a)
    ensures a.slot < |w.actors| == |end.actors|
    ensures b in ListOf(end, a, kind) <==>
            || Listed(steps, kind, a, b)
            || (IsLive(w, a) && b in ListOf(w, a, kind) && NoneUnlists(steps, a, b))
    decreases |steps|
  {
    if steps != [] {
      FirstStep(w, steps, end);
      LongerList(steps, kind, a, b);
      hide *;
      var w', rest := Apply(w, steps[0]), steps[1..];
      ListedByRun(w', rest, end, kind, a, b);
      if NoneUnlists(rest, a, b) {
        LivedThroughout(w', rest, end, a, b);
        ListedByStep(w, steps[0], kind, a, b);
      }
    } else {
      assert !Listed([], kind, a, b);
    }
  }

  lemma FirstStep(w: World, steps: seq<Step>, end: World)
    requires Inv(w) && steps != [] && RunFrom(w, steps, end) && forall i :: 0 <= i < |steps| ==> Proper(steps[i])
    ensures Enabled(w, steps[0]) && |Apply(w, steps[0]).actors| == |w.actors| && Inv(Apply(w, steps[0]))
    ensures RunFrom(Apply(w, steps[0]), steps[1..], end) && forall i :: 0 <= i < |steps| - 1 ==> Proper(steps[1..][i])
  {
    hide Inv, Proper;
    StepInv(w, steps[0]);
  }

  lemma LongerList(steps: seq<Step>, kind: LinkType, a: Aid, b: Aid)
    requires steps != []
    ensures Listed(steps, kind, a, b) <==>
            (Lists(steps[0], kind, a, b) && NoneUnlists(steps[1..], a, b)) || Listed(steps[1..], kind, a, b)
    ensures NoneUnlists(steps, a, b) <==> !Unlists(steps[0], a, b) && NoneUnlists(steps[1..], a, b)
  {
    var rest := steps[1..];
    if i: nat :| ListedSince(steps, i, kind, a, b) {
      assert i > 0 ==> rest[i - 1 + 1..] == steps[i + 1..] && ListedSince(rest, i - 1, kind, a, b);
    }
    if i: nat :| ListedSince(rest, i, kind, a, b) {
      assert steps[i + 1 + 1..] == rest[i + 1..] && ListedSince(steps, i + 1, kind, a, b);
    }
    if Lists(steps[0], kind, a, b) && NoneUnlists(rest, a, b) {
      assert ListedSince(steps, 0, kind, a, b);
    }
    if NoneUnlists(rest, a, b) && !Unlists(steps[0], a, b) {
      forall j | 0 <= j < |steps| ensures !Unlists(steps[j], a, b) {
        assert j > 0 ==> steps[j] == rest[j - 1];
      }
    }
  }

  /**
   Over any run, b is in a live actor's links, or among those it monitors, if and
   only if some request put it there in this incarnation and no news of b's exit has
   been delivered since.
   */
  lemma ListedExactly(n: nat, steps: seq<Step>, w: World, kind: LinkType, a: Aid, b: Aid)
    requires ProperRun(n, steps, w) && IsLive(w, a)
    ensures b in ListOf(w, a, kind) <==> Listed(steps, kind, a, b)
  {
    InitInv(n);
    ListedByRun(Init(n), steps, w, kind, a, b);
  }

  // ---------------------------------------------------------------- where the guarantees end

  lemma {:induction false} RunExtends(w: World, steps: seq<Step>, mid: World, st: Step)
    requires RunFrom(w, steps, mid) && Enabled(mid, st)
    ensures RunFrom(w, steps + [st], Apply(mid, st))
    decreases |steps|
  {
    if steps == [] {
      assert steps + [st] == [st] && [st][1..] == [];
    } else {
      RunExtends(Apply(w, steps[0]), steps[1..], mid, st);
      assert (steps + [st])[1..] == steps[1..] + [st];
    }
  }

  lemma ReachableStep(w: World, st: Step) returns (w': World)
    requires Reachable(w) && Enabled(w, st) && Proper(st)
    ensures Reachable(w') && w' == Apply(w, st)
  {
    var n: nat, steps :| ProperRun(n, steps, w);
    RunExtends(Init(n), steps, w, st);
    w' := Apply(w, st);
    assert ProperRun(n, steps + [st], w');
  }

  lemma ReachableInit(n: nat) returns (w: World)
    ensures Reachable(w) && w == Init(n)
  {
    w := Init(n);
    assert ProperRun(n, [], w);
  }

  /**
   Being in a list is not being bound: a monitor request puts the watcher into
   the watched actor's list, and the watcher's own death is then never reported.
   */
  lemma MonitoredIsListedButNotTold() returns (w: World, a: Aid, b: Aid)
    ensures Reachable(w) && IsLive(w, a) && b in w.actors[a.slot].links
    ensures IsPast(w, b) && !Covered(w, a, b)
  {
    hide Reachable;
    a, b := Aid(0, 1), Aid(1, 1);
    w := ReachableInit(2);
    w := ReachableStep(w, Spawn(0));
    w := ReachableStep(w, Spawn(1));
    w := ReachableStep(w, Link(1, Monitored, a));
    w := ReachableStep(w, Deliver(LinkMsg(Monitored, b, a)));
    w := ReachableStep(w, Die(1));
    assert w.net == multiset{};
  }

  /** An unpublished, even number is accepted by a pooled object and its next incarnation forgets to report. */
  lemma UnpublishedIsNeverReported() returns (steps: seq<Step>, w: World, a: Aid, b: Aid)
    ensures RunFrom(Init(2), steps, w) && IsLive(w, a) && (a, b) in w.bound
    ensures IsPast(w, b) && !Covered(w, a, b)
  {
    a, b := Aid(0, 1), Aid(1, 0);
    var w1 := Apply(Init(2), Spawn(0));
    var w2 := Apply(w1, Link(0, Linked, b));
    var w3 := Apply(w2, Deliver(LinkMsg(Linked, a, b)));
    w := Apply(w3, Spawn(1));
    assert w.net == multiset{};
    assert RunFrom(w3, [Spawn(1)], w);
    assert RunFrom(w2, [Deliver(LinkMsg(Linked, a, b)), Spawn(1)], w);
    assert RunFrom(w1, [Link(0, Linked, b), Deliver(LinkMsg(Linked, a, b)), Spawn(1)], w);
    steps := [Spawn(0), Link(0, Linked, b), Deliver(LinkMsg(Linked, a, b)), Spawn(1)];
    assert RunFrom(Init(2), steps, w);
  }

  /** A request for an incarnation that is still to come is answered as if it had already exited. */
  lemma EarlyRequestMisleads() returns (w: World, a: Aid, b: Aid)
    ensures Reachable(w) && IsLive(w, a) && (a, b) in w.told && IsLive(w, b)
  {
    hide Reachable;
    a, b := Aid(0, 1), Aid(1, 1);
    w := ReachableInit(2);
    w := ReachableStep(w, Spawn(0));
    w := ReachableStep(w, Link(0, Linked, b));
    w := ReachableStep(w, Deliver(LinkMsg(Linked, a, b)));
    w := ReachableStep(w, Deliver(AlreadyMsg(b, a)));
    w := ReachableStep(w, Spawn(1));
  }

  // ---------------------------------------------------------------- the actor object

  /** One actor object; a packet it sends is returned to the caller, which puts it in flight. */
  class BasicActor {
    const slot: nat
    var sid: nat
    var phase: Phase
    var links: set<Aid>
    var monitors: set<Aid>

    constructor (slot: nat)
      ensures this.slot == slot && State() == Actor(0, Free, {}, {})
    {
      this.slot, sid, phase, links, monitors := slot, 0, Free, {}, {};
    }

    function State(): Actor
      reads this
    {
      Actor(sid, phase, links, monitors)
    }

    function Me(): Aid
      reads this
    {
      Aid(slot, sid)
    }

    method UpdateAid()
      modifies this`sid
      ensures sid == old(sid) + 1
    {
      sid := sid + 1;
    }

    method Init()
      modifies this
      ensures State() == Renamed(old(State()), Live)
    {
      UpdateAid();
      phase := Live;
    }

    method AddLink(target: Aid)
      modifies this`links
      ensures links == old(links) + {target}
    {
      links := links + {target};
    }

    method RemoveLink(a: Aid)
      modifies this`links, this`monitors
      ensures links == old(links) - {a} && monitors == old(monitors) - {a}
    {
      links := links - {a};
      monitors := monitors - {a};
    }

    method Link(kind: LinkType, target: Aid) returns (p: Packet)
      modifies this
      ensures State() == WithLink(old(State()), kind, target)
      ensures p == LinkMsg(kind, old(Me()), target)
    {
      if kind == Linked {
        AddLink(target);
      } else {
        monitors := monitors + {target};
      }
      p := LinkMsg(kind, Me(), target);
    }

    /** Only a packet for the present incarnation is taken in; a link request for another one is answered. */
    method HandleRecv(p: Packet) returns (answer: seq<Packet>)
      modifies this
      ensures State() == if p.to == old(Me()) then Accepting(old(State()), p) else old(State())
      ensures answer == if p.LinkMsg? && p.to != old(Me()) then [AlreadyMsg(p.to, p.from)] else []
    {
      answer := [];
      if p.to == Me() {
        match p {
          case LinkMsg(_, from, _) => AddLink(from);
          case ExitMsg(from, _) => RemoveLink(from);
          case AlreadyMsg(_, _) =>
        }
      } else if p.LinkMsg? {
        answer := [AlreadyMsg(p.to, p.from)];
      }
    }

    /** Each link gets one exit notice, in whatever order the map is walked. */
    method SendExit(self: Aid) returns (out: seq<Packet>)
      ensures multiset(out) == Notices(self, links)
    {
      out := [];
      var rest, done := links, {};
      while rest != {}
        invariant rest + done == links && rest !! done
        invariant multiset(out) == Notices(self, done)
        decreases |rest|
      {
        var a :| a in rest;
        rest := rest - {a};
        NoticesGrow(self, done, a);
        out := out + [ExitMsg(self, a)];
        done := done + {a};
      }
    }

    method OnFree()
      modifies this
      ensures State() == Freed(old(State()))
    {
      phase, links, monitors := Free, {}, {};
    }

    /** The stackful actor's death: a new number, the notices, and back to the pool. */
    method FreeSelf() returns (out: seq<Packet>)
      modifies this
      ensures State() == Freed(Renamed(old(State()), Free))
      ensures multiset(out) == Notices(old(Me()), old(links))
    {
      var self := Me();
      UpdateAid();
      out := SendExit(self);
      OnFree();
    }

    /** The stackless actor first gives up its number and posts its own stop. */
    method Quit()
      modifies this
      ensures State() == Renamed(old(State()), Dying(old(sid)))
    {
      phase := Dying(sid);
      UpdateAid();
    }

    method Stop() returns (out: seq<Packet>)
      requires phase.Dying?
      modifies this
      ensures State() == Freed(old(State()))
      ensures multiset(out) == Notices(Aid(slot, old(phase).dead), old(links))
    {
      out := SendExit(Aid(slot, phase.dead));
      OnFree();
    }
  }

  // ---------------------------------------------------------------- objects that send packets to one another

  /** A request changes one actor, is put in flight, and is recorded. */
  lemma LinkIs(w: World, i: nat, kind: LinkType, target: Aid)
    requires Enabled(w, Step.Link(i, kind, target))
    ensures var me := Aid(i, w.actors[i].sid);
            var back := if kind.Linked? && IsLive(w, target) then {(target, me)} else {};
            Apply(w, Step.Link(i, kind, target)) ==
            World(w.actors[i := WithLink(w.actors[i], kind, target)], w.net + multiset{LinkMsg(kind, me, target)},
                  w.told - {(me, target)}, w.bound + {(me, target)} + back,
                  w.early + (if target.sid > w.actors[target.slot].sid then {target} else {}),
                  w.watchers + (if kind.Monitored? then {(me, target)} else {}))
  {
  }

  /** A delivery changes one actor, and puts its answer in flight. */
  lemma DeliveryIs(w: World, p: Packet)
    requires Enabled(w, Deliver(p))
    ensures var i := p.to.slot;
            var mine := w.actors[i].sid == p.to.sid;
            var answer := if p.LinkMsg? && !mine then [AlreadyMsg(p.to, p.from)] else [];
            Apply(w, Deliver(p)) ==
            w.(actors := w.actors[i := if mine then Accepting(w.actors[i], p) else w.actors[i]],
               net := w.net - multiset{p} + multiset(answer),
               told := w.told + if mine && !p.LinkMsg? then {(p.to, p.from)} else {})
  {
  }

  /** Actor objects and the packets between them. The ghost fields are the records that the claims are about. */
  class Runtime {
    const actors: seq<BasicActor>
    var net: multiset<Packet>
    ghost var told: set<(Aid, Aid)>
    ghost var bound: set<(Aid, Aid)>
    ghost var early: set<Aid>
    ghost var watchers: set<(Aid, Aid)>

    ghost predicate Valid()
      reads this, actors
    {
      forall i :: 0 <= i < |actors| ==> actors[i].slot == i
    }

    ghost function States(): (s: seq<Actor>)
      reads this, actors
      ensures |s| == |actors| && forall i :: 0 <= i < |s| ==> s[i] == actors[i].State()
    {
      seq(|actors|, i requires 0 <= i < |actors| reads this, actors => actors[i].State())
    }

    /** The state of the step system that the objects are in. */
    ghost function Now(): World
      reads this, actors
    {
      World(States(), net, told, bound, early, watchers)
    }

    constructor (n: nat)
      ensures Valid() && Now() == Init(n) && |actors| == n && fresh(actors)
    {
      var all: seq<BasicActor> := [];
      for i := 0 to n
        invariant |all| == i && fresh(all)
        invariant forall j :: 0 <= j < i ==> all[j].slot == j && all[j].State() == Actor(0, Free, {}, {})
      {
        var a := new BasicActor(i);
        all := all + [a];
      }
      actors, net, told, bound, early, watchers := all, multiset{}, {}, {}, {}, {};
      new;
      assert States() == Init(n).actors;
    }

    /** An object is its own: what one does leaves the others alone. */
    twostate lemma OnlyOne(new i: nat)
      requires Valid() && old(Valid()) && i < |actors|
      requires forall j :: 0 <= j < |actors| && j != i ==> actors[j].State() == old(actors[j].State())
      ensures States() == old(States())[i := actors[i].State()]
    {
    }

    /** Each step of the system is what the methods of one object do, with the packets they return put in flight. */
    method Perform(st: Step)
      requires Valid() && Enabled(Now(), st)
      modifies this, actors
      ensures Valid() && Now() == Apply(old(Now()), st)
    {
      match st {
        case Spawn(i) =>
          actors[i].Init();
          OnlyOne(i);
        case Link(i, kind, target) =>
          PerformLink(i, kind, target);
        case Deliver(p) =>
          PerformDeliver(p);
        case Die(i) =>
          var out := actors[i].FreeSelf();
          net := net + multiset(out);
          OnlyOne(i);
        case Quit(i) =>
          actors[i].Quit();
          OnlyOne(i);
        case Stop(i) =>
          var out := actors[i].Stop();
          net := net + multiset(out);
          OnlyOne(i);
      }
    }

    method PerformLink(i: nat, kind: LinkType, target: Aid)
      requires Valid() && Enabled(Now(), Step.Link(i, kind, target))
      modifies this, actors
      ensures Valid() && Now() == Apply(old(Now()), Step.Link(i, kind, target))
    {
      ghost var w, me := Now(), Aid(i, actors[i].sid);
      LinkIs(w, i, kind, target);
      hide WithLink, IsLive, Apply;
      var p := Ask(i, kind, target);
      net := net + multiset{p};
      ghost var back := if kind.Linked? && IsLive(w, target) then {(target, me)} else {};
      told, bound := told - {(me, target)}, bound + {(me, target)} + back;
      early := early + (if target.sid > w.actors[target.slot].sid then {target} else {});
      watchers := watchers + (if kind.Monitored? then {(me, target)} else {});
    }

    method Ask(i: nat, kind: LinkType, target: Aid) returns (p: Packet)
      requires Valid() && i < |actors|
      modifies actors
      ensures Valid() && States() == old(States())[i := WithLink(old(States()[i]), kind, target)]
      ensures p == LinkMsg(kind, Aid(i, old(States()[i]).sid), target)
    {
      p := actors[i].Link(kind, target);
      OnlyOne(i);
    }

    method PerformDeliver(p: Packet)
      requires Valid() && Enabled(Now(), Deliver(p))
      modifies this, actors
      ensures Valid() && Now() == Apply(old(Now()), Deliver(p))
    {
      ghost var w := Now();
      DeliveryIs(w, p);
      hide Apply, Accepting;
      var answer := Hand(p);
      net := net - multiset{p} + multiset(answer);
      told := told + (if w.actors[p.to.slot].sid == p.to.sid && !p.LinkMsg? then {(p.to, p.from)} else {});
    }

    method Hand(p: Packet) returns (answer: seq<Packet>)
      requires Valid() && p.to.slot < |actors|
      modifies actors
      ensures var c := old(States()[p.to.slot]);
              var mine := c.sid == p.to.sid;
              && Valid() && States() == old(States())[p.to.slot := if mine then Accepting(c, p) else c]
              && answer == if p.LinkMsg? && !mine then [AlreadyMsg(p.to, p.from)] else []
    {
      answer := actors[p.to.slot].HandleRecv(p);
      OnlyOne(p.to.slot);
    }

    /** Every run of the step system is one that the objects can take. */
    method Run(steps: seq<Step>, ghost end: World)
      requires Valid() && RunFrom(Now(), steps, end)
      modifies this, actors
      ensures Valid() && Now() == end
    {
      hide Apply, Enabled;
      assert steps[0..] == steps;
      for i := 0 to |steps|
        invariant Valid() && RunFrom(Now(), steps[i..], end)
      {
        assert steps[i..][1..] == steps[i + 1..];
        Perform(steps[i]);
      }
    }
  }

  lemma NoticesGrow(self: Aid, done: set<Aid>, a: Aid)
    requires a !in done
    ensures Notices(self, done + {a}) == Notices(self, done) + multiset{ExitMsg(self, a)}
  {
    var more, fewer := Notices(self, done + {a}), Notices(self, done);
    assert forall p :: more[p] == (fewer + multiset{ExitMsg(self, a)})[p];
  }
}
