/**
 The waits of the stackless actor. Each registers a handler and returns, so
 nothing stops an actor from having several; all of them share one timer and
 one match list. What overlapping waits can still rely on is stated apart from
 what holds when they do not overlap.
 */
module StacklessActors {
  import opened CoroutineActors
  import opened Ids
  import opened MailboxSpec
  import opened Mailboxes
  import opened Sequences
  import opened ThreadActors

  datatype Kind = RecvKind | ResKind | WaitKind

  /** A wait and the handler that it registers or posts. */
  datatype Wait = Wait(kind: Kind, n: nat)

  /** A timer callback that has not run yet, with the handler bound into it. */
  datatype Callback = Callback(sid: nat, wait: Wait)

  /** The handlers registered now, at most one of a kind. */
  datatype Handlers = Handlers(recv: Option<Wait>, res: Option<Wait>, wait: Option<Wait>) {
    function Of(k: Kind): Option<Wait> {
      match k
      case RecvKind => recv
      case ResKind => res
      case WaitKind => wait
    }

    function With(k: Kind, w: Option<Wait>): Handlers {
      match k
      case RecvKind => this.(recv := w)
      case ResKind => this.(res := w)
      case WaitKind => this.(wait := w)
    }

    predicate Has(w: Wait) {
      Of(w.kind) == Some(w)
    }

    predicate Idle() {
      recv.None? && res.None? && wait.None?
    }

    predicate Single() {
      (recv.Some? ==> res.None? && wait.None?) && (res.Some? ==> wait.None?)
    }

    predicate Sorted() {
      && (recv.Some? ==> recv.value.kind == RecvKind)
      && (res.Some? ==> res.value.kind == ResKind)
      && (wait.Some? ==> wait.value.kind == WaitKind)
    }
  }

  /**
   However waits overlap: a handler that was called is not registered any more,
   and the current callback was not called before and finds its slot taken.
   */
  ghost predicate CalledOnce(
    begun: set<Wait>, called: map<Wait, Value>, hs: Handlers, timers: set<Callback>, aborted: set<Callback>,
    tmrSid: nat)
  {
    && hs.Sorted()
    && (forall w :: w in called ==> w in begun && !hs.Has(w))
    && (forall w :: hs.Has(w) ==> w in begun)
    && (forall t :: t in timers ==> t.sid <= tmrSid && t.wait in begun)
    && (forall t :: t in aborted ==> t.sid < tmrSid)
    && (forall t, u :: t in timers && u in timers && t.sid == u.sid ==> t == u)
    && (forall t :: t in timers && t.sid == tmrSid ==> t.wait !in called && hs.Of(t.wait.kind).Some?)
  }

  /** One wait at a time: each was called or is the one registered, with its deadline if it has one. */
  ghost predicate NoneLost(
    begun: set<Wait>, called: map<Wait, Value>, hs: Handlers, timers: set<Callback>, tmrSid: nat, bounded: bool)
  {
    && hs.Single()
    && (forall w :: w in begun ==> w in called || hs.Has(w))
    && (forall t :: t in timers && t.sid == tmrSid ==> hs.Has(t.wait))
    && (bounded && !hs.Idle() ==> exists t :: t in timers && t.sid == tmrSid)
  }

  /** A wait with a deadline takes the timer over, so that the callbacks before it are late. */
  lemma TimerTakenOver(
    begun: set<Wait>, called: map<Wait, Value>, hs: Handlers, timers: set<Callback>, aborted: set<Callback>,
    tmrSid: nat, w: Wait)
    requires CalledOnce(begun, called, hs, timers, aborted, tmrSid) && w !in begun
    ensures var more := timers + {Callback(tmrSid + 1, w)};
            CalledOnce(begun + {w}, called, hs.With(w.kind, Some(w)), more, aborted + timers, tmrSid + 1)
  {
  }

  /** When waits do not overlap, the handler called is the only one there was. */
  lemma NoneLostByTimer(
    begun: set<Wait>, called: map<Wait, Value>, hs: Handlers, timers: set<Callback>, tmrSid: nat, bounded: bool,
    t: Callback)
    requires NoneLost(begun, called, hs, timers, tmrSid, bounded) && t in timers
    requires forall u :: u in timers && u.sid == t.sid ==> u == t
    ensures t.sid == tmrSid ==> hs.Has(t.wait) && hs.With(t.wait.kind, None).Idle()
    ensures t.sid == tmrSid ==>
            NoneLost(begun, called[t.wait := Nothing], hs.With(t.wait.kind, None), timers - {t}, tmrSid, bounded)
    ensures t.sid != tmrSid ==> NoneLost(begun, called, hs, timers - {t}, tmrSid, bounded)
  {
    if t.sid != tmrSid && bounded && !hs.Idle() {
      var u :| u in timers && u.sid == tmrSid;
      assert u in timers - {t};
    }
  }

  /** The current callback empties the slot of its kind and calls its own handler for the first time. */
  lemma CalledByTimer(
    begun: set<Wait>, called: map<Wait, Value>, hs: Handlers, timers: set<Callback>, aborted: set<Callback>,
    tmrSid: nat, t: Callback)
    requires CalledOnce(begun, called, hs, timers, aborted, tmrSid) && t in timers && t.sid == tmrSid
    ensures t !in aborted && t.wait !in called && hs.Of(t.wait.kind).Some?
    ensures CalledOnce(begun, called[t.wait := Nothing], hs.With(t.wait.kind, None), timers - {t}, aborted, tmrSid)
  {
  }

  /** Everything that happens to the waits of an actor. */
  datatype Op =
    | BeginRecv(w: Wait, types: seq<Match>, tmo: Timeout)
    | BeginResponse(w: Wait, res: Response, tmo: Timeout)
    | BeginSleep(w: Wait)
    | Arrives(src: Recv, msg: Msg)
    | Responds(to: Response, body: Msg)
    | Fires(t: Callback, error: bool)
  {
    function Begun(): set<Wait> {
      if BeginRecv? || BeginResponse? || BeginSleep? then {w} else {}
    }

    predicate Fits() {
      && (BeginRecv? ==> w.kind == RecvKind)
      && (BeginResponse? ==> w.kind == ResKind)
      && (BeginSleep? ==> w.kind == WaitKind)
    }
  }

  class StacklessActor {
    const mb: Mailbox
    var hs: Handlers
    var recvingRes: Response
    var currMatch: seq<Match>
    var tmrSid: nat
    var timers: set<Callback>
    var aborted: set<Callback>
    var called: map<Wait, Value>
    ghost var begun: set<Wait>
    ghost var bounded: bool
    /** No wait was ever begun while another was registered. */
    ghost var serial: bool

    ghost predicate Accounted()
      reads this`begun, this`called, this`hs, this`timers, this`aborted, this`tmrSid, this`serial, this`bounded
    {
      && CalledOnce(begun, called, hs, timers, aborted, tmrSid)
      && (serial ==> NoneLost(begun, called, hs, timers, tmrSid, bounded))
    }

    ghost predicate Valid()
      reads this, mb
    {
      && mb.Valid()
      && Accounted()
      && (serial && hs.recv.Some? ==> PopIndex(mb.recvQue, currMatch).None?)
      && (serial && hs.res.Some? ==> recvingRes.id !in mb.responses)
    }

    /** The current callback is bound to this wait. */
    ghost predicate HasDeadline(w: Wait)
      reads this`timers, this`tmrSid
    {
      Callback(tmrSid, w) in timers
    }

    twostate predicate SameTimer()
      reads this`timers, this`tmrSid
    {
      timers == old(timers) && tmrSid == old(tmrSid)
    }

    constructor (cacheMatchSize: nat)
      ensures Valid() && fresh(mb) && begun == {} && hs.Idle() && serial && mb.recvQue == [] && mb.responses == map[]
      ensures called == map[] && timers == {}
    {
      mb := new Mailbox(cacheMatchSize);
      hs, recvingRes, currMatch := Handlers(None, None, None), NO_RESPONSE, [];
      tmrSid, timers, aborted, called := 0, {}, {}, map[];
      begun, bounded, serial := {}, false, true;
    }

    /** A wait that is answered as it begins: its handler is posted. */
    method Answer(w: Wait, v: Value)
      requires Accounted() && w !in begun
      modifies this`begun, this`called, this`serial
      ensures Accounted() && begun == old(begun) + {w} && called == old(called)[w := v]
      ensures serial == (old(serial) && hs.Idle())
    {
      begun, called, serial := begun + {w}, called[w := v], serial && hs.Idle();
    }

    method StartTimer(w: Wait)
      requires Accounted() && w !in begun
      modifies this`timers, this`aborted, this`tmrSid, this`begun, this`hs, this`serial, this`bounded
      ensures tmrSid == old(tmrSid) + 1 && timers == old(timers) + {Callback(tmrSid, w)} && bounded
      ensures Accounted() && begun == old(begun) + {w} && hs == old(hs).With(w.kind, Some(w))
      ensures serial == (old(serial) && old(hs).Idle())
    {
      TimerTakenOver(begun, called, hs, timers, aborted, tmrSid, w);
      aborted := aborted + timers;
      tmrSid := tmrSid + 1;
      timers := timers + {Callback(tmrSid, w)};
      assert Callback(tmrSid, w) in timers;
      hide CalledOnce;
      serial, bounded := serial && hs.Idle(), true;
      begun, hs := begun + {w}, hs.With(w.kind, Some(w));
    }

    /** A handler registered in the place of whatever its slot held. */
    method Register(w: Wait)
      requires Accounted() && w !in begun
      modifies this`begun, this`hs, this`serial, this`bounded
      ensures Accounted() && begun == old(begun) + {w} && hs == old(hs).With(w.kind, Some(w))
      ensures serial == (old(serial) && old(hs).Idle()) && !bounded
    {
      serial, bounded := serial && hs.Idle(), false;
      begun, hs := begun + {w}, hs.With(w.kind, Some(w));
    }

    /** A receive whose handler is posted with the best match, or with nothing when polling, or else registered. */
    method Recv(w: Wait, types: seq<Match>, tmo: Timeout)
      requires Valid() && w !in begun && w.kind == RecvKind
      modifies this, mb
      ensures Valid() && begun == old(begun) + {w} && serial == (old(serial) && old(hs).Idle())
      ensures mb.responses == old(mb.responses) && mb.waitReply == old(mb.waitReply) && recvingRes == old(recvingRes)
      ensures var i := PopIndex(old(mb.recvQue), types);
              if i.Some? then
                && i.value < |old(mb.recvQue)| && hs == old(hs) && SameTimer() && currMatch == old(currMatch)
                && called == old(called)[w := Received(old(mb.recvQue)[i.value].src, old(mb.recvQue)[i.value].msg)]
                && mb.recvQue == RemoveAt(old(mb.recvQue), i.value)
              else if tmo.Poll? then
                && mb.recvQue == old(mb.recvQue) && hs == old(hs) && SameTimer() && currMatch == old(currMatch)
                && called == old(called)[w := Nothing]
              else
                && mb.recvQue == old(mb.recvQue) && called == old(called) && currMatch == types
                && hs == old(hs).(recv := Some(w)) && tmrSid == old(tmrSid) + (if tmo.After? then 1 else 0)
                && timers == old(timers) + (if tmo.After? then {Callback(tmrSid, w)} else {})
    {
      hide CalledOnce, NoneLost;
      var r := mb.Pop(types);
      if r.Some? {
        Answer(w, Received(r.value.0, r.value.1));
        return;
      }
      if tmo == Poll {
        Answer(w, Nothing);
        return;
      }
      if tmo == After {
        StartTimer(w);
      } else {
        Register(w);
      }
      currMatch := types;
    }

    /** A response wait, likewise. */
    method RecvResponse(w: Wait, res: Response, tmo: Timeout)
      requires Valid() && w !in begun && w.kind == ResKind
      modifies this, mb
      ensures Valid() && begun == old(begun) + {w} && serial == (old(serial) && old(hs).Idle())
      ensures mb.recvQue == old(mb.recvQue) && mb.waitReply == old(mb.waitReply) && currMatch == old(currMatch)
      ensures var h := Holder(mb.recvQue, AwaitedSlot(res));
              if res.id in old(mb.responses) then
                && called == old(called)[w := Responded(old(mb.responses)[res.id].0, old(mb.responses)[res.id].1)]
                && hs == old(hs) && SameTimer() && mb.responses == old(mb.responses) - {res.id}
                && recvingRes == old(recvingRes)
              else if h.Some? then
                && called == old(called)[w := Responded(StandIn(res, h.value), h.value.msg)]
                && hs == old(hs) && SameTimer() && mb.responses == old(mb.responses) && recvingRes == old(recvingRes)
              else if tmo.Poll? then
                && called == old(called)[w := Nothing] && hs == old(hs) && SameTimer()
                && mb.responses == old(mb.responses) && recvingRes == old(recvingRes)
              else
                && called == old(called) && mb.responses == old(mb.responses) && recvingRes == res
                && hs == old(hs).(res := Some(w)) && tmrSid == old(tmrSid) + (if tmo.After? then 1 else 0)
                && timers == old(timers) + (if tmo.After? then {Callback(tmrSid, w)} else {})
    {
      hide CalledOnce, NoneLost;
      var r := mb.PopResponse(res);
      if r.Some? {
        Answer(w, Responded(r.value.0, r.value.1));
        return;
      }
      if tmo == Poll {
        Answer(w, Nothing);
        return;
      }
      if tmo == After {
        StartTimer(w);
      } else {
        Register(w);
      }
      recvingRes := res;
    }

    /** Sleeps: only the timer ends this wait. */
    method WaitFor(w: Wait)
      requires Valid() && w !in begun && w.kind == WaitKind
      modifies this
      ensures Valid() && begun == old(begun) + {w} && called == old(called) && serial == (old(serial) && old(hs).Idle())
      ensures hs == old(hs).(wait := Some(w)) && tmrSid == old(tmrSid) + 1
              && timers == old(timers) + {Callback(tmrSid, w)}
      ensures currMatch == old(currMatch) && recvingRes == old(recvingRes)
    {
      hide CalledOnce, NoneLost;
      StartTimer(w);
    }

    /**
     A callback that is late or cancelled does nothing; the current one calls its
     handler, which was not called before.
     */
    method HandleTimeout(t: Callback, error: bool)
      requires Valid() && t in timers && (error ==> t in aborted)
      modifies this
      ensures Valid() && begun == old(begun) && timers == old(timers) - {t} && serial == old(serial)
              && tmrSid == old(tmrSid) && recvingRes == old(recvingRes)
      ensures if t.sid == old(tmrSid) then
                && old(hs).Of(t.wait.kind).Some? && hs == old(hs).With(t.wait.kind, None)
                && t.wait !in old(called) && called == old(called)[t.wait := Nothing]
                && (serial ==> old(hs).Has(t.wait) && hs.Idle())
                && currMatch == (if t.wait.kind.WaitKind? then old(currMatch) else [])
              else
                hs == old(hs) && called == old(called) && currMatch == old(currMatch)
    {
      if t.sid == tmrSid {
        CalledByTimer(begun, called, hs, timers, aborted, tmrSid, t);
      }
      if serial {
        NoneLostByTimer(begun, called, hs, timers, tmrSid, bounded, t);
      }
      timers := timers - {t};
      hide NoneLost;
      if !error && t.sid == tmrSid {
        hide CalledOnce;
        hs := hs.With(t.wait.kind, None);
        if !t.wait.kind.WaitKind? {
          currMatch := [];
        }
        called := called[t.wait := Nothing];
      }
    }

    /** A handler that an arrival calls; whatever deadline there was is gone with it. */
    method Call(k: Kind, v: Value)
      requires Accounted() && hs.Of(k).Some?
      modifies this`hs, this`called, this`tmrSid, this`aborted
      ensures Accounted() && hs == old(hs).With(k, None) && called == old(called)[old(hs).Of(k).value := v]
      ensures tmrSid == old(tmrSid) + 1 && forall w :: !HasDeadline(w)
    {
      var w := hs.Of(k).value;
      hs := hs.With(k, None);
      tmrSid := tmrSid + 1;
      aborted := aborted + timers;
      called := called[w := v];
    }

    /**
     An arrival other than a response is queued, and a registered receive tries
     again. If waits do not overlap, it finds exactly this arrival, if it is wanted.
     */
    method HandleRecv(src: Recv, msg: Msg)
      requires Valid()
      modifies this, mb
      ensures Valid() && begun == old(begun) && serial == old(serial) && timers == old(timers)
      ensures var e := Entry(old(mb.nextId), src, msg);
              var q := Pushed(old(mb.recvQue), e);
              var i := PopIndex(q, old(currMatch));
              && mb.responses == old(mb.responses) && recvingRes == old(recvingRes)
              && mb.waitReply == RepliesAfter(old(mb.waitReply), src)
              && (if old(hs).recv.Some? && i.Some? then
                    && i.value < |q| && mb.recvQue == RemoveAt(q, i.value) && hs == old(hs).(recv := None)
                    && currMatch == [] && tmrSid == old(tmrSid) + 1
                    && called == old(called)[old(hs).recv.value := Received(q[i.value].src, q[i.value].msg)]
                  else
                    && mb.recvQue == q && hs == old(hs) && called == old(called) && currMatch == old(currMatch)
                    && tmrSid == old(tmrSid))
              && (serial && old(hs).recv.Some? ==>
                    (i.Some? <==> Wanted(e, old(currMatch))) && (i.Some? ==> q[i.value] == e))
    {
      hide CalledOnce, NoneLost;
      Queue(mb, src, msg);
      if hs.recv.Some? {
        ghost var e := Entry(old(mb.nextId), src, msg);
        if serial {
          ArrivalWakes(old(mb.recvQue), e, currMatch);
        }
        RetryRecv(Pushed(old(mb.recvQue), e));
      }
    }

    /** A response is kept, and a registered response wait tries again; a registered receive does not. */
    method HandleResponse(res: Response, msg: Msg)
      requires Valid()
      modifies this, mb
      ensures Valid() && begun == old(begun) && serial == old(serial) && timers == old(timers)
      ensures mb.recvQue == old(mb.recvQue) && mb.waitReply == old(mb.waitReply) && currMatch == old(currMatch)
      ensures var was := old(mb.responses);
              var rs := if res.id in was then was else was[res.id := (res, msg)];
              var id := old(recvingRes).id;
              var h := Holder(mb.recvQue, AwaitedSlot(old(recvingRes)));
              if old(hs).res.Some? && id in rs then
                && mb.responses == rs - {id} && hs == old(hs).(res := None) && tmrSid == old(tmrSid) + 1
                && called == old(called)[old(hs).res.value := Responded(rs[id].0, rs[id].1)]
              else if old(hs).res.Some? && h.Some? then
                && mb.responses == rs && hs == old(hs).(res := None) && tmrSid == old(tmrSid) + 1
                && var r := StandIn(old(recvingRes), h.value);
                   called == old(called)[old(hs).res.value := Responded(r, h.value.msg)]
              else
                && mb.responses == rs && hs == old(hs) && called == old(called) && recvingRes == old(recvingRes)
                && tmrSid == old(tmrSid)
    {
      hide CalledOnce, NoneLost;
      mb.PushResponse(res, msg);
      if hs.res.Some? {
        RetryResponse();
      }
    }

    method RetryRecv(ghost q: seq<Entry>)
      requires mb.Valid() && Accounted() && hs.recv.Some? && mb.recvQue == q
      modifies mb, this`hs, this`called, this`tmrSid, this`aborted, this`currMatch
      ensures mb.Valid() && Accounted() && mb.responses == old(mb.responses) && mb.waitReply == old(mb.waitReply)
      ensures var i := PopIndex(q, old(currMatch));
              if i.Some? then
                && i.value < |q| && mb.recvQue == RemoveAt(q, i.value) && hs == old(hs).(recv := None)
                && currMatch == [] && tmrSid == old(tmrSid) + 1
                && called == old(called)[old(hs).recv.value := Received(q[i.value].src, q[i.value].msg)]
              else
                && mb.recvQue == q && hs == old(hs) && called == old(called) && currMatch == old(currMatch)
                && tmrSid == old(tmrSid)
    {
      hide CalledOnce, NoneLost;
      var r := mb.Pop(currMatch);
      if r.Some? {
        currMatch := [];
        Call(RecvKind, Received(r.value.0, r.value.1));
      }
    }

    method RetryResponse()
      requires mb.Valid() && Accounted() && hs.res.Some?
      modifies mb`responses, this`hs, this`called, this`tmrSid, this`aborted, this`recvingRes
      ensures mb.Valid() && Accounted()
      ensures var id := old(recvingRes).id;
              var h := Holder(mb.recvQue, AwaitedSlot(old(recvingRes)));
              if id in old(mb.responses) then
                && mb.responses == old(mb.responses) - {id} && hs == old(hs).(res := None)
                && tmrSid == old(tmrSid) + 1
                && called ==
                   old(called)[old(hs).res.value := Responded(old(mb.responses)[id].0, old(mb.responses)[id].1)]
              else if h.Some? then
                && mb.responses == old(mb.responses) && hs == old(hs).(res := None)
                && tmrSid == old(tmrSid) + 1
                && var r := StandIn(old(recvingRes), h.value);
                   called == old(called)[old(hs).res.value := Responded(r, h.value.msg)]
              else
                && mb.responses == old(mb.responses) && hs == old(hs) && called == old(called)
                && recvingRes == old(recvingRes) && tmrSid == old(tmrSid)
    {
      var r := mb.PopResponse(recvingRes);
      if r.Some? {
        recvingRes := NO_RESPONSE;
        Call(ResKind, Responded(r.value.0, r.value.1));
      }
    }

    // -------------------------------------------------------------- any event over any waits

    /** A callback can only run if it is outstanding, and reports an error only if it was cancelled. */
    predicate Possible(op: Op)
      reads this
    {
      op.Fires? ==> op.t in timers && (op.error ==> op.t in aborted)
    }

    /** Waits that were called are not registered, and what is registered or outstanding was begun. */
    ghost predicate Settled()
      reads this
    {
      && hs.Sorted()
      && (forall w :: hs.Has(w) ==> w in begun && w !in called)
      && (forall t :: t in timers ==> t.sid <= tmrSid && t.wait in begun)
    }

    /** The wait that an event is going to register, and whether with a deadline. */
    ghost function Registers(op: Op): Option<(Wait, bool)>
      reads this, mb
    {
      match op
      case BeginRecv(w, types, tmo) =>
        if PopIndex(mb.recvQue, types).Some? || tmo.Poll? then None else Some((w, tmo.After?))
      case BeginResponse(w, res, tmo) =>
        if res.id in mb.responses || Holder(mb.recvQue, AwaitedSlot(res)).Some? || tmo.Poll? then None
        else Some((w, tmo.After?))
      case BeginSleep(w) => Some((w, true))
      case _ => None
    }

    /** The kind of the registered handler that an arrival is going to call. */
    ghost function Calls(op: Op): Option<Kind>
      reads this, mb
    {
      match op
      case Arrives(src, msg) =>
        if hs.recv.Some? && PopIndex(Pushed(mb.recvQue, Entry(mb.nextId, src, msg)), currMatch).Some?
        then Some(RecvKind) else None
      case Responds(res, _) =>
        if hs.res.Some?
           && (recvingRes.id in mb.responses || recvingRes.id == res.id
               || Holder(mb.recvQue, AwaitedSlot(recvingRes)).Some?)
        then Some(ResKind) else None
      case _ => None
    }

    /** The wait whose handler a current callback is going to call. */
    ghost function TimesOut(op: Op): Option<Wait>
      reads this
    {
      if op.Fires? && op.t.sid == tmrSid then Some(op.t.wait) else None
    }

    /** Its handler can still be called. */
    ghost predicate Pending(w: Wait)
      reads this`hs, this`timers, this`tmrSid
    {
      hs.Has(w) || HasDeadline(w)
    }

    /** It was begun, was not called, and nothing is left that could call it. */
    ghost predicate Dropped(w: Wait)
      reads this`begun, this`called, this`hs, this`timers, this`tmrSid
    {
      w in begun && w !in called && !Pending(w)
    }

    /**
     When an event drops a wait. One that is registered and holds the timer is only
     dropped by a wait of its kind that takes the timer; one that is registered
     without it, by a wait of its kind or by the timeout of another; and one whose
     slot was taken already, by whatever takes or stops the timer before it runs.
     */
    ghost predicate Drops(op: Op, w: Wait)
      reads this, mb
    {
      var r := Registers(op);
      && w in begun && w !in called
      && if hs.Has(w) && HasDeadline(w) then
           r.Some? && r.value.0.kind == w.kind && r.value.1
         else if hs.Has(w) then
           || (r.Some? && r.value.0.kind == w.kind)
           || (TimesOut(op).Some? && TimesOut(op).value.kind == w.kind)
         else
           HasDeadline(w) && ((r.Some? && r.value.1) || Calls(op).Some?)
    }

    /**
     What any event does to every wait before it, however these overlap: whether
     its handler is called, whether it stays registered and whether it keeps the
     timer, each from what is known before the event.
     */
    twostate predicate AsForeseen(op: Op)
      reads this, mb
    {
      var r, k, t := old(Registers(op)), old(Calls(op)), old(TimesOut(op));
      && begun == old(begun) + op.Begun()
      && (forall w :: w in op.Begun() ==> w in called || hs.Has(w))
      && forall w :: w in old(begun) ==>
           && (w in called <==> w in old(called) || t == Some(w) || (k == Some(w.kind) && old(hs.Has(w))))
           && (hs.Has(w) <==>
                && old(hs.Has(w)) && k != Some(w.kind)
                && (r.Some? ==> r.value.0.kind != w.kind) && (t.Some? ==> t.value.kind != w.kind))
           && (HasDeadline(w) <==> old(HasDeadline(w)) && k.None? && t.None? && (r.Some? ==> !r.value.1))
    }

    /**
     What a registered handler waits for stays, except that the timeout of a response
     wait empties every match list.
     */
    twostate predicate StillWanted(op: Op)
      reads this, mb
    {
      var t := old(TimesOut(op));
      && (hs.recv.Some? && hs.recv == old(hs.recv) ==>
            currMatch == if t.Some? && t.value.kind == ResKind then [] else old(currMatch))
      && (hs.res.Some? && hs.res == old(hs.res) ==> recvingRes == old(recvingRes))
    }

    method Perform(op: Op)
      requires Valid() && op.Fits() && Possible(op) && begun !! op.Begun()
      modifies this, mb
      ensures Valid() && AsForeseen(op) && StillWanted(op)
      ensures forall w :: Dropped(w) <==> old(Dropped(w)) || old(Drops(op, w))
    {
      hide NoneLost, AsForeseen, StillWanted, Drops;
      match op {
        case Fires(_, _) => PerformTimeout(op);
        case Arrives(_, _) => PerformArrival(op);
        case Responds(_, _) => PerformArrival(op);
        case _ => PerformWait(op);
      }
      DroppedIf(op);
    }

    method PerformWait(op: Op)
      requires Valid() && op.Fits() && begun !! op.Begun() && (op.BeginRecv? || op.BeginResponse? || op.BeginSleep?)
      modifies this, mb
      ensures Valid() && AsForeseen(op) && StillWanted(op)
    {
      hide NoneLost, AsForeseen;
      assert Settled();
      hide CalledOnce;
      match op {
        case BeginRecv(w, types, tmo) => Recv(w, types, tmo);
        case BeginResponse(w, res, tmo) => RecvResponse(w, res, tmo);
        case BeginSleep(w) => WaitFor(w);
      }
      WaitForeseen(op);
    }

    twostate lemma WaitForeseen(op: Op)
      requires old(Settled()) && op.Fits() && (op.BeginRecv? || op.BeginResponse? || op.BeginSleep?)
      requires begun == old(begun) + {op.w} && op.w !in old(begun)
      requires var r := old(Registers(op));
               if r.None? then
                 op.w in called && called == old(called)[op.w := called[op.w]] && hs == old(hs) && SameTimer()
               else
                 && called == old(called) && hs == old(hs).With(op.w.kind, Some(op.w))
                 && tmrSid == old(tmrSid) + (if r.value.1 then 1 else 0)
                 && timers == old(timers) + (if r.value.1 then {Callback(tmrSid, op.w)} else {})
      ensures AsForeseen(op)
    {
      assert old(Registers(op)).Some? ==> old(Registers(op)).value.0 == op.w;
      assert old(Calls(op)).None? && old(TimesOut(op)).None?;
      hide Registers, Calls, TimesOut;
    }

    method PerformArrival(op: Op)
      requires Valid() && op.Fits() && (op.Arrives? || op.Responds?)
      modifies this, mb
      ensures Valid() && AsForeseen(op) && StillWanted(op)
    {
      hide NoneLost, AsForeseen;
      assert Settled();
      hide CalledOnce;
      match op {
        case Arrives(src, msg) => HandleRecv(src, msg);
        case Responds(res, msg) => HandleResponse(res, msg);
      }
      ArrivalForeseen(op);
    }

    twostate lemma ArrivalForeseen(op: Op)
      requires old(Settled()) && (op.Arrives? || op.Responds?) && begun == old(begun) && timers == old(timers)
      requires var k := old(Calls(op));
               if k.None? then
                 called == old(called) && hs == old(hs) && tmrSid == old(tmrSid)
               else
                 && old(hs).Of(k.value).Some? && hs == old(hs).With(k.value, None) && tmrSid == old(tmrSid) + 1
                 && var w := old(hs).Of(k.value).value; w in called && called == old(called)[w := called[w]]
      ensures AsForeseen(op)
    {
      assert old(Registers(op)).None? && old(TimesOut(op)).None?;
      hide Registers, Calls, TimesOut;
    }

    method PerformTimeout(op: Op)
      requires Valid() && op.Fires? && Possible(op)
      modifies this
      ensures Valid() && AsForeseen(op) && StillWanted(op)
    {
      hide NoneLost;
      HandleTimeout(op.t, op.error);
    }

    twostate lemma DroppedIf(op: Op)
      requires old(Accounted()) && Accounted() && AsForeseen(op) && old(Possible(op))
      ensures forall w :: Dropped(w) <==> old(Dropped(w)) || old(Drops(op, w))
    {
      hide NoneLost;
      assert old(Registers(op)).None? || (old(Calls(op)).None? && old(TimesOut(op)).None?);
      assert old(Calls(op)).None? || old(TimesOut(op)).None?;
      hide Registers, Calls;
      forall w ensures Dropped(w) <==> old(Dropped(w)) || old(Drops(op, w)) {
        if old(TimesOut(op)).Some? && old(HasDeadline(w)) {
          assert old(TimesOut(op)) == Some(w);
        }
      }
    }

    /**
     Dropping is final: whatever happens afterwards, the handler is never called.
     */
    method Run(ops: seq<Op>)
      requires Valid() && forall i :: 0 <= i < |ops| ==> ops[i].Fits() && begun !! ops[i].Begun()
      requires forall i, j :: 0 <= i < j < |ops| ==> ops[i].Begun() !! ops[j].Begun()
      modifies this, mb
      ensures Valid() && old(begun) <= begun
      ensures forall w :: old(Dropped(w)) ==> Dropped(w) && w !in called
    {
      hide NoneLost, CalledOnce, Registers, Calls, Drops;
      for i := 0 to |ops|
        invariant Valid() && old(begun) <= begun
        invariant forall j :: i <= j < |ops| ==> begun !! ops[j].Begun()
        invariant forall w :: old(Dropped(w)) ==> Dropped(w)
      {
        if Possible(ops[i]) {
          Perform(ops[i]);
        }
      }
    }
  }

  // ---------------------------------------------------------------- waits that overlap

  /**
   What a second wait does to a registered one as it begins. It leaves that one
   registered exactly when it is of another kind or is answered at once, and leaves
   it the deadline exactly when it has none itself or is answered at once. What
   happens to both later is stated below, and for any events by `Perform`.
   */
  method ReceiveOverOther(a: StacklessActor, w: Wait, u: Wait, types: seq<Match>, tmo: Timeout)
    requires a.Valid() && a.hs.Has(w) && u !in a.begun && u.kind == RecvKind
    modifies a, a.mb
    ensures var atOnce := PopIndex(old(a.mb.recvQue), types).Some? || tmo.Poll?;
            && a.Valid() && w !in a.called
            && (a.hs.Has(w) <==> w.kind != RecvKind || atOnce)
            && (old(a.HasDeadline(w)) ==> (a.HasDeadline(w) <==> tmo.Forever? || atOnce))
  {
    hide NoneLost;
    a.Recv(u, types, tmo);
  }

  method ResponseWaitOverOther(a: StacklessActor, w: Wait, u: Wait, res: Response, tmo: Timeout)
    requires a.Valid() && a.hs.Has(w) && u !in a.begun && u.kind == ResKind
    modifies a, a.mb
    ensures var atOnce := res.id in old(a.mb.responses) || Holder(old(a.mb.recvQue), AwaitedSlot(res)).Some?
            || tmo.Poll?;
            && a.Valid() && w !in a.called
            && (a.hs.Has(w) <==> w.kind != ResKind || atOnce)
            && (old(a.HasDeadline(w)) ==> (a.HasDeadline(w) <==> tmo.Forever? || atOnce))
  {
    hide NoneLost;
    a.RecvResponse(u, res, tmo);
  }

  /** A sleep always has a deadline. */
  method SleepOverOther(a: StacklessActor, w: Wait, u: Wait)
    requires a.Valid() && a.hs.Has(w) && u !in a.begun && u.kind == WaitKind
    modifies a
    ensures a.Valid() && w !in a.called && !a.HasDeadline(w)
    ensures a.hs.Has(w) <==> w.kind != WaitKind
  {
    hide NoneLost;
    a.WaitFor(u);
  }

  /**
   An arrival takes the deadline of a registered wait without calling it exactly when
   it calls a handler of another kind.
   */
  method ArrivalOverOther(a: StacklessActor, w: Wait, op: Op)
    requires a.Valid() && a.hs.Has(w) && a.HasDeadline(w) && op.Fits() && (op.Arrives? || op.Responds?)
    modifies a, a.mb
    ensures a.Valid() && (w in a.called <==> old(a.Calls(op)) == Some(w.kind))
    ensures w !in a.called && !a.HasDeadline(w) <==> old(a.Calls(op)).Some? && old(a.Calls(op)) != Some(w.kind)
    ensures w !in a.called ==> a.hs.Has(w)
  {
    a.PerformArrival(op);
  }

  /**
   A timeout takes a wait out of its slot without calling it exactly when it is the
   timeout of another wait of its kind.
   */
  method TimeoutOverOther(a: StacklessActor, u: Wait, t: Callback, error: bool)
    requires a.Valid() && a.hs.Has(u) && t in a.timers && (error ==> t in a.aborted)
    modifies a
    ensures a.Valid()
    ensures !a.hs.Has(u) && u !in a.called <==> t.sid == old(a.tmrSid) && t.wait.kind == u.kind && t.wait != u
  {
    a.HandleTimeout(t, error);
  }

  /**
   A receive without a deadline leaves a wait of another kind its deadline as it
   begins, and takes it when it ends: the first arrival that the receive wants
   makes the timer late, and the other wait stays registered without one.
   */
  method LaterReceiveTakesDeadline(a: StacklessActor, w: Wait, u: Wait, types: seq<Match>, src: Recv, msg: Msg)
    requires a.Valid() && a.hs.Has(w) && a.HasDeadline(w) && w.kind != RecvKind
    requires u !in a.begun && u.kind == RecvKind && PopIndex(a.mb.recvQue, types).None?
    modifies a, a.mb
    ensures var wanted := Wanted(Entry(old(a.mb.nextId), src, msg), types);
            && a.Valid() && w !in a.called && a.hs.Has(w)
            && (u in a.called <==> wanted) && (a.HasDeadline(w) <==> !wanted)
  {
    hide NoneLost;
    ghost var q := a.mb.recvQue;
    a.Recv(u, types, Forever);
    ArrivalWakes(q, Entry(a.mb.nextId, src, msg), types);
    a.HandleRecv(src, msg);
  }

  /** The callback of a receive whose slot a later one has taken calls the earlier handler and drops the later one. */
  method EarlierTimeoutDropsLater(a: StacklessActor, w: Wait, u: Wait, types: seq<Match>)
    requires a.Valid() && a.hs.Has(w) && a.HasDeadline(w) && w.kind == RecvKind
    requires u !in a.begun && u.kind == RecvKind && PopIndex(a.mb.recvQue, types).None?
    modifies a, a.mb
    ensures a.Valid() && w in a.called && a.Dropped(u)
  {
    hide NoneLost;
    a.Recv(u, types, Forever);
    a.HandleTimeout(Callback(a.tmrSid, w), false);
  }

  /**
   A receive stays registered and loses its match list by a timeout exactly when the
   current callback is a response wait's.
   */
  method TimeoutUnderReceive(a: StacklessActor, w: Wait, t: Callback, error: bool)
    requires a.Valid() && a.hs.recv == Some(w) && a.currMatch != []
    requires t in a.timers && (error ==> t in a.aborted)
    modifies a
    ensures a.Valid()
    ensures a.hs.recv == Some(w) && a.currMatch != old(a.currMatch) <==>
            t.sid == old(a.tmrSid) && t.wait.kind == ResKind
    ensures a.hs.recv == Some(w) && a.currMatch != old(a.currMatch) ==> a.currMatch == []
  {
    hide NoneLost, CalledOnce;
    a.HandleTimeout(t, error);
  }

  /**
   The timeout of the response wait empties the match list of the receive, which is
   then called with a message it excluded.
   */
  method OverlapForgetsMatch(a: StacklessActor, w: Wait, u: Wait, res: Response, aid: Aid, msg: Msg)
    requires a.Valid() && a.begun == {} && a.hs.Idle() && a.mb.recvQue == [] && a.mb.responses == map[]
             && a.timers == {}
    requires w.kind == RecvKind && u.kind == ResKind && msg.typ != 7
    modifies a, a.mb
    ensures a.Valid() && w in a.called && a.called[w] == Received(FromAid(aid), msg)
  {
    a.Recv(w, [7], Forever);
    a.RecvResponse(u, res, After);
    a.HandleTimeout(Callback(a.tmrSid, u), false);
    a.HandleRecv(FromAid(aid), msg);
  }
}
