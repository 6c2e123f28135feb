/**
 The receive state machine of a thread-mapped actor. A user thread blocks on a
 promise; the actor's strand settles it with a message, a response or a timeout.
 Timer callbacks may run late, after the wait they belong to is over.
 */
module ThreadActors {
  import opened Ids
  import opened MailboxSpec
  import opened Mailboxes
  import opened Sequences

  /** How long a wait may last: a poll never blocks. */
  datatype Timeout = Poll | After | Forever

  /** What a promise is settled with; a default value reports that nothing arrived in time. */
  datatype Value = Nothing | Received(src: Recv, msg: Msg) | Responded(res: Response, body: Msg)

  /** A timer callback that has been registered and has not run yet. */
  datatype Timer = Timer(sid: nat, forRecv: bool, promise: nat)

  /** The tag of an arriving pack; links are handled by module LinkProtocol. */
  datatype Tag = Queued(src: Recv) | FromLink(linker: Aid) | FromResponder(res: Response)

  ghost predicate Waiting(t: Timer, recvP: Option<nat>, resP: Option<nat>) {
    if t.forRecv then recvP == Some(t.promise) else resP == Some(t.promise)
  }

  ghost predicate PromisesAgree(issued: set<nat>, settled: map<nat, Value>, recvP: Option<nat>, resP: Option<nat>) {
    && (forall p :: p in issued <==> p in settled || recvP == Some(p) || resP == Some(p))
    && (recvP.Some? ==> recvP.value !in settled)
    && (resP.Some? ==> resP.value !in settled)
  }

  ghost predicate TimersAgree(
    timers: set<Timer>, aborted: set<Timer>, tmrSid: nat,
    recvP: Option<nat>, resP: Option<nat>, bounded: bool)
  {
    && (forall t :: t in timers ==> t.sid <= tmrSid)
    && (forall t :: t in aborted ==> t.sid < tmrSid)
    && (forall t, u :: t in timers && u in timers && t.sid == u.sid ==> t == u)
    && (forall t :: t in timers && t.sid == tmrSid ==> Waiting(t, recvP, resP))
    && (bounded && (recvP.Some? || resP.Some?) ==> exists t :: t in timers && t.sid == tmrSid)
  }

  /** Queues a message by where it comes from. */
  method Queue(mb: Mailbox, src: Recv, msg: Msg)
    requires mb.Valid()
    modifies mb
    ensures mb.Valid() && mb.responses == old(mb.responses)
    ensures mb.recvQue == Pushed(old(mb.recvQue), Entry(old(mb.nextId), src, msg))
    ensures mb.waitReply == RepliesAfter(old(mb.waitReply), src)
  {
    match src {
      case FromAid(aid) => mb.PushAid(aid, msg);
      case FromRequest(id, requester) => mb.PushRequest(id, requester, msg);
      case FromExit(code, dead) => mb.PushExit(code, dead, msg);
    }
  }

  class ThreadActor {
    const mb: Mailbox
    var recvP: Option<nat>
    var resP: Option<nat>
    var recvingRes: Response
    var currMatch: seq<Match>
    var tmrSid: nat
    var timers: set<Timer>
    /** Callbacks whose timer was cancelled or restarted: they may still report expiry. */
    var aborted: set<Timer>
    var settled: map<nat, Value>
    /** Every promise a wait was ever started with, and whether the current wait has a deadline. */
    ghost var issued: set<nat>
    ghost var bounded: bool

    /**
     Promises: every promise ever issued is either settled or waited on, never
     both. Timers: the callback whose number is current belongs to the promise
     now waited on, and a wait with a deadline has such a callback. Messages:
     nothing queued is wanted by the current receive, and the awaited response
     has not arrived.
     */
    ghost predicate Valid()
      reads this, mb
    {
      && mb.Valid()
      && (recvP.None? || resP.None?)
      && PromisesAgree(issued, settled, recvP, resP)
      && TimersAgree(timers, aborted, tmrSid, recvP, resP, bounded)
      && (recvP.Some? ==> PopIndex(mb.recvQue, currMatch).None?)
      && (resP.Some? ==> recvingRes.id !in mb.responses)
    }

    constructor (cacheMatchSize: nat)
      ensures Valid() && fresh(mb) && issued == {} && mb.recvQue == [] && mb.responses == map[]
    {
      mb := new Mailbox(cacheMatchSize);
      recvP, resP, recvingRes, currMatch := None, None, Response(0xFFFF_FFFF, NO_AID, NO_AID, NO_SVC), [];
      tmrSid, timers, aborted, settled := 0, {}, {}, map[];
      issued, bounded := {}, false;
    }

    /** Setting a promise twice throws; the precondition says it never happens. */
    method SetValue(p: nat, v: Value)
      requires p !in settled
      modifies this`settled
      ensures settled == old(settled)[p := v]
    {
      settled := settled[p := v];
    }

    /** The promise is settled at once with the best match, or the thread stays blocked on it. */
    method TryRecv(p: nat, types: seq<Match>, tmo: Timeout)
      requires Valid() && recvP.None? && resP.None? && p !in issued
      modifies this, mb
      ensures Valid() && issued == old(issued) + {p}
      ensures mb.responses == old(mb.responses) && mb.waitReply == old(mb.waitReply)
      ensures var i := PopIndex(old(mb.recvQue), types);
              if i.Some? then
                && i.value < |old(mb.recvQue)|
                && settled == old(settled)[p := Received(old(mb.recvQue)[i.value].src, old(mb.recvQue)[i.value].msg)]
                && mb.recvQue == RemoveAt(old(mb.recvQue), i.value)
                && recvP.None?
              else
                && mb.recvQue == old(mb.recvQue)
                && settled == (if tmo.Poll? then old(settled)[p := Nothing] else old(settled))
                && recvP == (if tmo.Poll? then None else Some(p))
                && (recvP.Some? ==> currMatch == types && bounded == tmo.After?)
      ensures resP.None?
    {
      hide PromisesAgree, TimersAgree;
      var r := mb.Pop(types);
      if r.Some? {
        SettleAtOnce(p, Received(r.value.0, r.value.1));
      } else if tmo == Poll {
        SettleAtOnce(p, Nothing);
      } else {
        Block(true, p, tmo);
        currMatch := types;
      }
    }

    /** A promise that is settled as its wait starts. */
    method SettleAtOnce(p: nat, v: Value)
      requires recvP.None? && resP.None? && p !in issued && PromisesAgree(issued, settled, recvP, resP)
      modifies this`issued, this`settled
      ensures issued == old(issued) + {p} && settled == old(settled)[p := v]
      ensures PromisesAgree(issued, settled, recvP, resP)
    {
      issued := issued + {p};
      SetValue(p, v);
    }

    /** The thread is left blocked on its promise, with a timer if the wait has a deadline. */
    method Block(forRecv: bool, p: nat, tmo: Timeout)
      requires recvP.None? && resP.None? && p !in issued && !tmo.Poll?
      requires PromisesAgree(issued, settled, recvP, resP) && TimersAgree(timers, aborted, tmrSid, recvP, resP, bounded)
      modifies this`issued, this`recvP, this`resP, this`bounded, this`timers, this`aborted, this`tmrSid
      ensures issued == old(issued) + {p} && bounded == tmo.After?
      ensures recvP == (if forRecv then Some(p) else None) && resP == (if forRecv then None else Some(p))
      ensures PromisesAgree(issued, settled, recvP, resP) && TimersAgree(timers, aborted, tmrSid, recvP, resP, bounded)
    {
      if tmo == After {
        StartTimer(forRecv, p);
      }
      issued, bounded := issued + {p}, tmo == After;
      if forRecv {
        recvP := Some(p);
      } else {
        resP := Some(p);
      }
    }

    /** The promise is settled at once with the response or with a queued exit notice, or the thread stays blocked. */
    method TryResponse(p: nat, res: Response, tmo: Timeout)
      requires Valid() && recvP.None? && resP.None? && p !in issued
      modifies this, mb
      ensures Valid() && issued == old(issued) + {p}
      ensures mb.recvQue == old(mb.recvQue) && mb.waitReply == old(mb.waitReply)
      ensures var h := Holder(mb.recvQue, AwaitedSlot(res));
              if res.id in old(mb.responses) then
                && settled == old(settled)[p := Responded(old(mb.responses)[res.id].0, old(mb.responses)[res.id].1)]
                && mb.responses == old(mb.responses) - {res.id} && resP.None?
              else if h.Some? then
                && settled == old(settled)[p := Responded(StandIn(res, h.value), h.value.msg)]
                && mb.responses == old(mb.responses) && resP.None?
              else
                && mb.responses == old(mb.responses)
                && settled == (if tmo.Poll? then old(settled)[p := Nothing] else old(settled))
                && resP == (if tmo.Poll? then None else Some(p))
                && (resP.Some? ==> recvingRes == res && bounded == tmo.After?)
      ensures recvP.None?
    {
      hide PromisesAgree, TimersAgree;
      var r := mb.PopResponse(res);
      if r.Some? {
        SettleAtOnce(p, Responded(r.value.0, r.value.1));
      } else if tmo == Poll {
        SettleAtOnce(p, Nothing);
      } else {
        Block(false, p, tmo);
        recvingRes := res;
      }
    }

    /** Starting the one timer of the actor cancels every callback still outstanding. */
    method StartTimer(forRecv: bool, p: nat)
      requires TimersAgree(timers, aborted, tmrSid, None, None, bounded)
      modifies this`timers, this`aborted, this`tmrSid
      ensures tmrSid == old(tmrSid) + 1 && timers == old(timers) + {Timer(tmrSid, forRecv, p)}
      ensures aborted == old(aborted) + old(timers)
      ensures var recv, res := if forRecv then Some(p) else None, if forRecv then None else Some(p);
              TimersAgree(timers, aborted, tmrSid, recv, res, true)
    {
      aborted := aborted + timers;
      tmrSid := tmrSid + 1;
      timers := timers + {Timer(tmrSid, forRecv, p)};
      assert Timer(tmrSid, forRecv, p) in timers;
    }

    /** A wait completed by an arrival makes its timer callback stale. */
    method RetireTimer()
      requires TimersAgree(timers, aborted, tmrSid, recvP, resP, bounded)
      modifies this`aborted, this`tmrSid
      ensures tmrSid == old(tmrSid) + 1 && aborted == old(aborted) + timers
      ensures TimersAgree(timers, aborted, tmrSid, None, None, bounded)
    {
      tmrSid := tmrSid + 1;
      aborted := aborted + timers;
    }

    /**
     A timer callback runs, perhaps long after its wait ended; it reports an
     error only if its timer was cancelled. It times out the wait only if it is
     the current one, and then its promise is the one waited on; any other
     callback changes nothing.
     */
    method HandleTimeout(t: Timer, error: bool)
      requires Valid() && t in timers && (error ==> t in aborted)
      modifies this
      ensures Valid() && issued == old(issued) && timers == old(timers) - {t} && aborted == old(aborted)
      ensures if t.sid == old(tmrSid) then
                Waiting(t, old(recvP), old(resP)) && recvP.None? && resP.None?
                && settled == old(settled)[t.promise := Nothing]
              else settled == old(settled) && recvP == old(recvP) && resP == old(resP)
    {
      timers := timers - {t};
      if !error && t.sid == tmrSid {
        if t.forRecv {
          assert Some(t.promise) == recvP;
          recvP, currMatch := None, [];
        } else {
          assert Some(t.promise) == resP;
          resP, recvingRes := None, Response(0xFFFF_FFFF, NO_AID, NO_AID, NO_SVC);
        }
        SetValue(t.promise, Nothing);
      }
    }

    /**
     A pack addressed to this actor arrives. A blocked receive is completed by
     exactly the first arrival that it wants, which never stays queued; a blocked
     response wait is completed by the response it awaits.
     */
    method HandleRecv(tag: Tag, msg: Msg)
      requires Valid()
      modifies this, mb
      ensures Valid() && issued == old(issued)
      ensures tag.FromLink? ==>
                unchanged(mb) && settled == old(settled) && recvP == old(recvP) && resP == old(resP)
      ensures tag.Queued? ==>
                var e := Entry(old(mb.nextId), tag.src, msg);
                && resP == old(resP) && mb.responses == old(mb.responses)
                && mb.waitReply == RepliesAfter(old(mb.waitReply), tag.src)
                && if old(recvP).Some? && Wanted(e, old(currMatch)) then
                     && recvP.None? && settled == old(settled)[old(recvP).value := Received(tag.src, msg)]
                     && mb.recvQue == Vacated(old(mb.recvQue), SlotOf(e))
                   else
                     recvP == old(recvP) && settled == old(settled) && mb.recvQue == Pushed(old(mb.recvQue), e)
      ensures tag.FromResponder? ==>
                var h := Holder(mb.recvQue, AwaitedSlot(old(recvingRes)));
                var was := old(mb.responses);
                var rs := if tag.res.id in was then was else was[tag.res.id := (tag.res, msg)];
                && mb.recvQue == old(mb.recvQue) && mb.waitReply == old(mb.waitReply) && recvP == old(recvP)
                && if old(resP).None? then
                     resP.None? && settled == old(settled) && mb.responses == rs
                   else if tag.res.id == old(recvingRes).id then
                     && resP.None? && settled == old(settled)[old(resP).value := Responded(tag.res, msg)]
                     && mb.responses == was
                   else if h.Some? then
                     && resP.None? && mb.responses == rs
                     && var r := StandIn(old(recvingRes), h.value);
                        settled == old(settled)[old(resP).value := Responded(r, h.value.msg)]
                   else
                     resP == old(resP) && settled == old(settled) && mb.responses == rs
    {
      match tag {
        case FromLink(_) =>
        case FromResponder(res) =>
          mb.PushResponse(res, msg);
          WakeResponse(res, msg);
        case Queued(src) =>
          Queue(mb, src, msg);
          WakeRecv(old(mb.recvQue), Entry(old(mb.nextId), src, msg));
      }
    }

    method WakeRecv(ghost q: seq<Entry>, ghost e: Entry)
      requires mb.Valid() && mb.recvQue == Pushed(q, e)
      requires PromisesAgree(issued, settled, recvP, resP) && TimersAgree(timers, aborted, tmrSid, recvP, resP, bounded)
      requires recvP.Some? ==> resP.None? && PopIndex(q, currMatch).None?
      modifies this`recvP, this`currMatch, this`settled, this`tmrSid, this`aborted, mb
      ensures mb.Valid() && mb.responses == old(mb.responses) && mb.waitReply == old(mb.waitReply)
      ensures PromisesAgree(issued, settled, recvP, resP) && TimersAgree(timers, aborted, tmrSid, recvP, resP, bounded)
      ensures recvP.Some? ==> recvP == old(recvP) && PopIndex(mb.recvQue, currMatch).None?
      ensures if old(recvP).Some? && Wanted(e, old(currMatch)) then
                && recvP.None? && settled == old(settled)[old(recvP).value := Received(e.src, e.msg)]
                && mb.recvQue == Vacated(q, SlotOf(e))
              else
                recvP == old(recvP) && settled == old(settled) && mb.recvQue == Pushed(q, e)
    {
      if recvP.Some? {
        ArrivalWakes(q, e, currMatch);
        var r := mb.Pop(currMatch);
        if r.None? {
          return;
        }
        SetValue(recvP.value, Received(r.value.0, r.value.1));
        RetireTimer();
        recvP, currMatch := None, [];
      }
    }

    method WakeResponse(ghost res: Response, ghost msg: Msg)
      requires mb.Valid() && res.id in mb.responses
      requires resP.Some? ==> (recvingRes.id in mb.responses <==> recvingRes.id == res.id)
      requires PromisesAgree(issued, settled, recvP, resP) && TimersAgree(timers, aborted, tmrSid, recvP, resP, bounded)
      requires resP.Some? ==> recvP.None?
      modifies this`resP, this`recvingRes, this`settled, this`tmrSid, this`aborted, mb`responses
      ensures mb.Valid()
      ensures PromisesAgree(issued, settled, recvP, resP) && TimersAgree(timers, aborted, tmrSid, recvP, resP, bounded)
      ensures resP.Some? ==> resP == old(resP) && recvingRes == old(recvingRes) && recvingRes.id !in mb.responses
      ensures var h := Holder(mb.recvQue, AwaitedSlot(old(recvingRes)));
              if old(resP).None? then
                resP.None? && settled == old(settled) && mb.responses == old(mb.responses)
              else if res.id == old(recvingRes).id then
                && resP.None? && mb.responses == old(mb.responses) - {res.id}
                && var r := old(mb.responses)[res.id];
                   settled == old(settled)[old(resP).value := Responded(r.0, r.1)]
              else if h.Some? then
                && resP.None? && mb.responses == old(mb.responses)
                && settled == old(settled)[old(resP).value := Responded(StandIn(old(recvingRes), h.value), h.value.msg)]
              else
                resP == old(resP) && settled == old(settled) && mb.responses == old(mb.responses)
    {
      if resP.Some? {
        var r := mb.PopResponse(recvingRes);
        if r.None? {
          return;
        }
        SetValue(resP.value, Responded(r.value.0, r.value.1));
        RetireTimer();
        resP, recvingRes := None, Response(0xFFFF_FFFF, NO_AID, NO_AID, NO_SVC);
      }
    }
  }
}
