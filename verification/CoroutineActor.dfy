/**
 The waits of the stackful actor. Its coroutine is suspended in one wait at a
 time, and a single timer, which every new deadline restarts, can resume it.
 */
module CoroutineActors {
  import opened Ids
  import opened MailboxSpec
  import opened Mailboxes
  import opened Sequences
  import opened ThreadActors

  /** A timer callback that has not run yet, and the wait it was started for. */
  datatype Deadline = Deadline(sid: nat, wait: nat)

  const NO_RESPONSE := Response(0xFFFF_FFFF, NO_AID, NO_AID, NO_SVC)

  /** Every wait ever begun has ended with one outcome, or is the one going on. */
  ghost predicate OutcomesAgree(begun: set<nat>, ended: map<nat, Value>, now: Option<nat>) {
    && (forall p :: p in begun <==> p in ended || now == Some(p))
    && (now.Some? ==> now.value !in ended)
  }

  /**
   The callback whose number is current belongs to the wait going on, and a wait with
   a deadline has such a callback.
   */
  ghost predicate DeadlinesAgree(
    timers: set<Deadline>, aborted: set<Deadline>, tmrSid: nat, now: Option<nat>, bounded: bool)
  {
    && (forall t :: t in timers ==> t.sid <= tmrSid)
    && (forall t :: t in aborted ==> t.sid < tmrSid)
    && (forall t, u :: t in timers && u in timers && t.sid == u.sid ==> t == u)
    && (forall t :: t in timers && t.sid == tmrSid ==> now == Some(t.wait))
    && (bounded && now.Some? ==> exists t :: t in timers && t.sid == tmrSid)
  }

  /** An arrival that a pending receive wants is taken at once; otherwise nothing queued is wanted still. */
  method TakeWanted(mb: Mailbox, types: seq<Match>, ghost q: seq<Entry>, ghost e: Entry)
    returns (r: Option<(Recv, Msg)>)
    requires mb.Valid() && mb.recvQue == Pushed(q, e) && PopIndex(q, types).None?
    modifies mb
    ensures mb.Valid() && mb.responses == old(mb.responses) && mb.waitReply == old(mb.waitReply)
    ensures if Wanted(e, types) then r == Some((e.src, e.msg)) && mb.recvQue == Vacated(q, SlotOf(e))
            else r == None && mb.recvQue == Pushed(q, e) && PopIndex(mb.recvQue, types).None?
  {
    ArrivalWakes(q, e, types);
    r := mb.Pop(types);
  }

  class StackfulActor {
    const mb: Mailbox
    var recving: bool
    var responsing: bool
    var recvingRes: Response
    var currMatch: seq<Match>
    var tmrSid: nat
    var timers: set<Deadline>
    var aborted: set<Deadline>
    /** The wait that the coroutine is suspended in, and how earlier ones ended. */
    var suspended: Option<nat>
    var ended: map<nat, Value>
    ghost var begun: set<nat>
    ghost var bounded: bool

    ghost predicate Valid()
      reads this, mb
    {
      && mb.Valid()
      && OutcomesAgree(begun, ended, suspended)
      && DeadlinesAgree(timers, aborted, tmrSid, suspended, bounded)
      && !(recving && responsing)
      && (recving ==> suspended.Some? && PopIndex(mb.recvQue, currMatch).None?)
      && (responsing ==> suspended.Some? && recvingRes.id !in mb.responses)
    }

    constructor (cacheMatchSize: nat)
      ensures Valid() && fresh(mb) && begun == {} && mb.recvQue == [] && mb.responses == map[]
    {
      mb := new Mailbox(cacheMatchSize);
      recving, responsing, recvingRes, currMatch := false, false, NO_RESPONSE, [];
      tmrSid, timers, aborted, suspended, ended := 0, {}, {}, None, map[];
      begun, bounded := {}, false;
    }

    method StartTimer(p: nat)
      requires DeadlinesAgree(timers, aborted, tmrSid, None, bounded)
      modifies this`timers, this`aborted, this`tmrSid
      ensures tmrSid == old(tmrSid) + 1 && timers == old(timers) + {Deadline(tmrSid, p)}
      ensures DeadlinesAgree(timers, aborted, tmrSid, Some(p), true)
    {
      aborted := aborted + timers;
      tmrSid := tmrSid + 1;
      timers := timers + {Deadline(tmrSid, p)};
      assert Deadline(tmrSid, p) in timers;
    }

    /**
     Returns at once with the best match or, when polling, with nothing; or suspends
     with nothing wanted in the queue.
     */
    method Recv(p: nat, types: seq<Match>, tmo: Timeout)
      requires Valid() && suspended.None? && p !in begun
      modifies this, mb
      ensures Valid() && begun == old(begun) + {p} && !responsing
      ensures mb.responses == old(mb.responses) && mb.waitReply == old(mb.waitReply)
      ensures var i := PopIndex(old(mb.recvQue), types);
              if i.Some? then
                && i.value < |old(mb.recvQue)| && suspended.None?
                && ended == old(ended)[p := Received(old(mb.recvQue)[i.value].src, old(mb.recvQue)[i.value].msg)]
                && mb.recvQue == RemoveAt(old(mb.recvQue), i.value)
              else
                && mb.recvQue == old(mb.recvQue)
                && ended == (if tmo.Poll? then old(ended)[p := Nothing] else old(ended))
                && suspended == (if tmo.Poll? then None else Some(p))
                && (suspended.Some? ==> recving && currMatch == types && bounded == tmo.After?)
    {
      hide OutcomesAgree, DeadlinesAgree;
      var r := mb.Pop(types);
      if r.Some? {
        Return(p, Received(r.value.0, r.value.1));
      } else if tmo == Poll {
        Return(p, Nothing);
      } else {
        recving, currMatch := true, types;
        Suspend(p, tmo);
      }
    }

    /**
     Returns at once with the response or a queued exit notice of the awaited actor, or
     suspends with the response absent.
     */
    method RecvResponse(p: nat, res: Response, tmo: Timeout)
      requires Valid() && suspended.None? && p !in begun
      modifies this, mb
      ensures Valid() && begun == old(begun) + {p} && !recving
      ensures mb.recvQue == old(mb.recvQue) && mb.waitReply == old(mb.waitReply)
      ensures var h := Holder(mb.recvQue, AwaitedSlot(res));
              if res.id in old(mb.responses) then
                && ended == old(ended)[p := Responded(old(mb.responses)[res.id].0, old(mb.responses)[res.id].1)]
                && mb.responses == old(mb.responses) - {res.id} && suspended.None?
              else if h.Some? then
                && ended == old(ended)[p := Responded(StandIn(res, h.value), h.value.msg)]
                && mb.responses == old(mb.responses) && suspended.None?
              else
                && mb.responses == old(mb.responses)
                && ended == (if tmo.Poll? then old(ended)[p := Nothing] else old(ended))
                && suspended == (if tmo.Poll? then None else Some(p))
                && (suspended.Some? ==> responsing && recvingRes == res && bounded == tmo.After?)
    {
      hide OutcomesAgree, DeadlinesAgree;
      recvingRes := res;
      var r := mb.PopResponse(res);
      if r.Some? {
        Return(p, Responded(r.value.0, r.value.1));
      } else if tmo == Poll {
        Return(p, Nothing);
      } else {
        responsing := true;
        Suspend(p, tmo);
      }
    }

    /** A wait that ends as it begins. */
    method Return(p: nat, v: Value)
      requires suspended.None? && p !in begun && OutcomesAgree(begun, ended, suspended)
      modifies this`begun, this`ended
      ensures begun == old(begun) + {p} && ended == old(ended)[p := v] && OutcomesAgree(begun, ended, suspended)
    {
      begun, ended := begun + {p}, ended[p := v];
    }

    /** The coroutine yields, with a timer if the wait has a deadline. */
    method Suspend(p: nat, tmo: Timeout)
      requires suspended.None? && p !in begun && !tmo.Poll?
      requires OutcomesAgree(begun, ended, suspended) && DeadlinesAgree(timers, aborted, tmrSid, suspended, bounded)
      modifies this`begun, this`suspended, this`bounded, this`timers, this`aborted, this`tmrSid
      ensures begun == old(begun) + {p} && suspended == Some(p) && bounded == tmo.After?
      ensures OutcomesAgree(begun, ended, suspended) && DeadlinesAgree(timers, aborted, tmrSid, suspended, bounded)
    {
      if tmo == After {
        StartTimer(p);
      }
      begun, suspended, bounded := begun + {p}, Some(p), tmo == After;
    }

    /** Sleeps: no arrival ends this wait. */
    method Wait(p: nat)
      requires Valid() && suspended.None? && p !in begun
      modifies this
      ensures Valid() && begun == old(begun) + {p} && suspended == Some(p) && ended == old(ended)
      ensures bounded && !recving && !responsing
    {
      Suspend(p, After);
    }

    /** The coroutine goes on behind its wait, and whichever flag the wait had set is reset. */
    method Resume(p: nat, v: Value)
      requires suspended == Some(p) && p !in ended
      requires OutcomesAgree(begun, ended, suspended)
      modifies this`suspended, this`ended, this`recving, this`responsing
      ensures suspended.None? && ended == old(ended)[p := v] && !recving && !responsing
      ensures OutcomesAgree(begun, ended, suspended)
    {
      recving, responsing := false, false;
      suspended, ended := None, ended[p := v];
    }

    /** A callback that is late or cancelled changes nothing; the current one ends the wait it was started for. */
    method HandleTimeout(t: Deadline, error: bool)
      requires Valid() && t in timers && (error ==> t in aborted)
      modifies this
      ensures Valid() && begun == old(begun) && timers == old(timers) - {t}
      ensures if t.sid == old(tmrSid) then
                old(suspended) == Some(t.wait) && suspended.None? && ended == old(ended)[t.wait := Nothing]
              else suspended == old(suspended) && ended == old(ended)
    {
      timers := timers - {t};
      if !error && t.sid == tmrSid {
        Resume(t.wait, Nothing);
      }
    }

    /**
     An arrival for this actor: a suspended receive is ended by exactly the first
     one it wants, a response wait by its response, and a sleep by neither.
     */
    method HandleRecv(tag: Tag, msg: Msg)
      requires Valid()
      modifies this, mb
      ensures Valid() && begun == old(begun)
      ensures tag.FromLink? ==> unchanged(mb) && ended == old(ended) && suspended == old(suspended)
      ensures tag.Queued? ==>
                var e := Entry(old(mb.nextId), tag.src, msg);
                && mb.responses == old(mb.responses) && mb.waitReply == RepliesAfter(old(mb.waitReply), tag.src)
                && if old(recving) && Wanted(e, old(currMatch)) then
                     && old(suspended).Some? && suspended.None?
                     && ended == old(ended)[old(suspended).value := Received(tag.src, msg)]
                     && mb.recvQue == Vacated(old(mb.recvQue), SlotOf(e))
                   else
                     suspended == old(suspended) && ended == old(ended) && mb.recvQue == Pushed(old(mb.recvQue), e)
      ensures tag.FromResponder? ==>
                var h := Holder(mb.recvQue, AwaitedSlot(old(recvingRes)));
                var was := old(mb.responses);
                var rs := if tag.res.id in was then was else was[tag.res.id := (tag.res, msg)];
                && mb.recvQue == old(mb.recvQue) && mb.waitReply == old(mb.waitReply)
                && if !old(responsing) then
                     suspended == old(suspended) && ended == old(ended) && mb.responses == rs
                   else if tag.res.id == old(recvingRes).id then
                     && old(suspended).Some? && suspended.None? && mb.responses == was
                     && ended == old(ended)[old(suspended).value := Responded(tag.res, msg)]
                   else if h.Some? then
                     && old(suspended).Some? && suspended.None? && mb.responses == rs
                     && var r := StandIn(old(recvingRes), h.value);
                        ended == old(ended)[old(suspended).value := Responded(r, h.value.msg)]
                   else
                     suspended == old(suspended) && ended == old(ended) && mb.responses == rs
    {
      match tag {
        case FromLink(_) =>
        case FromResponder(res) =>
          mb.PushResponse(res, msg);
          if responsing {
            WakeResponse(res, msg);
          }
        case Queued(src) =>
          Queue(mb, src, msg);
          if recving {
            WakeRecv(old(mb.recvQue), Entry(old(mb.nextId), src, msg));
          }
      }
    }

    method WakeRecv(ghost q: seq<Entry>, ghost e: Entry)
      requires mb.Valid() && mb.recvQue == Pushed(q, e) && recving && suspended.Some? && PopIndex(q, currMatch).None?
      requires OutcomesAgree(begun, ended, suspended) && DeadlinesAgree(timers, aborted, tmrSid, suspended, bounded)
      modifies this`suspended, this`ended, this`recving, this`responsing, this`currMatch, this`tmrSid, this`aborted, mb
      ensures mb.Valid() && mb.responses == old(mb.responses) && mb.waitReply == old(mb.waitReply)
      ensures OutcomesAgree(begun, ended, suspended) && DeadlinesAgree(timers, aborted, tmrSid, suspended, bounded)
      ensures if Wanted(e, old(currMatch)) then
                && suspended.None? && !recving && !responsing
                && ended == old(ended)[old(suspended).value := Received(e.src, e.msg)]
                && mb.recvQue == Vacated(q, SlotOf(e))
              else
                && suspended == old(suspended) && ended == old(ended) && recving == old(recving)
                && responsing == old(responsing)
                && currMatch == old(currMatch) && mb.recvQue == Pushed(q, e) && PopIndex(mb.recvQue, currMatch).None?
    {
      var r := TakeWanted(mb, currMatch, q, e);
      if r.Some? {
        currMatch := [];
        RetireTimer();
        Resume(suspended.value, Received(r.value.0, r.value.1));
      }
    }

    method RetireTimer()
      requires DeadlinesAgree(timers, aborted, tmrSid, suspended, bounded)
      modifies this`aborted, this`tmrSid
      ensures tmrSid == old(tmrSid) + 1 && DeadlinesAgree(timers, aborted, tmrSid, None, bounded)
    {
      tmrSid := tmrSid + 1;
      aborted := aborted + timers;
    }

    method WakeResponse(ghost res: Response, ghost msg: Msg)
      requires mb.Valid() && res.id in mb.responses && responsing && !recving && suspended.Some?
      requires recvingRes.id in mb.responses <==> recvingRes.id == res.id
      requires OutcomesAgree(begun, ended, suspended) && DeadlinesAgree(timers, aborted, tmrSid, suspended, bounded)
      modifies this`suspended, this`ended, this`recving, this`responsing, this`recvingRes, this`tmrSid, this`aborted,
               mb`responses
      ensures mb.Valid() && !recving
      ensures OutcomesAgree(begun, ended, suspended) && DeadlinesAgree(timers, aborted, tmrSid, suspended, bounded)
      ensures var h := Holder(mb.recvQue, AwaitedSlot(old(recvingRes)));
              if res.id == old(recvingRes).id then
                && suspended.None? && !responsing && mb.responses == old(mb.responses) - {res.id}
                && var r := old(mb.responses)[res.id];
                   ended == old(ended)[old(suspended).value := Responded(r.0, r.1)]
              else if h.Some? then
                && suspended.None? && !responsing && mb.responses == old(mb.responses)
                && var r := StandIn(old(recvingRes), h.value);
                   ended == old(ended)[old(suspended).value := Responded(r, h.value.msg)]
              else
                && mb.responses == old(mb.responses)
                && suspended == old(suspended) && ended == old(ended) && responsing == old(responsing)
                && recvingRes == old(recvingRes) && recvingRes.id !in mb.responses
    {
      var r := mb.PopResponse(recvingRes);
      if r.Some? {
        recvingRes := NO_RESPONSE;
        RetireTimer();
        Resume(suspended.value, Responded(r.value.0, r.value.1));
      }
    }
  }
}
