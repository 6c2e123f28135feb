/** The double-buffered sender: one buffer is being written to the network while the other collects. */
module TcpSender {
  import opened Codec

  class Sender {
    const buffers: array<seq<Byte>>
    var sendingBuffer: nat
    var standbyBuffer: nat
    var sending: bool
    var closed: bool
    var waitingEnd: bool
    var waiting: bool
    var shut: bool
    var wire: seq<Byte>
    ghost var taken: seq<Byte>
    ghost var failed: bool
    ghost var waitedEarly: bool

    function InFlight(): seq<Byte>
      requires Shape()
      reads this, buffers
    {
      buffers[sendingBuffer]
    }

    function Standby(): seq<Byte>
      requires Shape()
      reads this, buffers
    {
      buffers[standbyBuffer]
    }

    ghost predicate Shape()
      reads this
    {
      buffers.Length == 2 && sendingBuffer < 2 && standbyBuffer < 2 && sendingBuffer != standbyBuffer
    }

    /**
     Without a failed write, the wire, the buffer in flight and the standby buffer
     hold what was taken on, in order; a closing socket is shut as soon as, and not
     before, no write is under way. Whoever waits after closing waits for a write.
     */
    ghost predicate Valid()
      reads this, buffers
    {
      && Shape()
      && (!sending ==> InFlight() == [])
      && (!failed ==> wire + InFlight() + Standby() == taken)
      && (!failed && !sending ==> Standby() == [])
      && (shut <==> closed && !sending)
      && (waiting ==> waitingEnd && ((sending && closed) || waitedEarly))
    }

    constructor ()
      ensures Valid() && fresh(buffers) && wire == taken == [] && !sending && !closed && !failed && !waitingEnd
              && !waiting && !waitedEarly
    {
      buffers := new seq<Byte>[2](_ => []);
      sendingBuffer, standbyBuffer := 0, 1;
      sending, closed, waitingEnd, waiting, shut := false, false, false, false, false;
      wire, taken, failed, waitedEarly := [], [], false, false;
    }

    method BeginSend()
      requires Shape() && !sending
      modifies this`sending, this`sendingBuffer, this`standbyBuffer
      ensures Shape() && sending && InFlight() == old(Standby()) && Standby() == old(InFlight())
    {
      sending := true;
      sendingBuffer, standbyBuffer := standbyBuffer, sendingBuffer;
    }

    /** A send after the connection was shut would fail its write, so it is not part of this model. */
    method Send(header: seq<Byte>, body: seq<Byte>)
      requires Valid() && !shut
      modifies this, buffers
      ensures Valid() && sending == (old(sending) || !waitingEnd)
      ensures if old(waitingEnd) then InFlight() == old(InFlight()) && Standby() == old(Standby())
              else if old(sending) then InFlight() == old(InFlight()) && Standby() == old(Standby()) + header + body
              else InFlight() == old(Standby()) + header + body && Standby() == []
      ensures taken == if old(waitingEnd) then old(taken) else old(taken) + header + body
      ensures wire == old(wire) && failed == old(failed) && closed == old(closed) && !shut
      ensures waitingEnd == old(waitingEnd) && waiting == old(waiting) && waitedEarly == old(waitedEarly)
    {
      if !waitingEnd {
        buffers[standbyBuffer] := buffers[standbyBuffer] + header;
        buffers[standbyBuffer] := buffers[standbyBuffer] + body;
        taken := taken + header + body;
        Appended(wire, old(InFlight()), old(Standby()), header, body);
        if !sending {
          BeginSend();
        }
      }
    }

    /** The write of the buffer in flight ends; of a failed one, some first bytes may have gone out. */
    method EndSend(error: bool, partly: nat)
      requires Valid() && sending
      modifies this, buffers
      ensures Valid() && failed == (old(failed) || error)
      ensures !error ==> wire == old(wire) + old(InFlight()) && InFlight() + Standby() == old(Standby())
      ensures sending == (!error && old(Standby()) != [])
      ensures sending ==> Standby() == []
      ensures taken == old(taken) && closed == old(closed) && waitingEnd == old(waitingEnd)
              && waitedEarly == old(waitedEarly)
      ensures waiting == (old(waiting) && !(closed && !sending))
    {
      sending := false;
      var gone := if error && partly < |InFlight()| then partly else |InFlight()|;
      wire := wire + InFlight()[..gone];
      failed := failed || error;
      buffers[sendingBuffer] := [];
      if !error && buffers[standbyBuffer] != [] {
        BeginSend();
      } else if closed {
        Close();
      }
      if closed && !sending {
        waiting := false;
      }
    }

    /** Shuts the socket now or, while a write is under way, when the last one ends. */
    method Close()
      requires Shape()
      modifies this`closed, this`shut
      ensures closed && shut == (old(shut) || !sending)
      ensures old(Valid()) ==> Valid()
    {
      closed := true;
      if !sending {
        shut := true;
      }
    }

    /** From now on nothing is taken on; the caller waits while a write is under way. */
    method WaitEnd()
      requires Valid()
      modifies this`waitingEnd, this`waiting, this`waitedEarly
      ensures Valid() && waitingEnd && waiting == (old(waiting) || sending)
              && waitedEarly == (old(waitedEarly) || !closed)
    {
      waitingEnd := true;
      waitedEarly := waitedEarly || !closed;
      if sending {
        waiting := true;
      }
    }

    /**
     Once sending stops, at most two writes put everything on the wire, and a closing
     socket is then shut. A waiter is released exactly when the last of these writes
     ends on a closed socket.
     */
    method Drain() returns (writes: nat)
      requires Valid() && !failed
      modifies this, buffers
      ensures Valid() && !failed && !sending && wire == taken == old(taken) && writes <= 2
      ensures old(closed) ==> shut && (old(sending) || !old(waitedEarly) ==> !waiting)
      ensures waiting <==> old(waiting) && !(old(sending) && old(closed))
    {
      writes := 0;
      while sending
        invariant Valid() && !failed && taken == old(taken) && closed == old(closed) && waitedEarly == old(waitedEarly)
        invariant sending ==> old(sending)
        invariant waiting <==> old(waiting) && !(!sending && old(sending) && closed)
        invariant writes + (if sending then 1 else 0) + (if Standby() != [] then 1 else 0) <= 2
        decreases sending, |Standby()|
      {
        EndSend(false, 0);
        writes := writes + 1;
      }
    }
  }

  /**
   A caller that waits before closing is left waiting when the last write ends
   before the close. The program closes first wherever it waits (socket.cpp:437,
   463, 508, 544 before 918), so it makes no such sequence of calls.
   */
  method EarlyWaiterIsForgotten() returns (s: Sender)
    ensures s.Valid() && s.waiting && s.shut && !s.sending && s.wire == s.taken
  {
    s := new Sender();
    s.Send([1], []);
    s.WaitEnd();
    s.EndSend(false, 0);
    s.Close();
  }

  lemma Appended(wire: seq<Byte>, inFlight: seq<Byte>, standby: seq<Byte>, header: seq<Byte>, body: seq<Byte>)
    ensures wire + inFlight + (standby + header + body) == wire + inFlight + standby + header + body
  {
  }
}
