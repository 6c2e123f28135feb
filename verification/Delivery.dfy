/**
 The way of a pack between processes: its tag is pushed behind its message, the
 message is framed, the frames go through the sender, and the receiver of the
 other process takes them off the stream and pops the tags.
 */
module Deliveries {
  import opened Codec
  import opened Fields
  import opened FrameParser
  import opened Messages
  import opened Tags
  import opened TcpSender
  import opened ZeroCopy

  /** A message on its way: nothing has been read from it. */
  function FrameOf(v: Value): Frame {
    Frame(v.type_, v.tagOffset, v.bytes)
  }

  function ValueOf(f: Frame): Value {
    Value(f.type_, f.tagOffset, f.body, 0)
  }

  /**
   A pack that is framed, parsed and popped is the pack that was sent, and the bytes
   behind it are left for the next.
   */
  lemma PackArrives(v: Value, b: TagBlock, rest: seq<Byte>)
    requires BlockFits(b) && v.read == 0 && |v.bytes| < U32_NIL
    requires |Pushed(v, b).bytes| <= MAX_MSG_SIZE
    ensures var f := FrameOf(Pushed(v, b));
            && f.Sendable()
            && DecodeFrame(EncodeFrame(f) + rest) == Whole(f, |EncodeFrame(f)|)
            && Pop(ValueOf(f)) == Popped.Tagged(b.(tag := OnWire(b.tag)), v.(tagOffset := |v.bytes|))
  {
    hide Pop, EncodeFrame, DecodeFrame, EncodeBlock;
    PopUndoesPush(v, b);
    var f := FrameOf(Pushed(v, b));
    FrameRoundTrip(f, rest);
    assert ValueOf(f) == Pushed(v, b);
  }

  lemma {:induction false} FramesSnoc(fs: seq<Frame>, f: Frame)
    requires AllSendable(fs) && f.Sendable()
    ensures AllSendable(fs + [f]) && EncodeFrames(fs + [f]) == EncodeFrames(fs) + EncodeFrame(f)
    decreases |fs|
  {
    hide EncodeFrame;
    if fs == [] {
      assert fs + [f] == [f] && [f][1..] == [];
    } else {
      FramesSnoc(fs[1..], f);
      assert (fs + [f])[1..] == fs[1..] + [f];
    }
  }

  /**
   The sending half of a socket: what is sent while there is no connection waits for
   the next send after there is one.
   */
  class Outlet {
    const skt: Sender
    var conn: bool
    var connCache: seq<Frame>
    /** What was sent since the last break, and how much the connection had taken before that. */
    ghost var accepted: seq<Frame>
    ghost var sent: seq<Frame>
    ghost var before: seq<Byte>

    ghost predicate Valid()
      reads this, skt, skt.buffers
    {
      && skt.Valid() && !skt.shut && !skt.waitingEnd
      && AllSendable(accepted) && AllSendable(sent) && AllSendable(connCache)
      && sent + connCache == accepted
      && skt.taken == before + EncodeFrames(sent)
    }

    constructor ()
      ensures Valid() && fresh(skt) && fresh(skt.buffers) && !conn && accepted == [] && connCache == []
      ensures skt.taken == skt.wire == before == [] && !skt.failed && !skt.sending && !skt.closed
    {
      skt := new Sender();
      conn, connCache := false, [];
      accepted, sent, before := [], [], [];
    }

    /** Writes the header into a local buffer, which it always fits, and hands header and body to the sender. */
    method SendMsg(f: Frame)
      requires skt.Valid() && !skt.shut && !skt.waitingEnd && f.Sendable()
      modifies skt, skt.buffers
      ensures skt.Valid() && !skt.shut && !skt.waitingEnd && skt.closed == old(skt.closed)
              && skt.failed == old(skt.failed)
      ensures skt.taken == old(skt.taken) + EncodeFrame(f)
    {
      HeaderLength(f);
      HeaderWritable(f);
      hide EncodeAll;
      var buf := new Byte[24];
      var zbuf := new ZeroCopyBuffer(buf, 0, 24);
      zbuf.WriteEach(HeaderFields(f));
      skt.Send(buf[0..zbuf.writePos], f.body);
      assert buf[0..zbuf.writePos] == EncodeHeader(f);
      assert old(skt.taken) + EncodeHeader(f) + f.body == old(skt.taken) + (EncodeHeader(f) + f.body);
    }

    /** Messages go out in the order they were sent, those that had to wait first. */
    method Send(f: Frame)
      requires Valid() && f.Sendable()
      modifies this`connCache, this`accepted, this`sent, skt, skt.buffers
      ensures Valid() && accepted == old(accepted) + [f]
      ensures if conn then connCache == [] && sent == accepted
              else connCache == old(connCache) + [f] && sent == old(sent)
      ensures skt.closed == old(skt.closed) && skt.failed == old(skt.failed)
    {
      hide EncodeFrame, EncodeFrames;
      if conn {
        while connCache != []
          invariant Valid() && accepted == old(accepted) && skt.closed == old(skt.closed)
                    && skt.failed == old(skt.failed)
          decreases |connCache|
        {
          SendFirst();
        }
        FramesSnoc(sent, f);
        SendMsg(f);
        accepted, sent := accepted + [f], sent + [f];
        assert before + EncodeFrames(old(sent)) + EncodeFrame(f) == before + (EncodeFrames(old(sent)) + EncodeFrame(f));
      } else {
        connCache := connCache + [f];
        accepted := accepted + [f];
      }
    }

    method SendFirst()
      requires Valid() && connCache != []
      modifies this`connCache, this`sent, skt, skt.buffers
      ensures Valid() && connCache == old(connCache)[1..] && sent == old(sent) + [old(connCache)[0]]
      ensures skt.closed == old(skt.closed) && skt.failed == old(skt.failed)
    {
      hide EncodeFrame, EncodeFrames;
      var f := connCache[0];
      assert f in connCache;
      FramesSnoc(sent, f);
      SendMsg(f);
      assert before + EncodeFrames(sent) + EncodeFrame(f) == before + (EncodeFrames(sent) + EncodeFrame(f));
      assert connCache == [f] + connCache[1..];
      sent, connCache := sent + [f], connCache[1..];
    }

    /** A new connection announces itself with a message that goes out behind those that waited. */
    method Connect(login: Frame)
      requires Valid() && login.Sendable()
      modifies this`conn, this`connCache, this`accepted, this`sent, skt, skt.buffers
      ensures Valid() && conn && connCache == [] && sent == accepted == old(accepted) + [login]
    {
      conn := true;
      Send(login);
    }

    /** A break drops what waited and what was not yet sent. */
    method OnNetErr()
      requires Valid()
      modifies this
      ensures Valid() && !conn && connCache == [] && accepted == []
    {
      conn, connCache := false, [];
      accepted, sent, before := [], [], skt.taken;
      assert before + EncodeFrames([]) == before;
    }
  }

  /** Frames sent over a fresh connection are received in order and unchanged, whatever sizes the reads have. */
  method Transfer(out: Outlet, inlet: Receiver, fs: seq<Frame>) returns (got: seq<Frame>)
    requires out.Valid() && out.conn && out.accepted == [] && out.before == [] && !out.skt.failed
    requires inlet.Valid() && inlet.readPos == inlet.writePos == 0
    requires AllSendable(fs) && Fits(fs)
    modifies out, out.skt, out.skt.buffers, inlet, inlet.cache
    ensures got == fs
  {
    hide EncodeFrame, FitFrom;
    for i := 0 to |fs|
      modifies out, out.skt, out.skt.buffers
      invariant out.Valid() && out.conn && out.accepted == fs[..i] && !out.skt.failed && out.before == []
      invariant i > 0 ==> out.sent == out.accepted
    {
      assert fs[i] in fs;
      out.Send(fs[i]);
    }
    assert fs[..|fs|] == fs;
    var writes := out.skt.Drain();
    var net := new Stream(out.skt.wire);
    TracksFromStart(inlet, fs, net);
    got := inlet.RecvAll(net, fs, 0, |fs|);
  }
}
