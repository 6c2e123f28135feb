/**
 Framing on a byte stream: a fixed cache that is filled by reads of any size,
 parsed from a moving start, and slid back once the start has moved far enough.
 */
module FrameParser {
  import opened Codec
  import opened Fields
  import opened Ids
  import opened ZeroCopy

  const CACHE_SIZE: nat := 65535
  const RECV_MAX: nat := 60000
  const MAX_MSG_SIZE: nat := CACHE_SIZE - RECV_MAX

  datatype Frame = Frame(type_: Match, tagOffset: nat, body: seq<Byte>) {
    predicate Sendable() {
      tagOffset < W32.Bound() && |body| < W32.Bound()
    }
  }

  function HeaderFields(f: Frame): seq<Field> {
    [Fix(|f.body|), UInt(W64, f.type_), UInt(W32, f.tagOffset)]
  }

  const HEADER_KINDS := [FixKind, UKind(W64), UKind(W32)]

  lemma HeaderWritable(f: Frame)
    requires f.Sendable()
    ensures forall h :: h in HeaderFields(f) ==> WellTyped(h) && Exact(h)
    ensures KindsOf(HeaderFields(f)) == HEADER_KINDS
  {
    KindsOfFew(HeaderFields(f));
    hide KindsOf;
  }

  function EncodeHeader(f: Frame): seq<Byte>
    requires f.Sendable()
  {
    HeaderWritable(f);
    EncodeAll(HeaderFields(f))
  }

  /** A header on the wire: the size of the body in four bytes, lowest first, and then type and tag offset. */
  lemma HeaderBytes(f: Frame)
    requires f.Sendable()
    ensures EncodeHeader(f) == Le(|f.body|, 4) + EncodeU(f.type_) + EncodeU(f.tagOffset)
  {
    HeaderWritable(f);
    hide EncodeU, Le;
    var fs := HeaderFields(f);
    assert fs[1..] == [fs[1], fs[2]] && fs[1..][1..] == [fs[2]] && [fs[2]][1..] == [];
    assert EncodeAll(fs) == EncodeField(fs[0]) + EncodeAll(fs[1..]);
    assert EncodeAll(fs[1..]) == EncodeField(fs[1]) + EncodeAll(fs[1..][1..]);
    assert EncodeAll([fs[2]]) == EncodeField(fs[2]) + EncodeAll([]);
  }

  function EncodeFrame(f: Frame): (s: seq<Byte>)
    requires f.Sendable()
  {
    EncodeHeader(f) + f.body
  }

  ghost predicate AllSendable(fs: seq<Frame>) {
    forall f :: f in fs ==> f.Sendable()
  }

  ghost function EncodeFrames(fs: seq<Frame>): seq<Byte>
    requires AllSendable(fs)
  {
    if fs == [] then [] else EncodeFrame(fs[0]) + EncodeFrames(fs[1..])
  }

  /** More: wait for the rest. Overlength: the connection is given up. A header that no sender writes is malformed. */
  datatype Outcome = Whole(frame: Frame, used: nat) | More | Overlength | Malformed

  predicate IsHeader(fs: seq<Field>) {
    |fs| == 3 && fs[0].Fix? && fs[1].UInt? && fs[2].UInt? && fs[1].u < W64.Bound()
  }

  function DecodeFrame(s: seq<Byte>): (r: Outcome)
    ensures r.Whole? ==> r.used <= |s|
  {
    match DecodeAll(HEADER_KINDS, s)
    case OverrunAll => More
    case RejectedAll(_) => Malformed
    case ParsedAll(fs, h) =>
      if !IsHeader(fs) then Malformed
      else if fs[0].fix > MAX_MSG_SIZE then Overlength
      else if |s| - h < fs[0].fix then More
      else Whole(Frame(fs[1].u, fs[2].u, s[h..h + fs[0].fix]), h + fs[0].fix)
  }

  // ---------------------------------------------------------------- one frame

  lemma HeaderDecodes(f: Frame, rest: seq<Byte>)
    requires f.Sendable()
    ensures DecodeAll(HEADER_KINDS, EncodeHeader(f) + rest) == ParsedAll(HeaderFields(f), |EncodeHeader(f)|)
  {
    HeaderWritable(f);
    RoundTripAll(HeaderFields(f), rest);
  }

  /** A whole frame is taken for itself whatever follows; a body beyond the limit is refused with its header. */
  lemma FrameRoundTrip(f: Frame, rest: seq<Byte>)
    requires f.Sendable()
    ensures DecodeFrame(EncodeFrame(f) + rest) ==
            if |f.body| <= MAX_MSG_SIZE then Whole(f, |EncodeFrame(f)|) else Overlength
  {
    hide DecodeAll, EncodeHeader;
    var h := EncodeHeader(f);
    assert EncodeFrame(f) + rest == h + (f.body + rest);
    HeaderDecodes(f, f.body + rest);
    assert (h + (f.body + rest))[|h|..|h| + |f.body|] == f.body;
  }

  /** Part of a frame is never taken for a frame. */
  lemma FramePrefix(f: Frame, k: nat)
    requires f.Sendable() && |f.body| <= MAX_MSG_SIZE && k < |EncodeFrame(f)|
    ensures DecodeFrame(EncodeFrame(f)[..k]) == More
  {
    hide DecodeAll, EncodeAll;
    var h := EncodeHeader(f);
    HeaderWritable(f);
    if k < |h| {
      assert (h + f.body)[..k] == h[..k];
      AllPrefix(HeaderFields(f), k);
    } else {
      assert (h + f.body)[..k] == h + f.body[..k - |h|];
      HeaderDecodes(f, f.body[..k - |h|]);
    }
  }

  lemma HeaderLength(f: Frame)
    requires f.Sendable()
    ensures 6 <= |EncodeHeader(f)| <= 18
  {
    HeaderWritable(f);
    var fs := HeaderFields(f);
    assert fs[1..] == [fs[1], fs[2]] && fs[1..][1..] == [fs[2]] && [fs[2]][1..] == [];
    assert EncodeAll(fs) == EncodeField(fs[0]) + EncodeAll(fs[1..]);
    assert EncodeAll(fs[1..]) == EncodeField(fs[1]) + EncodeAll(fs[1..][1..]);
    assert EncodeAll([fs[2]]) == EncodeField(fs[2]) + EncodeAll([]);
    LenByLimits(f.type_);
    LenByLimits(f.tagOffset);
  }

  // ---------------------------------------------------------------- where each frame starts in the cache

  /** The start moves on by whole frames and is slid back to zero once it is beyond the limit. */
  function Next(start: nat, size: nat): nat {
    if start + size > RECV_MAX then 0 else start + size
  }

  ghost function Start(fs: seq<Frame>): (p: nat)
    requires AllSendable(fs)
    ensures p <= RECV_MAX
  {
    if fs == [] then 0 else Next(Start(fs[..|fs| - 1]), |EncodeFrame(fs[|fs| - 1])|)
  }

  /** Frame i ends inside the cache. */
  ghost predicate FitsAt(fs: seq<Frame>, i: nat)
    requires AllSendable(fs) && i < |fs|
  {
    Start(fs[..i]) + |EncodeFrame(fs[i])| <= CACHE_SIZE
  }

  /** The frames from position `from` on end inside the cache. */
  ghost predicate FitFrom(fs: seq<Frame>, from: nat)
    requires AllSendable(fs)
  {
    forall i: nat :: from <= i < |fs| ==> |fs[i].body| <= MAX_MSG_SIZE && FitsAt(fs, i)
  }

  ghost predicate Fits(fs: seq<Frame>)
    requires AllSendable(fs)
  {
    FitFrom(fs, 0)
  }

  /** It is enough that header and body together stay within the limit that the body is held to. */
  lemma SmallFramesFit(fs: seq<Frame>)
    requires AllSendable(fs) && forall f :: f in fs ==> f.Sendable() && |EncodeFrame(f)| <= MAX_MSG_SIZE
    ensures Fits(fs)
  {
    forall i: nat | i < |fs| ensures |fs[i].body| <= MAX_MSG_SIZE && FitsAt(fs, i) {
      assert fs[i] in fs;
    }
  }

  /** However much of the stream is in the cache, a frame that would end beyond it is never parsed. */
  lemma NeverComplete(fs: seq<Frame>, i: nat, have: nat)
    requires AllSendable(fs) && i < |fs| && |fs[i].body| <= MAX_MSG_SIZE && !FitsAt(fs, i)
    requires have <= CACHE_SIZE - Start(fs[..i])
    ensures have < |EncodeFrame(fs[i])| && DecodeFrame(EncodeFrame(fs[i])[..have]) == More
  {
    FramePrefix(fs[i], have);
  }

  // ---------------------------------------------------------------- the stream and the receiver

  /** What has been sent and not yet read; a read takes any positive number of bytes that fits. */
  class Stream {
    var pending: seq<Byte>

    constructor (bytes: seq<Byte>)
      ensures pending == bytes
    {
      pending := bytes;
    }

    method Take(room: nat) returns (s: seq<Byte>)
      requires room > 0 && pending != []
      modifies this
      ensures 0 < |s| <= room && old(pending) == s + pending
    {
      var n: nat :| 0 < n <= room && n <= |pending|;
      s, pending := pending[..n], pending[n..];
    }
  }

  class Receiver {
    const cache: array<Byte>
    var readPos: nat
    var writePos: nat

    ghost predicate Valid()
      reads this
    {
      cache.Length == CACHE_SIZE && readPos <= writePos <= CACHE_SIZE
    }

    function Unread(): seq<Byte>
      requires Valid()
      reads this, cache
    {
      cache[readPos..writePos]
    }

    constructor ()
      ensures Valid() && fresh(cache) && readPos == 0 && writePos == 0
    {
      cache := new Byte[CACHE_SIZE];
      readPos, writePos := 0, 0;
    }

    /** Frames 0 to i have been delivered, and the rest is in the cache or still to be read, in order. */
    ghost predicate Tracks(fs: seq<Frame>, i: nat, net: Stream)
      requires AllSendable(fs)
      reads this, cache, net
    {
      && Valid() && i <= |fs|
      && readPos == Start(fs[..i])
      && Unread() + net.pending == EncodeFrames(fs[i..])
    }

    /** Takes the frame at the start of what is unread, if all of it is there, and slides the cache when it is time. */
    method ParseMessage() returns (r: Outcome)
      requires Valid()
      modifies this, cache
      ensures Valid()
      ensures match DecodeFrame(old(Unread()))
              case Whole(f, n) => r == Whole(f, n) && Unread() == old(Unread())[n..] && readPos == Next(old(readPos), n)
              case More => r == More && Unread() == old(Unread()) && readPos == old(readPos)
              case Overlength => r == Overlength && Unread() == old(Unread()) && readPos == old(readPos)
              case Malformed => true
    {
      hide DecodeAll;
      ghost var all := Unread();
      var reader := new ZeroCopyBuffer(cache, readPos, writePos - readPos);
      assert reader.Unread() == all;
      var fs := reader.ReadStruct(HEADER_KINDS);
      if !reader.status.Good? {
        return More;
      }
      if reader.error.Some? || !IsHeader(fs) {
        return Malformed;
      }
      var h, size := reader.readPos - readPos, fs[0].fix;
      if size > MAX_MSG_SIZE {
        return Overlength;
      }
      if writePos - readPos - h < size {
        return More;
      }
      var body := Unread()[h..h + size];
      readPos := readPos + h + size;
      assert Unread() == all[h + size..];
      if readPos > RECV_MAX {
        Slide();
      }
      r := Whole(Frame(fs[1].u, fs[2].u, body), h + size);
    }

    /** Moves what is unread to the front. */
    method Slide()
      requires Valid()
      modifies this, cache
      ensures Valid() && readPos == 0 && Unread() == old(Unread())
    {
      var n := writePos - readPos;
      var at := readPos;
      forall k | 0 <= k < n {
        cache[k] := cache[at + k];
      }
      readPos, writePos := 0, 0;
      writePos := writePos + n;
    }

    method Store(s: seq<Byte>)
      requires Valid() && |s| <= CACHE_SIZE - writePos
      modifies this`writePos, cache
      ensures Valid() && Unread() == old(Unread()) + s
    {
      forall k | 0 <= k < |s| {
        cache[writePos + k] := s[k];
      }
      writePos := writePos + |s|;
    }

    /** Reads until the next frame is whole; every read finds room as long as the frame fits the cache. */
    method Recv(net: Stream, ghost fs: seq<Frame>, ghost i: nat) returns (r: Outcome)
      requires AllSendable(fs) && i < |fs| && Tracks(fs, i, net)
      requires |fs[i].body| <= MAX_MSG_SIZE && FitsAt(fs, i)
      modifies this, cache, net
      ensures r == Whole(fs[i], |EncodeFrame(fs[i])|) && Tracks(fs, i + 1, net)
    {
      FrameAt(fs, i);
      hide DecodeFrame, EncodeFrame, EncodeFrames, Start, Next;
      ghost var e, more, start := EncodeFrame(fs[i]), EncodeFrames(fs[i + 1..]), readPos;
      Arrived(fs[i], more, Unread(), net.pending);
      r := ParseMessage();
      while r.More?
        invariant Valid()
        invariant if r.More? then readPos == start && |Unread()| < |e| && Unread() + net.pending == e + more
                  else r == Whole(fs[i], |e|) && readPos == Next(start, |e|) && Unread() + net.pending == more
        decreases |net.pending|
      {
        ghost var have, pending := Unread(), net.pending;
        var s := net.Take(CACHE_SIZE - writePos);
        Store(s);
        assert have + pending == have + s + net.pending;
        Arrived(fs[i], more, Unread(), net.pending);
        r := ParseMessage();
      }
    }

    /** Every frame that was sent is delivered, in order and unchanged, however the stream is chopped. */
    method RecvAll(net: Stream, ghost fs: seq<Frame>, from: nat, count: nat) returns (got: seq<Frame>)
      requires AllSendable(fs) && FitFrom(fs, from) && count == |fs| && from <= count && Tracks(fs, from, net)
      modifies this, cache, net
      ensures got == fs[from..] && net.pending == [] && Unread.requires() && Unread() == []
    {
      hide Start, EncodeFrames, EncodeFrame, FitsAt, DecodeFrame, Tracks;
      got := [];
      for i := from to count
        invariant Tracks(fs, i, net) && got == fs[from..i]
      {
        var r := Recv(net, fs, i);
        got := got + [r.frame];
        assert fs[from..i + 1] == fs[from..i] + [fs[i]];
      }
      AllTaken(fs, net);
    }

    lemma AllTaken(fs: seq<Frame>, net: Stream)
      requires AllSendable(fs) && Tracks(fs, |fs|, net)
      ensures Valid() && net.pending == [] && Unread() == []
    {
      assert fs[|fs|..] == [];
    }
  }

  lemma FrameAt(fs: seq<Frame>, i: nat)
    requires AllSendable(fs) && i < |fs|
    ensures EncodeFrames(fs[i..]) == EncodeFrame(fs[i]) + EncodeFrames(fs[i + 1..])
    ensures Start(fs[..i + 1]) == Next(Start(fs[..i]), |EncodeFrame(fs[i])|)
  {
    assert fs[i..][1..] == fs[i + 1..];
    assert fs[..i + 1][..i] == fs[..i];
  }

  /** With the whole frame at hand it is taken; with less, there is more to come. */
  lemma Arrived(f: Frame, more: seq<Byte>, have: seq<Byte>, pending: seq<Byte>)
    requires f.Sendable() && |f.body| <= MAX_MSG_SIZE && have + pending == EncodeFrame(f) + more
    ensures if |have| < |EncodeFrame(f)| then DecodeFrame(have) == More && pending != []
            else DecodeFrame(have) == Whole(f, |EncodeFrame(f)|) && have[|EncodeFrame(f)|..] + pending == more
  {
    hide DecodeFrame, EncodeFrame;
    var e := EncodeFrame(f);
    if |have| < |e| {
      assert have == (have + pending)[..|have|] == e[..|have|];
      FramePrefix(f, |have|);
    } else {
      var rest := have[|e|..];
      assert e == (have + pending)[..|e|] == have[..|e|];
      assert have == e + rest;
      FrameRoundTrip(f, rest);
      assert rest + pending == (have + pending)[|e|..] == more;
    }
  }

  /**
   The other direction: a frame that the receiver takes out did fit, so the condition
   of `Recv` cannot be weakened.
   */
  lemma DeliveredOnlyIfItFits(r: Receiver, fs: seq<Frame>, i: nat, net: Stream)
    requires AllSendable(fs) && i < |fs| && r.Tracks(fs, i, net)
    requires DecodeFrame(r.Unread()).Whole? && DecodeFrame(r.Unread()).frame == fs[i]
    ensures |fs[i].body| <= MAX_MSG_SIZE && FitsAt(fs, i)
  {
    FrameAt(fs, i);
    WholeBody(r.Unread());
    hide DecodeFrame, EncodeFrame, EncodeFrames;
    var have, e := r.Unread(), EncodeFrame(fs[i]);
    if |have| < |e| {
      assert have == (have + net.pending)[..|have|] == e[..|have|];
    }
    if !FitsAt(fs, i) {
      NeverComplete(fs, i, |have|);
    }
  }

  lemma WholeBody(s: seq<Byte>)
    ensures DecodeFrame(s).Whole? ==> |DecodeFrame(s).frame.body| <= MAX_MSG_SIZE
  {
    hide DecodeAll;
  }

  /** The receiver starts out tracking any stream. */
  lemma TracksFromStart(r: Receiver, fs: seq<Frame>, net: Stream)
    requires AllSendable(fs) && r.Valid() && r.readPos == r.writePos == 0 && net.pending == EncodeFrames(fs)
    ensures r.Tracks(fs, 0, net)
  {
    assert fs[..0] == [] && fs[0..] == fs;
  }

  /**
   Nothing empties the cache when a connection is made again: what was left of a
   broken frame then takes its missing bytes from the first frames of the new stream.
   */
  lemma LeftoverSwallowsNewStream(f: Frame, k: nat, stream: seq<Byte>)
    requires f.Sendable() && |f.body| <= MAX_MSG_SIZE && |EncodeHeader(f)| <= k < |EncodeFrame(f)|
    requires |EncodeFrame(f)| <= k + |stream|
    ensures var missing := |EncodeFrame(f)| - k;
            DecodeFrame(EncodeFrame(f)[..k] + stream) ==
            Whole(f.(body := f.body[..|f.body| - missing] + stream[..missing]), |EncodeFrame(f)|)
  {
    hide DecodeAll, EncodeHeader;
    var h, missing := EncodeHeader(f), |EncodeFrame(f)| - k;
    var body := f.body[..|f.body| - missing] + stream[..missing];
    var rest := body + stream[missing..];
    assert EncodeFrame(f)[..k] == h + f.body[..|f.body| - missing];
    assert EncodeFrame(f)[..k] + stream == h + rest;
    HeaderDecodes(f, rest);
    assert (h + rest)[|h|..|h| + |f.body|] == body;
  }

  /** A header kind is read from the bytes it uses up, whatever is behind them. */
  lemma CutField(k: Kind, s: seq<Byte>, n: nat)
    requires (k.UKind? || k.FixKind?) && n <= |s|
    requires DecodeField(k, s, false).Parsed? && DecodeField(k, s, false).used <= n
    ensures DecodeField(k, s[..n], false) == DecodeField(k, s, false)
  {
    if k.FixKind? {
      assert s[..n][..4] == s[..4];
    } else if s[0] >= TAG {
      assert s[..n][1..1 + TagLen(s[0])] == s[1..1 + TagLen(s[0])];
    }
  }

  lemma {:induction false} CutAll(ks: seq<Kind>, s: seq<Byte>, n: nat)
    requires (forall k :: k in ks ==> k.UKind? || k.FixKind?) && n <= |s|
    requires DecodeAll(ks, s).ParsedAll? && DecodeAll(ks, s).used <= n
    ensures DecodeAll(ks, s[..n]) == DecodeAll(ks, s)
  {
    hide DecodeField;
    if ks != [] {
      CutField(ks[0], s, n);
      var m := DecodeField(ks[0], s, false).used;
      assert s[..n][m..] == s[m..][..n - m];
      CutAll(ks[1..], s[m..], n - m);
    }
  }

  /**
   A header that the break cut in two is completed with bytes of the new
   connection too. If a frame comes out, its header ends in the new stream, its
   body is made of the new stream alone, and its size is the old one if that was complete.
   */
  lemma LeftoverSplitsHeader(f: Frame, k: nat, stream: seq<Byte>)
    requires f.Sendable() && 0 < k < |EncodeHeader(f)|
    requires DecodeFrame(EncodeHeader(f)[..k] + stream).Whole?
    ensures var r := DecodeFrame(EncodeHeader(f)[..k] + stream);
            var n := |r.frame.body|;
            && k < r.used - n && r.used - k <= |stream| && r.frame.body == stream[r.used - n - k..r.used - k]
            && (4 <= k ==> n == |f.body|)
  {
    hide DecodeAll, EncodeAll;
    var left := EncodeHeader(f)[..k];
    var s := left + stream;
    HeaderEndsBeyond(f, k, stream);
    SizeFirst(s);
    var h := DecodeAll(HEADER_KINDS, s).used;
    var n := DecodeFrame(s).used - h;
    SliceBehind(left, stream, h, n);
    if 4 <= k {
      HeaderDecodes(f, []);
      assert EncodeHeader(f) + [] == EncodeHeader(f);
      SizeFirst(EncodeHeader(f));
      assert s[..4] == EncodeHeader(f)[..4];
    }
  }

  lemma SliceBehind(left: seq<Byte>, stream: seq<Byte>, h: nat, n: nat)
    requires |left| <= h && h + n <= |left + stream|
    ensures (left + stream)[h..h + n] == stream[h - |left|..h + n - |left|]
  {
  }

  lemma HeaderEndsBeyond(f: Frame, k: nat, stream: seq<Byte>)
    requires f.Sendable() && k < |EncodeHeader(f)|
    ensures var r := DecodeAll(HEADER_KINDS, EncodeHeader(f)[..k] + stream); r.ParsedAll? ==> k < r.used
  {
    hide DecodeAll, EncodeAll;
    var s := EncodeHeader(f)[..k] + stream;
    HeaderWritable(f);
    AllPrefix(HeaderFields(f), k);
    assert s[..k] == EncodeHeader(f)[..k];
    if DecodeAll(HEADER_KINDS, s).ParsedAll? && DecodeAll(HEADER_KINDS, s).used <= k {
      CutAll(HEADER_KINDS, s, k);
    }
  }

  /** The size of the body is the first four bytes. */
  lemma SizeFirst(s: seq<Byte>)
    requires DecodeAll(HEADER_KINDS, s).ParsedAll?
    ensures var r := DecodeAll(HEADER_KINDS, s); |s| >= 4 && |r.fields| == 3 && r.fields[0] == Fix(Val(s[..4]))
  {
    hide DecodeAll;
    FirstOfAll(FixKind, [UKind(W64), UKind(W32)], s);
    assert [FixKind] + [UKind(W64), UKind(W32)] == HEADER_KINDS;
    var t := s[4..];
    FirstOfAll(UKind(W64), [UKind(W32)], t);
    assert [UKind(W64)] + [UKind(W32)] == [UKind(W64), UKind(W32)];
    FirstOfAll(UKind(W32), [], t[DecodeField(UKind(W64), t, false).used..]);
    assert [UKind(W32)] + [] == [UKind(W32)];
    NoneLeft();
  }

  lemma NoneLeft()
    ensures forall s :: DecodeAll([], s) == ParsedAll([], 0)
  {
  }

  /**
   With nothing left in the cache, a new connection takes over where the old one
   stopped: the receiver tracks the new frames behind those that were delivered.
   */
  lemma ReconnectedTracks(r: Receiver, was: seq<Frame>, i: nat, fs: seq<Frame>, net: Stream)
    requires AllSendable(was) && AllSendable(fs) && i <= |was|
    requires r.Valid() && r.readPos == Start(was[..i]) && r.Unread() == [] && net.pending == EncodeFrames(fs)
    ensures AllSendable(was[..i] + fs) && r.Tracks(was[..i] + fs, i, net)
  {
    assert (was[..i] + fs)[..i] == was[..i] && (was[..i] + fs)[i..] == fs;
  }

  /** It then delivers the new frames, if each of them ends inside the cache from where the old ones left its start. */
  method Reconnect(r: Receiver, ghost was: seq<Frame>, i: nat, ghost fs: seq<Frame>, net: Stream, count: nat)
    returns (got: seq<Frame>)
    requires AllSendable(was) && AllSendable(fs) && i <= |was| && count == |fs|
    requires r.Valid() && r.readPos == Start(was[..i]) && r.Unread() == [] && net.pending == EncodeFrames(fs)
    requires AllSendable(was[..i] + fs) ==> FitFrom(was[..i] + fs, i)
    modifies r, r.cache, net
    ensures got == fs && net.pending == [] && r.Valid() && r.Unread() == []
  {
    ReconnectedTracks(r, was, i, fs, net);
    got := r.RecvAll(net, was[..i] + fs, i, i + count);
  }

  // ---------------------------------------------------------------- the limit on the body alone

  function Copies(f: Frame, n: nat): (fs: seq<Frame>)
    ensures |fs| == n && forall i :: 0 <= i < n ==> fs[i] == f
  {
    if n == 0 then [] else Copies(f, n - 1) + [f]
  }

  lemma {:induction false} StartOfCopies(f: Frame, n: nat)
    requires f.Sendable() && AllSendable(Copies(f, n)) && |EncodeFrame(f)| == 5000 && n <= 12
    ensures Start(Copies(f, n)) == 5000 * n
  {
    if n > 0 {
      var fs := Copies(f, n);
      assert fs[..n - 1] == Copies(f, n - 1);
      assert AllSendable(Copies(f, n - 1));
      StartOfCopies(f, n - 1);
    }
  }

  function Zeros(n: nat): (s: seq<Byte>)
    ensures |s| == n
  {
    seq(n, _ => 0)
  }

  /** Bodies within the limit can still add up to a frame that is never complete, because headers are not counted. */
  lemma BodyLimitIsNotEnough() returns (fs: seq<Frame>)
    ensures AllSendable(fs) && (forall f :: f in fs ==> |f.body| <= MAX_MSG_SIZE) && !Fits(fs)
  {
    var f, g := Frame(0, 0, Zeros(4994)), Frame(0, 0, Zeros(MAX_MSG_SIZE));
    fs := Copies(f, 12) + [g];
    HeaderLength(f);
    HeaderLength(g);
    ShortHeader(f);
    assert AllSendable(Copies(f, 12));
    StartOfCopies(f, 12);
    assert fs[..12] == Copies(f, 12);
    assert fs[12] == g && !FitsAt(fs, 12);
  }

  lemma ShortHeader(f: Frame)
    requires f.Sendable() && f.type_ == 0 && f.tagOffset == 0
    ensures |EncodeHeader(f)| == 6
  {
    var fs := HeaderFields(f);
    HeaderWritable(f);
    assert fs[1..] == [fs[1], fs[2]] && fs[1..][1..] == [fs[2]] && [fs[2]][1..] == [];
    assert EncodeAll(fs) == EncodeField(fs[0]) + EncodeAll(fs[1..]);
    assert EncodeAll(fs[1..]) == EncodeField(fs[1]) + EncodeAll(fs[1..][1..]);
    assert EncodeAll([fs[2]]) == EncodeField(fs[2]) + EncodeAll([]);
  }
}
