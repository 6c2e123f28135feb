/** The message object: a small array of its own, or a buffer that it shares until it has to write. */
module Messages {
  import opened Codec
  import opened Fields
  import opened Ids
  import opened ZeroCopy

  const SMALL_MSG_SIZE: nat := 128
  const MIN_GROW_SIZE: nat := 64
  const U32_NIL: nat := 0xFFFF_FFFF

  /** The growable block that messages share, with its reference count. */
  class Buffer {
    var data: array<Byte>
    var count: nat
    var alive: bool

    constructor (size: nat)
      ensures fresh(data) && data.Length == size && count == 0 && alive
    {
      data := new Byte[size];
      count, alive := 0, true;
    }

    method Retain()
      requires alive
      modifies this`count
      ensures count == old(count) + 1
    {
      count := count + 1;
    }

    /** The last reference to go destroys the block. */
    method Release()
      requires alive && count > 0
      modifies this`count, this`alive
      ensures count == old(count) - 1 && (alive <==> count > 0)
    {
      count := count - 1;
      if count == 0 {
        alive := false;
      }
    }

    /** Never shrinks; what was there stays in front. */
    method Resize(size: nat)
      modifies this`data
      ensures data == old(data) || fresh(data)
      ensures data.Length == if size > old(data).Length then size else old(data).Length
      ensures data[..old(data).Length] == old(data[..])
    {
      if size > data.Length {
        var p := new Byte[size];
        forall k | 0 <= k < data.Length {
          p[k] := data[k];
        }
        data := p;
      }
    }
  }

  /** What a reader of a message sees. */
  datatype Value = Value(type_: Match, tagOffset: nat, bytes: seq<Byte>, read: nat)

  /** A size narrowed to 32 bits. */
  function Low32(n: nat): (r: nat)
    ensures r < W32.Bound() && r <= n && (n < W32.Bound() ==> r == n)
  {
    n % W32.Bound()
  }

  /** The bytes of a message inside another: its size as 32 bits, type, tag offset, and that many of its bytes. */
  function EncodeMessage(v: Value): (s: seq<Byte>)
    requires v.tagOffset <= U32_NIL
  {
    var size := Low32(|v.bytes|);
    EncodeAll([UInt(W32, size), UInt(W64, v.type_), UInt(W32, v.tagOffset)]) + v.bytes[..size]
  }

  /** The three numbers in front of a message's bytes: its size, and then its type and tag offset. */
  datatype Header = Header(size: nat, type_: Match, tagOffset: nat, used: nat) | NoHeader

  datatype TypeAndTag = TypeAndTag(type_: Match, tagOffset: nat, used: nat) | NoType

  function DecodeTypeAndTag(s: seq<Byte>): (r: TypeAndTag)
    ensures r.TypeAndTag? ==> r.used <= |s| && r.tagOffset <= U32_NIL
  {
    match DecodeU(W64, s)
    case Got(t, a) => (
      match DecodeU(W32, s[a..])
      case Got(o, b) =>
        DecodedFits(W64, s);
        DecodedFits(W32, s[a..]);
        TypeAndTag(t, o, a + b)
      case _ => NoType)
    case _ => NoType
  }

  function DecodeHeader(s: seq<Byte>): (r: Header)
    ensures r.Header? ==> r.used <= |s| && r.tagOffset <= U32_NIL
  {
    match DecodeU(W32, s)
    case Got(n, a) => (
      match DecodeTypeAndTag(s[a..])
      case TypeAndTag(t, o, b) =>
        DecodedFits(W32, s);
        Header(n, t, o, a + b)
      case NoType => NoHeader)
    case _ => NoHeader
  }

  datatype Nested = Inner(value: Value, used: nat) | Broken

  /** The message at the front of a stream, as it is taken out again. */
  function DecodeMessage(s: seq<Byte>): (r: Nested)
    ensures r.Inner? ==> r.used <= |s| && r.value.tagOffset <= U32_NIL
  {
    match DecodeHeader(s)
    case NoHeader => Broken
    case Header(n, t, o, h) => if h + n > |s| then Broken else Inner(Value(t, o, s[h..h + n], 0), h + n)
  }

  lemma HeaderRoundTrip(size: nat, t: Match, o: nat, rest: seq<Byte>)
    requires size < W32.Bound() && o <= U32_NIL
    ensures var e := EncodeU(size) + (EncodeU(t) + EncodeU(o));
            DecodeHeader(e + rest) == Header(size, t, o, |e|)
  {
    var x, y, z := EncodeU(size), EncodeU(t), EncodeU(o);
    hide EncodeU, DecodeU, DecodeTypeAndTag;
    var one := y + z + rest;
    assert x + (y + z) + rest == x + one;
    RoundTripU(W32, size, one);
    assert (x + one)[|x|..] == one;
    TypeAndTagRoundTrip(t, o, rest);
  }

  lemma TypeAndTagRoundTrip(t: Match, o: nat, rest: seq<Byte>)
    requires o <= U32_NIL
    ensures DecodeTypeAndTag(EncodeU(t) + EncodeU(o) + rest) == TypeAndTag(t, o, |EncodeU(t)| + |EncodeU(o)|)
  {
    var y, z := EncodeU(t), EncodeU(o);
    hide EncodeU, DecodeU;
    assert y + z + rest == y + (z + rest);
    RoundTripU(W64, t, z + rest);
    assert (y + (z + rest))[|y|..] == z + rest;
    RoundTripU(W32, o, rest);
  }

  /** A message taken out of another is the one put in, down to its type, tag offset and bytes below 2^32. */
  lemma NestedRoundTrip(v: Value, rest: seq<Byte>)
    requires v.tagOffset <= U32_NIL
    ensures DecodeMessage(EncodeMessage(v) + rest) ==
            Inner(v.(bytes := v.bytes[..Low32(|v.bytes|)], read := 0), |EncodeMessage(v)|)
  {
    var n := Low32(|v.bytes|);
    var f1, f2, f3 := UInt(W32, n), UInt(W64, v.type_), UInt(W32, v.tagOffset);
    HeaderSize(f1, f2, f3);
    var e := EncodeU(n) + (EncodeU(v.type_) + EncodeU(v.tagOffset));
    hide EncodeU, DecodeHeader, Low32;
    assert EncodeAll([f1, f2, f3]) == e;
    assert EncodeMessage(v) + rest == e + (v.bytes[..n] + rest);
    HeaderRoundTrip(n, v.type_, v.tagOffset, v.bytes[..n] + rest);
    assert (e + (v.bytes[..n] + rest))[|e|..|e| + n] == v.bytes[..n];
  }

  class Message {
    var type_: Match
    var tagOffset: nat
    const small: array<Byte>
    var large: Buffer?
    var buf: array<Byte>
    var size: nat
    var writeSize: nat
    var readSize: nat

    ghost predicate Wf()
      reads this, large
    {
      && small.Length == SMALL_MSG_SIZE
      && tagOffset <= U32_NIL
      && readSize <= writeSize <= size == buf.Length
      && (buf == small <==> large == null)
      && (large != null ==> buf == large.data && large.alive && large.count > 0)
    }

    predicate IsSmall()
      reads this
    {
      buf == small
    }

    function Bytes(): seq<Byte>
      requires Wf()
      reads this, large, buf
    {
      buf[..writeSize]
    }

    function Unread(): seq<Byte>
      requires Wf()
      reads this, large, buf
    {
      buf[readSize..writeSize]
    }

    function AsValue(): Value
      requires Wf()
      reads this, large, buf
    {
      Value(type_, tagOffset, Bytes(), readSize)
    }

    constructor (type_: Match)
      ensures Wf() && fresh(small) && large == null
      ensures AsValue() == Value(type_, U32_NIL, [], 0)
    {
      this.type_, tagOffset, large := type_, U32_NIL, null;
      var s := new Byte[SMALL_MSG_SIZE];
      small, buf, size, writeSize, readSize := s, s, SMALL_MSG_SIZE, 0, 0;
    }

    constructor FromBytes(type_: Match, bytes: seq<Byte>, tagOffset: nat)
      requires tagOffset <= U32_NIL
      ensures Wf() && fresh(small) && fresh(buf)
      ensures large != null ==> fresh(large) && large.count == 1
      ensures AsValue() == Value(type_, tagOffset, bytes, 0)
    {
      this.type_, this.tagOffset, large := type_, tagOffset, null;
      var s := new Byte[SMALL_MSG_SIZE];
      small, buf, size, writeSize, readSize := s, s, SMALL_MSG_SIZE, 0, 0;
      new;
      if |bytes| > SMALL_MSG_SIZE {
        large := new Buffer(|bytes|);
        large.Retain();
        buf, size := large.data, |bytes|;
      }
      forall k | 0 <= k < |bytes| {
        buf[k] := bytes[k];
      }
      writeSize := |bytes|;
    }

    /** A copy takes a small message's bytes and shares a large one's block; its read cursor starts over. */
    constructor Copy(other: Message)
      requires other.Wf()
      modifies other.large
      ensures other.Wf() && Wf() && fresh(small)
      ensures other.large != null ==>
              other.large.count == old(other.large.count) + 1 && other.large.data == old(other.large.data)
      ensures large == other.large
      ensures AsValue() == other.AsValue().(read := 0) && other.AsValue() == old(other.AsValue())
    {
      type_, tagOffset, large := other.type_, other.tagOffset, other.large;
      var s := new Byte[SMALL_MSG_SIZE];
      small, buf, size, writeSize, readSize := s, s, SMALL_MSG_SIZE, 0, 0;
      new;
      if other.IsSmall() {
        forall k | 0 <= k < other.writeSize {
          small[k] := other.small[k];
        }
      } else {
        large.Retain();
        buf, size := large.data, large.data.Length;
      }
      writeSize := other.writeSize;
    }

    /** What happens to the shared block of a message that is about to write. */
    twostate predicate Privatised(was: Buffer?)
      requires old(Wf()) && was == old(large)
      reads this, large, was
    {
      && (large != null ==> large.count == 1)
      && (large != old(large) ==> large != null && fresh(large) && fresh(large.data))
      && (large == null ==> buf == old(buf))
      && (large == old(large) != null ==> old(large.count) == 1 && (buf == old(buf) || fresh(buf)))
      && (old(large) != null && large != old(large) ==>
            old(large.count) > 1 && was.count == old(large.count) - 1 && was.alive && was.data == old(large.data))
    }

    method MakeLarge(n: nat)
      modifies this`large, large
      requires large != null ==> large.alive && large.count > 0
      ensures large != null && fresh(large) && fresh(large.data) && large.data.Length == n
      ensures large.count == 1 && large.alive
      ensures old(large) != null ==> old(large).count == old(large.count) - 1 && old(large).data == old(large.data)
                                     && (old(large).alive <==> old(large).count > 0)
    {
      if large != null {
        large.Release();
      }
      large := new Buffer(n);
      large.Retain();
    }

    /** Makes room for n more bytes in a block that nobody else sees. */
    method Reserve(n: nat)
      requires Wf()
      modifies this`large, this`buf, this`size, large
      ensures Wf() && Privatised(old(large)) && n <= size - writeSize
      ensures AsValue() == old(AsValue())
    {
      var oldCapacity := size;
      var newSize := writeSize + n;
      var newCapacity := oldCapacity;
      if newSize > oldCapacity {
        var diff := newSize - oldCapacity;
        if diff < MIN_GROW_SIZE {
          diff := MIN_GROW_SIZE;
        }
        newCapacity := oldCapacity + diff;
      }
      if IsSmall() {
        if newCapacity > oldCapacity {
          MakeLarge(newCapacity);
          forall k | 0 <= k < writeSize {
            large.data[k] := buf[k];
          }
          buf, size := large.data, newCapacity;
        }
      } else {
        if large.count > 1 {
          var tmp := large;
          tmp.Retain();
          MakeLarge(newCapacity);
          forall k | 0 <= k < writeSize {
            large.data[k] := tmp.data[k];
          }
          tmp.Release();
        } else {
          large.Resize(newCapacity);
          assert large.data[..writeSize] == large.data[..old(buf).Length][..writeSize];
        }
        buf, size := large.data, newCapacity;
      }
    }

    /** Two messages share nothing but, possibly, one counted block. */
    ghost predicate Apart(m: Message)
      reads this, large, m, m.large
    {
      && m != this && m.small != small
      && (large != null ==> large.data != m.small)
      && (m.large != null ==> m.large.data != small)
      && (large != null && m.large != null && large != m.large ==> large.data != m.large.data)
    }

    /** One value, written in place behind exactly the room its size predicts. */
    method AppendField(f: Field)
      requires Wf() && WellTyped(f)
      modifies this`large, this`buf, this`size, this`writeSize, large, buf
      ensures Wf() && Privatised(old(large))
      ensures AsValue() == old(AsValue()).(bytes := old(Bytes()) + EncodeField(f))
      ensures old(large) != null && old(large.count) > 1 ==> old(buf)[..] == old(buf[..])
    {
      SizeExact(f);
      hide SizeOf, EncodeField;
      Reserve(SizeOf(f));
      ghost var before := Bytes();
      var writer := new ZeroCopyBuffer(buf, writeSize, size - writeSize);
      writer.Write(f);
      assert writer.status.Good?;
      writeSize := writer.writePos;
      assert Bytes() == before + EncodeField(f);
    }

    /** The bytes of another message, already copied to an argument, behind their header. */
    method AppendMessage(m: Message)
      requires Wf() && m.Wf() && Apart(m) && (large != null && large == m.large ==> large.count > 1)
      modifies this`large, this`buf, this`size, this`writeSize, large, buf
      ensures Wf() && Privatised(old(large))
      ensures AsValue() == old(AsValue()).(bytes := old(Bytes()) + EncodeMessage(old(m.AsValue())))
      ensures old(large) != null && old(large.count) > 1 ==> old(buf)[..] == old(buf[..])
      ensures m.Wf() && m.AsValue() == old(m.AsValue())
    {
      var fs := Header(m);
      NestedForm(m.AsValue(), Bytes(), fs);
      hide SizeOf, EncodeField, EncodeAll, EncodeMessage, WellTyped, Low32;
      Reserve(SizeOf(fs[0]) + SizeOf(fs[1]) + SizeOf(fs[2]) + Low32(m.writeSize));
      FillNested(m);
    }

    function Header(m: Message): (fs: seq<Field>)
      reads m
      ensures |fs| == 3
    {
      [UInt(W32, Low32(m.writeSize)), UInt(W64, m.type_), UInt(W32, m.tagOffset)]
    }

    /** Header and bytes of another message, into room already reserved. */
    method FillNested(m: Message)
      requires Wf() && m.Wf() && m != this && m.buf != buf
      requires |EncodeMessage(m.AsValue())| <= size - writeSize
      modifies this`writeSize, buf
      ensures Wf()
      ensures AsValue() == old(AsValue()).(bytes := old(Bytes()) + EncodeMessage(old(m.AsValue())))
    {
      var fs := Header(m);
      NestedForm(m.AsValue(), Bytes(), fs);
      hide SizeOf, EncodeField, EncodeAll, EncodeMessage, WellTyped, Low32;
      ghost var v := m.AsValue();
      FillFields(fs);
      assert m.Wf() && m.Bytes() == v.bytes;
      FillFrom(m, Low32(m.writeSize), v.bytes);
    }

    method FillFrom(m: Message, n: nat, ghost bytes: seq<Byte>)
      requires Wf() && n <= m.writeSize && n <= size - writeSize && m.Wf() && m.buf != buf && bytes == m.Bytes()
      modifies this`writeSize, buf
      ensures Wf() && AsValue() == old(AsValue()).(bytes := old(Bytes()) + bytes[..n])
    {
      assert m.buf[..n] == bytes[..n];
      FillBytes(m.buf[..n]);
    }

    /** Values through one writer, into room already reserved. */
    method FillFields(fs: seq<Field>)
      requires Wf() && (forall f :: f in fs ==> WellTyped(f)) && |EncodeAll(fs)| <= size - writeSize
      modifies this`writeSize, buf
      ensures Wf() && writeSize == old(writeSize) + |EncodeAll(fs)|
      ensures AsValue() == old(AsValue()).(bytes := old(Bytes()) + EncodeAll(fs))
    {
      hide EncodeAll, WellTyped;
      ghost var at, before := writeSize, Bytes();
      var writer := new ZeroCopyBuffer(buf, writeSize, size - writeSize);
      writer.WriteEach(fs);
      assert writer.status.Good?;
      writeSize := writer.writePos;
      assert Bytes() == before + buf[at..writeSize];
    }

    method FillBytes(s: seq<Byte>)
      requires Wf() && |s| <= size - writeSize
      modifies this`writeSize, buf
      ensures Wf() && AsValue() == old(AsValue()).(bytes := old(Bytes()) + s)
    {
      forall k | 0 <= k < |s| {
        buf[writeSize + k] := s[k];
      }
      writeSize := writeSize + |s|;
    }

    /** Raw bytes behind their length, as a string reference is written; both are narrowed to 32 bits. */
    method AppendChars(chars: seq<Byte>)
      requires Wf()
      modifies this`large, this`buf, this`size, this`writeSize, large, buf
      ensures Wf() && Privatised(old(large))
      ensures var n := Low32(|chars|);
              AsValue() == old(AsValue()).(bytes := old(Bytes()) + EncodeField(UInt(W32, n)) + chars[..n])
      ensures old(large) != null && old(large.count) > 1 ==> old(buf)[..] == old(buf[..])
    {
      hide EncodeField, Low32;
      var n := Low32(|chars|);
      AppendField(UInt(W32, n));
      Reserve(n);
      FillBytes(chars[..n]);
    }

    /** Reads the next value; an overrun is the only failure that is noticed, and then nothing is used up. */
    method ReadField(k: Kind) returns (f: Option<Field>)
      requires Wf()
      modifies this`readSize
      ensures Wf()
      ensures match DecodeField(k, old(Unread()), false)
              case Parsed(g, n) => f == Some(g) && readSize == old(readSize) + n
              case Overrun => f == None && readSize == old(readSize)
              case Rejected(n) => f.Some? && readSize == old(readSize) + n
    {
      hide DecodeField;
      var reader := new ZeroCopyBuffer(buf, readSize, writeSize - readSize);
      assert reader.Unread() == Unread();
      var g := reader.Read(k);
      if !reader.status.Good? {
        return None;
      }
      readSize := reader.readPos;
      f := Some(g);
    }

    /** The members of a structure: one room, one writer. */
    method AppendFields(fs: seq<Field>)
      requires Wf() && forall f :: f in fs ==> WellTyped(f)
      modifies this`large, this`buf, this`size, this`writeSize, large, buf
      ensures Wf() && Privatised(old(large))
      ensures AsValue() == old(AsValue()).(bytes := old(Bytes()) + EncodeAll(fs))
      ensures old(large) != null && old(large.count) > 1 ==> old(buf)[..] == old(buf[..])
    {
      SizeExactAll(fs);
      hide SizeOfAll, EncodeAll, WellTyped;
      Reserve(SizeOfAll(fs));
      FillFields(fs);
    }

    /** The offset at which a tag block starts, narrowed to 32 bits. */
    method MarkTag()
      requires Wf()
      modifies this`tagOffset
      ensures Wf() && AsValue() == old(AsValue()).(tagOffset := Low32(old(writeSize)))
    {
      tagOffset := Low32(writeSize);
    }

    /** Several values, one after another. */
    method AppendEach(fs: seq<Field>)
      requires Wf() && forall f :: f in fs ==> WellTyped(f)
      modifies this`large, this`buf, this`size, this`writeSize, large, buf
      ensures Wf() && AsValue() == old(AsValue()).(bytes := old(Bytes()) + EncodeAll(fs))
      ensures fs == [] ==> unchanged(this) && (large != null ==> unchanged(large)) && unchanged(buf)
      ensures fs != [] ==> Privatised(old(large))
      ensures old(large) != null && old(large.count) > 1 ==> old(buf)[..] == old(buf[..])
    {
      hide EncodeField, EncodeAll, WellTyped;
      ghost var v := AsValue();
      EncodePrefix(fs, 0);
      for i := 0 to |fs|
        invariant Wf() && AsValue() == v.(bytes := v.bytes + EncodeAll(fs[..i]))
        invariant i == 0 ==> unchanged(this) && (large != null ==> unchanged(large)) && unchanged(buf)
        invariant i > 0 ==> Privatised(old(large))
        invariant old(large) != null && old(large.count) > 1 ==> old(buf)[..] == old(buf[..])
      {
        EncodePrefix(fs, i);
        AppendField(fs[i]);
        assert v.bytes + EncodeAll(fs[..i]) + EncodeField(fs[i]) == v.bytes + (EncodeAll(fs[..i]) + EncodeField(fs[i]));
      }
      assert fs[..|fs|] == fs;
    }

    /** Moves the read cursor; it cannot pass the end of what was written. */
    method Skip(n: nat) returns (ok: bool)
      requires Wf()
      modifies this`readSize
      ensures Wf() && ok == (old(readSize) + n <= writeSize) && readSize == old(readSize) + (if ok then n else 0)
    {
      ok := readSize + n <= writeSize;
      if ok {
        readSize := readSize + n;
      }
    }

    /** Forgets everything from n on and starts reading over. */
    method CutOff(n: nat)
      requires Wf() && n <= size
      modifies this`readSize, this`writeSize
      ensures Wf() && readSize == 0 && writeSize == n
    {
      writeSize, readSize := 0, 0;
      writeSize := writeSize + n;
    }

    /** Several values read one after another, as long as none is missing; malformed ones are not described. */
    method ReadEach(ks: seq<Kind>) returns (fs: Option<seq<Field>>)
      requires Wf()
      modifies this`readSize
      ensures Wf() && readSize >= old(readSize)
      ensures var d := DecodeAll(ks, old(Unread()));
              d.ParsedAll? ==> fs == Some(d.fields) && readSize == old(readSize) + d.used
    {
      hide DecodeField, DecodeAll, Resumed;
      ghost var all, start := Unread(), readSize;
      var got := [];
      NoneRead(DecodeAll(ks, all));
      assert ks[0..] == ks;
      for i := 0 to |ks|
        invariant Wf() && readSize >= start
        invariant DecodeAll(ks, all).ParsedAll? ==>
                    DecodeAll(ks, all) == Resumed(got, readSize - start, DecodeAll(ks[i..], Unread()))
      {
        ghost var before, was := Unread(), readSize;
        assert ks[i..] == [ks[i]] + ks[i + 1..];
        NextMember(ks[i], ks[i + 1..], got, readSize - start, before);
        var f := ReadField(ks[i]);
        if f == None {
          return None;
        }
        assert Unread() == before[readSize - was..];
        got := got + [f.value];
      }
      assert ks[|ks|..] == [];
      NoMore(got, readSize - start, Unread());
      fs := Some(got);
    }

    /** Takes out the message that comes next; nothing is promised about one that was not put in. */
    method ReadMessage() returns (m: Option<Message>)
      requires Wf()
      modifies this`readSize
      ensures Wf()
      ensures var d := DecodeMessage(old(Unread()));
              d.Inner? ==> m.Some? && fresh(m.value) && m.value.Wf() && m.value.AsValue() == d.value
                           && readSize == old(readSize) + d.used
    {
      hide DecodeHeader;
      ghost var all := Unread();
      var h := ReadHeader();
      if h == None || readSize + h.value.0 > writeSize {
        return None;
      }
      var (n, t, o) := h.value;
      var bytes := Unread()[..n];
      if DecodeHeader(all).Header? {
        ghost var used := DecodeHeader(all).used;
        assert Unread() == all[used..];
        assert all[used..][..n] == all[used..used + n];
      }
      readSize := readSize + n;
      var inner := new Message.FromBytes(t, bytes, o);
      m := Some(inner);
    }

    /** Each number is read, and the overrun looked for, before the next. */
    method ReadHeader() returns (r: Option<(nat, Match, nat)>)
      requires Wf()
      modifies this`readSize
      ensures Wf() && (r.Some? ==> r.value.2 <= U32_NIL)
      ensures var d := DecodeHeader(old(Unread()));
              d.Header? ==> r == Some((d.size, d.type_, d.tagOffset)) && readSize == old(readSize) + d.used
    {
      hide DecodeU, DecodeTypeAndTag;
      ghost var all := Unread();
      var reader := new ZeroCopyBuffer(buf, readSize, writeSize - readSize);
      assert reader.Unread() == all;
      var n := reader.ReadNumber(W32, all);
      if !reader.status.Good? {
        return None;
      }
      var tt := ReadTypeAndTag(reader, all[reader.readPos - readSize..]);
      if tt == None {
        return None;
      }
      readSize := reader.readPos;
      r := Some((n, tt.value.0, tt.value.1));
    }

    static method ReadTypeAndTag(reader: ZeroCopyBuffer, ghost all: seq<Byte>) returns (r: Option<(Match, nat)>)
      requires reader.Valid() && reader.status.Good? && all == reader.Unread()
      modifies reader`readPos, reader`status, reader`error
      ensures reader.Valid() && (r.Some? ==> r.value.1 <= U32_NIL)
      ensures reader.readPos >= old(reader.readPos)
      ensures var d := DecodeTypeAndTag(all);
              d.TypeAndTag? ==> r == Some((d.type_, d.tagOffset)) && reader.readPos == old(reader.readPos) + d.used
    {
      hide DecodeU;
      ghost var start := reader.readPos;
      var t := reader.ReadNumber(W64, all);
      if !reader.status.Good? {
        return None;
      }
      var o := reader.ReadNumber(W32, all[reader.readPos - start..]);
      if !reader.status.Good? {
        return None;
      }
      r := Some((t, o));
    }

    /** Assignment shares the block of a large message and copies the bytes of a small one. */
    method Assign(rhs: Message)
      requires Wf() && rhs.Wf() && (rhs != this ==> Apart(rhs))
      modifies this, small, large, rhs.large
      ensures Wf() && rhs.Wf() && large == rhs.large
      ensures rhs != this ==> AsValue() == old(rhs.AsValue()).(read := 0) && rhs.AsValue() == old(rhs.AsValue())
      ensures rhs == this ==> unchanged(this) && unchanged(small) && (large != null ==> unchanged(large))
      ensures large != null && large != old(large) ==>
                old(rhs.large) != null && large.count == old(rhs.large.count) + 1 && large.data == old(rhs.large.data)
      ensures large != null && large == old(large) ==> large.count == old(large.count) && large.data == old(large.data)
      ensures old(large) != null && large != old(large) ==>
                old(large).count == old(large.count) - 1 && old(large).data == old(large.data)
                && (old(large).alive <==> old(large).count > 0)
    {
      if this != rhs {
        type_, tagOffset := rhs.type_, rhs.tagOffset;
        writeSize, readSize := 0, 0;
        if rhs.IsSmall() {
          if !IsSmall() {
            large.Release();
            large := null;
          }
          buf, size := small, SMALL_MSG_SIZE;
          forall k | 0 <= k < rhs.writeSize {
            small[k] := rhs.small[k];
          }
        } else {
          rhs.large.Retain();
          if large != null {
            large.Release();
          }
          large := rhs.large;
          buf, size := large.data, large.data.Length;
        }
        writeSize := rhs.writeSize;
      }
    }

    /** The destructor gives up the block. */
    method Drop()
      requires Wf()
      modifies large
      ensures large != null ==> large.count == old(large.count) - 1 && large.data == old(large.data)
                                && (large.alive <==> large.count > 0)
    {
      if large != null {
        large.Release();
      }
    }
  }

  lemma NestedForm(v: Value, before: seq<Byte>, fs: seq<Field>)
    requires v.tagOffset <= U32_NIL && |fs| == 3 && fs[0] == UInt(W32, Low32(|v.bytes|))
    requires fs[1] == UInt(W64, v.type_) && fs[2] == UInt(W32, v.tagOffset)
    ensures forall f :: f in fs ==> WellTyped(f)
    ensures SizeOf(fs[0]) + SizeOf(fs[1]) + SizeOf(fs[2]) == |EncodeAll(fs)|
    ensures |EncodeMessage(v)| == |EncodeAll(fs)| + Low32(|v.bytes|)
    ensures before + EncodeAll(fs) + v.bytes[..Low32(|v.bytes|)] == before + EncodeMessage(v)
  {
    HeaderSize(fs[0], fs[1], fs[2]);
    assert fs == [fs[0], fs[1], fs[2]];
  }

  lemma HeaderSize(f1: Field, f2: Field, f3: Field)
    requires WellTyped(f1) && WellTyped(f2) && WellTyped(f3)
    ensures SizeOf(f1) == |EncodeField(f1)| && SizeOf(f2) == |EncodeField(f2)| && SizeOf(f3) == |EncodeField(f3)|
    ensures EncodeAll([f1, f2, f3]) == EncodeField(f1) + EncodeField(f2) + EncodeField(f3)
  {
    hide EncodeField, SizeOf;
    SizeExact(f1);
    SizeExact(f2);
    SizeExact(f3);
    assert [f1, f2, f3][1..] == [f2, f3] && [f2, f3][1..] == [f3] && [f3][1..] == [];
    assert EncodeAll([f3]) == EncodeField(f3);
  }
}
