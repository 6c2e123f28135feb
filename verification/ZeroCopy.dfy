/** The in-place reader and writer over a stretch of a byte array, proved against the formats. */
module ZeroCopy {
  import opened Codec
  import opened Fields
  import opened Ids

  datatype Status = Good | ReadOverflow | WriteOverflow

  datatype Error = StreamBufferOverflow | NegativeToUnsigned | ValueTooLarge

  class ZeroCopyBuffer {
    const data: array<Byte>
    const head: nat
    const tail: nat
    var readPos: nat
    var writePos: nat
    var status: Status
    var error: Option<Error>

    ghost predicate Valid()
      reads this
    {
      head <= readPos <= tail && head <= writePos <= tail <= data.Length
    }

    function Unread(): seq<Byte>
      requires Valid()
      reads this, data
    {
      data[readPos..tail]
    }

    function Room(): nat
      requires Valid()
      reads this
    {
      tail - writePos
    }

    ghost predicate Clean()
      reads this
    {
      status.Good? && error.None?
    }

    constructor (data: array<Byte>, at: nat, length: nat)
      requires at + length <= data.Length
      ensures Valid() && Clean()
      ensures this.data == data && head == at && tail == at + length && readPos == at && writePos == at
    {
      this.data, head, tail, readPos, writePos := data, at, at + length, at, at;
      status, error := Good, None;
    }

    // -------------------------------------------------------------- bytes

    method GetChar() returns (c: Byte)
      requires Valid()
      modifies this`readPos, this`status
      ensures Valid()
      ensures if old(Unread()) == [] then c == 0 && status.ReadOverflow? && readPos == old(readPos)
              else c == old(Unread())[0] && status == old(status) && readPos == old(readPos) + 1
    {
      if readPos + 1 > tail {
        status := ReadOverflow;
        return 0;
      }
      c := data[readPos];
      readPos := readPos + 1;
    }

    method ReadBytes(n: nat) returns (s: seq<Byte>)
      requires Valid()
      modifies this`readPos, this`status
      ensures Valid()
      ensures if |old(Unread())| < n then s == [] && status.ReadOverflow? && readPos == old(readPos)
              else s == old(Unread())[..n] && status == old(status) && readPos == old(readPos) + n
    {
      if readPos + n > tail {
        status := ReadOverflow;
        return [];
      }
      s := data[readPos..readPos + n];
      readPos := readPos + n;
    }

    /** Claims the next n bytes; none are claimed when they do not fit. */
    method AppendWrite(n: nat) returns (at: Option<nat>)
      requires Valid()
      modifies this`writePos, this`status
      ensures Valid()
      ensures if n <= old(Room()) then
                at == Some(old(writePos)) && writePos == old(writePos) + n && status == old(status)
              else at == None && writePos == old(writePos) && status.WriteOverflow?
    {
      if writePos + n - head > tail - head {
        status := WriteOverflow;
        return None;
      }
      at := Some(writePos);
      writePos := writePos + n;
    }

    // -------------------------------------------------------------- writers

    /** The tag and the n low bytes of v; the room was reserved, so the claim cannot fail. */
    method WriteTagged(tag: Byte, v: nat, n: nat)
      requires Valid() && n + 1 <= Room()
      modifies this`writePos, this`status, data
      ensures Valid() && status == old(status) && writePos == old(writePos) + n + 1
      ensures data[old(writePos)..writePos] == [tag] + Le(v, n)
      ensures forall k :: 0 <= k < old(writePos) ==> data[k] == old(data[k])
    {
      hide Le;
      var p := AppendWrite(n + 1);
      var at := p.value;
      data[at] := tag;
      ghost var all := Le(v, n);
      var i, x := 0, v;
      while i < n
        modifies data
        invariant i <= n && data[at] == tag && Le(x, n - i) == all[i..]
        invariant forall k :: 0 <= k < i ==> data[at + 1 + k] == all[k]
        invariant forall k :: 0 <= k < at ==> data[k] == old(data[k])
      {
        LeNext(x, n, i, all);
        data[at + 1 + i] := x % 256;
        i, x := i + 1, x / 256;
      }
      assert data[at..writePos] == [tag] + all;
    }

    /** A value that is its own byte. */
    method WriteSmall(v: Byte)
      requires Valid() && 1 <= Room()
      modifies this`writePos, this`status, data
      ensures Valid() && status == old(status) && writePos == old(writePos) + 1
      ensures data[old(writePos)..writePos] == [v]
      ensures forall k :: 0 <= k < old(writePos) ==> data[k] == old(data[k])
    {
      var p := AppendWrite(1);
      data[p.value] := v;
    }

    method WriteU16(v: nat)
      requires Valid() && v < W16.Bound() && |EncodeU(v)| <= Room()
      modifies this`writePos, this`status, data
      ensures Valid() && status == old(status) && writePos == old(writePos) + |EncodeU(v)|
      ensures data[old(writePos)..writePos] == EncodeU(v)
      ensures forall k :: 0 <= k < old(writePos) ==> data[k] == old(data[k])
    {
      LenByLimits(v);
      if v < 0x80 {
        WriteSmall(v);
      } else if v < 64 {
        assert false;
      } else {
        WriteTagged(0x81, v, 2);
      }
    }

    method WriteU32(v: nat)
      requires Valid() && v < W32.Bound() && |EncodeU(v)| <= Room()
      modifies this`writePos, this`status, data
      ensures Valid() && status == old(status) && writePos == old(writePos) + |EncodeU(v)|
      ensures data[old(writePos)..writePos] == EncodeU(v)
      ensures forall k :: 0 <= k < old(writePos) ==> data[k] == old(data[k])
    {
      LenByLimits(v);
      if v < 0x80 {
        WriteSmall(v);
      } else if v < 64 {
        assert false;
      } else if v < 0x1_0000 {
        WriteTagged(0x81, v, 2);
      } else if v < 0x100_0000 {
        WriteTagged(0x82, v, 3);
      } else {
        WriteTagged(0x83, v, 4);
      }
    }

    method WriteU64(v: nat)
      requires Valid() && v < W64.Bound() && |EncodeU(v)| <= Room()
      modifies this`writePos, this`status, data
      ensures Valid() && status == old(status) && writePos == old(writePos) + |EncodeU(v)|
      ensures data[old(writePos)..writePos] == EncodeU(v)
      ensures forall k :: 0 <= k < old(writePos) ==> data[k] == old(data[k])
    {
      LenByLimits(v);
      if v < 0x80 {
        WriteSmall(v);
      } else if v < 64 {
        assert false;
      } else if v < 0x1_0000 {
        WriteTagged(0x81, v, 2);
      } else if v < 0x100_0000 {
        WriteTagged(0x82, v, 3);
      } else if v < 0x1_0000_0000 {
        WriteTagged(0x83, v, 4);
      } else if v < 0x100_0000_0000 {
        WriteTagged(0x84, v, 5);
      } else if v < 0x1_0000_0000_0000 {
        WriteTagged(0x85, v, 6);
      } else if v < 0x100_0000_0000_0000 {
        WriteTagged(0x86, v, 7);
      } else {
        WriteTagged(0x87, v, 8);
      }
    }

    method WriteI16(v: int)
      requires Valid() && InI(W16, v) && |EncodeI(W16, v)| <= Room()
      modifies this`writePos, this`status, data
      ensures Valid() && status == old(status) && writePos == old(writePos) + |EncodeI(W16, v)|
      ensures data[old(writePos)..writePos] == EncodeI(W16, v)
      ensures forall k :: 0 <= k < old(writePos) ==> data[k] == old(data[k])
    {
      TaggedOrSmall(W16, v);
      hide EncodeI;
      if 0 <= v < 0x80 {
        WriteSmall(v);
      } else {
        var sign, temp := 0, v;
        if v < 0 {
          sign, temp := 0x40, Negate(W16, v);
        }
        var bits := if temp < 0 then temp + W16.Bound() else temp;
        TaggedFormI(W16, v);
        if temp < 0x100 {
          WriteTagged(0x80 + sign, bits, 1);
        } else {
          WriteTagged(0x81 + sign, bits, 2);
        }
      }
    }

    method WriteI32(v: int)
      requires Valid() && InI(W32, v) && |EncodeI(W32, v)| <= Room()
      modifies this`writePos, this`status, data
      ensures Valid() && status == old(status) && writePos == old(writePos) + |EncodeI(W32, v)|
      ensures data[old(writePos)..writePos] == EncodeI(W32, v)
      ensures forall k :: 0 <= k < old(writePos) ==> data[k] == old(data[k])
    {
      TaggedOrSmall(W32, v);
      hide EncodeI;
      if 0 <= v < 0x80 {
        WriteSmall(v);
      } else {
        var sign, temp := 0, v;
        if v < 0 {
          sign, temp := 0x40, Negate(W32, v);
        }
        var bits := if temp < 0 then temp + W32.Bound() else temp;
        TaggedFormI(W32, v);
        if temp < 0x100 {
          WriteTagged(0x80 + sign, bits, 1);
        } else if temp < 0x1_0000 {
          WriteTagged(0x81 + sign, bits, 2);
        } else if temp < 0x100_0000 {
          WriteTagged(0x82 + sign, bits, 3);
        } else {
          WriteTagged(0x83 + sign, bits, 4);
        }
      }
    }

    method WriteI64(v: int)
      requires Valid() && InI(W64, v) && |EncodeI(W64, v)| <= Room()
      modifies this`writePos, this`status, data
      ensures Valid() && status == old(status) && writePos == old(writePos) + |EncodeI(W64, v)|
      ensures data[old(writePos)..writePos] == EncodeI(W64, v)
      ensures forall k :: 0 <= k < old(writePos) ==> data[k] == old(data[k])
    {
      TaggedOrSmall(W64, v);
      hide EncodeI;
      if 0 <= v < 0x80 {
        WriteSmall(v);
      } else {
        var sign, temp := 0, v;
        if v < 0 {
          sign, temp := 0x40, Negate(W64, v);
        }
        var bits := if temp < 0 then temp + W64.Bound() else temp;
        TaggedFormI(W64, v);
        if temp < 0x100 {
          WriteTagged(0x80 + sign, bits, 1);
        } else if temp < 0x1_0000 {
          WriteTagged(0x81 + sign, bits, 2);
        } else if temp < 0x100_0000 {
          WriteTagged(0x82 + sign, bits, 3);
        } else if temp < 0x1_0000_0000 {
          WriteTagged(0x83 + sign, bits, 4);
        } else if temp < 0x100_0000_0000 {
          WriteTagged(0x84 + sign, bits, 5);
        } else if temp < 0x1_0000_0000_0000 {
          WriteTagged(0x85 + sign, bits, 6);
        } else if temp < 0x100_0000_0000_0000 {
          WriteTagged(0x86 + sign, bits, 7);
        } else {
          WriteTagged(0x87 + sign, bits, 8);
        }
      }
    }

    /** Raw bytes: all of them, or none when they do not fit. */
    method WriteBytes(s: seq<Byte>)
      requires Valid()
      modifies this`writePos, this`status, data
      ensures Valid()
      ensures if |s| <= old(Room()) then
                status == old(status) && writePos == old(writePos) + |s| && data[old(writePos)..writePos] == s
              else status.WriteOverflow? && writePos == old(writePos) && data[..] == old(data[..])
      ensures forall k :: 0 <= k < old(writePos) ==> data[k] == old(data[k])
    {
      if writePos + |s| - head > tail - head {
        status := WriteOverflow;
        return;
      }
      forall k | 0 <= k < |s| {
        data[writePos + k] := s[k];
      }
      writePos := writePos + |s|;
    }

    /**
     The generic writers' limits; those of the narrower types end sooner. A negated
     smallest value is below all of them.
     */
    static method DefaultLen(w: Width, v: int) returns (n: nat)
      requires v < w.Bound()
      ensures n == 1 + LimitLen(v)
    {
      if v < 0x100 {
        n := 2;
      } else if w == W16 || v < 0x1_0000 {
        n := 3;
      } else if v < 0x100_0000 {
        n := 4;
      } else if w == W32 || v < 0x1_0000_0000 {
        n := 5;
      } else if v < 0x100_0000_0000 {
        n := 6;
      } else if v < 0x1_0000_0000_0000 {
        n := 7;
      } else if v < 0x100_0000_0000_0000 {
        n := 8;
      } else {
        n := 9;
      }
    }

    /** The generic writer for unsigned values, which notices when there is no room. */
    method WriteDefaultU(w: Width, v: nat)
      requires Valid() && status.Good? && v < w.Bound()
      modifies this`writePos, this`status, this`error, data
      ensures Valid()
      ensures if |EncodeShortU(v)| <= old(Room()) then
                && status.Good? && error == old(error) && writePos == old(writePos) + |EncodeShortU(v)|
                && data[old(writePos)..writePos] == EncodeShortU(v)
              else
                && status.WriteOverflow? && error == Some(StreamBufferOverflow)
                && writePos == old(writePos) && data[..] == old(data[..])
      ensures forall k :: 0 <= k < old(writePos) ==> data[k] == old(data[k])
    {
      ShortForm(v);
      hide EncodeShortU, Le, LimitLen;
      var bytes := [];
      if v < 0x80 {
        bytes := [v];
      } else {
        var n := DefaultLen(w, v);
        bytes := [0x80 - 2 + n] + Le(v, n - 1);
      }
      WriteOrFail(bytes);
    }

    /** The generic writer for signed values emits what the zero-copy writer does. */
    method WriteDefaultI(w: Width, v: int)
      requires Valid() && status.Good? && InI(w, v)
      modifies this`writePos, this`status, this`error, data
      ensures Valid()
      ensures if |EncodeI(w, v)| <= old(Room()) then
                && status.Good? && error == old(error) && writePos == old(writePos) + |EncodeI(w, v)|
                && data[old(writePos)..writePos] == EncodeI(w, v)
              else
                && status.WriteOverflow? && error == Some(StreamBufferOverflow)
                && writePos == old(writePos) && data[..] == old(data[..])
      ensures forall k :: 0 <= k < old(writePos) ==> data[k] == old(data[k])
    {
      TaggedOrSmall(w, v);
      hide EncodeI, Le;
      var bytes := [];
      if 0 <= v < 0x80 {
        bytes := [v];
      } else {
        var sign, temp := 0, v;
        if v < 0 {
          sign, temp := 0x40, Negate(w, v);
        }
        TaggedFormI(w, v);
        LimitIsLen(temp);
        var n := DefaultLen(w, temp);
        bytes := [0x80 - 2 + sign + n] + Le(if temp < 0 then temp + w.Bound() else temp, n - 1);
      }
      WriteOrFail(bytes);
    }

    method WriteOrFail(bytes: seq<Byte>)
      requires Valid() && status.Good?
      modifies this`writePos, this`status, this`error, data
      ensures Valid()
      ensures if |bytes| <= old(Room()) then
                && status.Good? && error == old(error) && writePos == old(writePos) + |bytes|
                && data[old(writePos)..writePos] == bytes
              else
                && status.WriteOverflow? && error == Some(StreamBufferOverflow)
                && writePos == old(writePos) && data[..] == old(data[..])
      ensures forall k :: 0 <= k < old(writePos) ==> data[k] == old(data[k])
    {
      WriteBytes(bytes);
      if !status.Good? {
        error := Some(StreamBufferOverflow);
      }
    }

    /** One value of any type. */
    method Write(f: Field)
      requires Valid() && WellTyped(f) && |EncodeField(f)| <= Room()
      modifies this`writePos, this`status, data
      ensures Valid() && status == old(status) && writePos == old(writePos) + |EncodeField(f)|
      ensures data[old(writePos)..writePos] == EncodeField(f)
      ensures forall k :: 0 <= k < old(writePos) ==> data[k] == old(data[k])
      decreases f
    {
      hide EncodeU, EncodeI;
      match f {
        case UInt(W16, u) => WriteU16(u);
        case UInt(W32, u) => WriteU32(u);
        case UInt(W64, u) => WriteU64(u);
        case SInt(W16, i) => WriteI16(i);
        case SInt(W32, i) => WriteI32(i);
        case SInt(W64, i) => WriteI64(i);
        case Fix(x) => WriteBytes(Le(x, 4));
        case Str(chars) =>
          WriteU64(|chars|);
          WriteBytes(chars);
          assert data[old(writePos)..writePos] == EncodeU(|chars|) + chars;
        case List(_, fs) => WriteList(fs);
      }
    }

    /** A sequence: its length and then its elements. */
    method WriteList(fs: seq<Field>)
      requires Valid() && |fs| < W64.Bound() && forall f :: f in fs ==> WellTyped(f)
      requires |EncodeU(|fs|)| + |EncodeAll(fs)| <= Room()
      modifies this`writePos, this`status, data
      ensures Valid() && status == old(status) && writePos == old(writePos) + |EncodeU(|fs|)| + |EncodeAll(fs)|
      ensures data[old(writePos)..writePos] == EncodeU(|fs|) + EncodeAll(fs)
      ensures forall k :: 0 <= k < old(writePos) ==> data[k] == old(data[k])
      decreases fs, 1
    {
      hide EncodeU, EncodeField, EncodeAll, WellTyped;
      WriteU64(|fs|);
      ghost var at, first := writePos, data[old(writePos)..writePos];
      WriteEach(fs);
      assert data[old(writePos)..at] == first;
      assert data[old(writePos)..writePos] == data[old(writePos)..at] + data[at..writePos];
    }

    method WriteEach(fs: seq<Field>)
      requires Valid() && (forall f :: f in fs ==> WellTyped(f)) && |EncodeAll(fs)| <= Room()
      modifies this`writePos, this`status, data
      ensures Valid() && status == old(status) && writePos == old(writePos) + |EncodeAll(fs)|
      ensures data[old(writePos)..writePos] == EncodeAll(fs)
      ensures forall k :: 0 <= k < old(writePos) ==> data[k] == old(data[k])
      decreases fs, 0
    {
      hide EncodeU, EncodeField, EncodeAll, WellTyped;
      ghost var at := writePos;
      EncodePrefix(fs, 0);
      for i := 0 to |fs|
        invariant Valid() && status == old(status)
        invariant writePos == at + |EncodeAll(fs[..i])|
        invariant data[at..writePos] == EncodeAll(fs[..i])
        invariant forall k :: 0 <= k < at ==> data[k] == old(data[k])
      {
        EncodePrefix(fs, i);
        ghost var here := writePos;
        ghost var done := data[at..here];
        Write(fs[i]);
        assert data[at..here] == done;
        assert data[at..writePos] == done + data[here..writePos];
      }
      assert fs[..|fs|] == fs;
    }

    // -------------------------------------------------------------- readers

    /** The reader for unsigned values of w bytes. */
    method ReadUnsigned(w: Width) returns (v: nat)
      requires Valid() && status.Good?
      modifies this`readPos, this`status, this`error
      ensures Valid() && readPos >= old(readPos)
      ensures match DecodeU(w, old(Unread()))
              case Got(x, n) => v == x && status.Good? && error == old(error) && readPos == old(readPos) + n
              case Short => status.ReadOverflow? && error.Some?
              case _ => v == old(Unread())[0] && status.Good? && error.Some? && readPos == old(readPos) + 1
    {
      ghost var all := Unread();
      v := GetChar();
      if !status.Good? {
        error := Some(StreamBufferOverflow);
        return;
      }
      if v > 0x7f {
        if HasSign(v) {
          error := Some(NegativeToUnsigned);
          return;
        }
        var n := TagLen(v);
        if w.Bytes() < n {
          error := Some(ValueTooLarge);
          return;
        }
        var s := ReadBytes(n);
        if !status.Good? {
          error := Some(StreamBufferOverflow);
          return;
        }
        assert s == all[1..1 + n];
        v := Val(s);
      }
    }

    /** A number that is in front of what is known to be unread. */
    method ReadNumber(w: Width, ghost unread: seq<Byte>) returns (v: nat)
      requires Valid() && status.Good? && unread == Unread()
      modifies this`readPos, this`status, this`error
      ensures Valid() && readPos >= old(readPos) && (status.Good? ==> v < w.Bound())
      ensures Unread() == unread[readPos - old(readPos)..]
      ensures var d := DecodeU(w, unread); d.Got? ==> status.Good? && v == d.value && readPos == old(readPos) + d.used
    {
      DecodedFits(w, unread);
      v := ReadUnsigned(w);
    }

    method ReadSigned(w: Width) returns (v: int)
      requires Valid() && status.Good?
      modifies this`readPos, this`status, this`error
      ensures Valid()
      ensures match DecodeI(w, old(Unread()))
              case Got(x, n) => v == x && status.Good? && error == old(error) && readPos == old(readPos) + n
              case Short => status.ReadOverflow? && error.Some?
              case _ => status.Good? && error.Some? && readPos == old(readPos) + 1
    {
      hide Val;
      v := 0;
      ghost var all := Unread();
      var tag := GetChar();
      if !status.Good? {
        error := Some(StreamBufferOverflow);
        return;
      }
      if tag > 0x7f {
        var sign := if HasSign(tag) then -1 else 1;
        var n := TagLen(tag);
        if w.Bytes() < n {
          error := Some(ValueTooLarge);
          return;
        }
        ghost var rest := Unread();
        assert rest == all[1..];
        var s := ReadBytes(n);
        if !status.Good? {
          error := Some(StreamBufferOverflow);
          return;
        }
        assert s == rest[..n] == all[1..1 + n];
        v := Signed(w, s);
        if sign < 0 {
          v := Negate(w, v);
        }
      } else {
        v := tag;
      }
    }

    /** One value of any type; only an overrun is reported to the caller of a message. */
    method Read(k: Kind) returns (f: Field)
      requires Valid() && status.Good?
      modifies this`readPos, this`status, this`error
      ensures Valid()
      ensures match DecodeField(k, old(Unread()), old(error).Some?)
              case Parsed(g, n) => f == g && status.Good? && error == old(error) && readPos == old(readPos) + n
              case Overrun => status.ReadOverflow? && error.Some?
              case Rejected(n) => status.Good? && error.Some? && readPos == old(readPos) + n
      decreases k, 0
    {
      hide DecodeU, DecodeI, Val;
      match k {
        case UKind(w) =>
          ShortOfNothing(w);
          var u := ReadUnsigned(w);
          f := UInt(w, u);
        case IKind(w) =>
          ShortOfNothing(w);
          var i := ReadSigned(w);
          f := SInt(w, i);
        case FixKind =>
          f := Fix(0);
          var s := ReadBytes(4);
          if !status.Good? {
            error := Some(StreamBufferOverflow);
            return;
          }
          f := Fix(Val(s));
        case StrKind =>
          ShortOfNothing(W32);
          f := Str([]);
          var len := ReadUnsigned(W32);
          if !status.Good? {
            return;
          }
          var s := ReadBytes(len);
          if !status.Good? {
            error := Some(StreamBufferOverflow);
            return;
          }
          f := Str(s);
        case ListKind(e) =>
          f := ReadList(e);
      }
    }

    method ReadList(e: Kind) returns (f: Field)
      requires Valid() && status.Good?
      modifies this`readPos, this`status, this`error
      ensures Valid()
      ensures match DecodeField(ListKind(e), old(Unread()), old(error).Some?)
              case Parsed(g, n) => f == g && status.Good? && error == old(error) && readPos == old(readPos) + n
              case Overrun => status.ReadOverflow? && error.Some?
              case Rejected(n) => status.Good? && error.Some? && readPos == old(readPos) + n
      decreases e, 2
    {
      hide DecodeU, DecodeI, DecodeMany, Val;
      ShortOfNothing(W32);
      f := List(e, []);
      ghost var all := Unread();
      var len := ReadUnsigned(W32);
      if !status.Good? {
        return;
      }
      RejectedLen(all);
      assert Unread() == all[DecodeLen(all).used..];
      var fs := ReadElems(e, len);
      f := List(e, fs);
    }

    /** The element loop: it stops behind the first element after which an error code is set. */
    method ReadElems(e: Kind, len: nat) returns (fs: seq<Field>)
      requires Valid() && status.Good?
      modifies this`readPos, this`status, this`error
      ensures Valid()
      ensures match DecodeMany(e, len, old(Unread()), old(error).Some?)
              case ParsedAll(gs, n) => fs == gs && status.Good? && error == old(error) && readPos == old(readPos) + n
                                       && (len > 0 ==> error.None?)
              case OverrunAll => status.ReadOverflow? && error.Some?
              case RejectedAll(n) => status.Good? && error.Some? && readPos == old(readPos) + n
      decreases e, 1
    {
      hide DecodeField, DecodeMany, Resumed;
      ghost var start, bytes, failed := readPos, Unread(), error.Some?;
      fs := [];
      NoneRead(DecodeMany(e, len, bytes, failed));
      var i := 0;
      while i < len
        invariant i <= len && Valid() && status.Good? && readPos >= start
        invariant error == old(error) && (i > 0 ==> error.None?)
        invariant Resumed(fs, readPos - start, DecodeMany(e, len - i, Unread(), error.Some?)) ==
                  DecodeMany(e, len, bytes, failed)
      {
        ghost var before, was := Unread(), readPos;
        NextRead(e, fs, readPos - start, len - i, before, error.Some?);
        var x := Read(e);
        if error.Some? {
          return;
        }
        assert Unread() == before[readPos - was..];
        fs := fs + [x];
        i := i + 1;
      }
      AllRead(e, fs, readPos - start, Unread(), error.Some?);
    }

    /** The members of a structure, up to the first that sets an error code. */
    method ReadStruct(ks: seq<Kind>) returns (fs: seq<Field>)
      requires Valid() && Clean()
      modifies this`readPos, this`status, this`error
      ensures Valid()
      ensures match DecodeAll(ks, old(Unread()))
              case ParsedAll(gs, n) => fs == gs && Clean() && readPos == old(readPos) + n
              case OverrunAll => status.ReadOverflow? && error.Some?
              case RejectedAll(n) => status.Good? && error.Some? && readPos == old(readPos) + n
    {
      hide DecodeField, DecodeAll, Resumed;
      ghost var start, all := readPos, Unread();
      fs := [];
      NoneRead(DecodeAll(ks, all));
      assert ks[0..] == ks;
      for i := 0 to |ks|
        invariant Valid() && Clean() && readPos >= start
        invariant Resumed(fs, readPos - start, DecodeAll(ks[i..], Unread())) == DecodeAll(ks, all)
      {
        ghost var before, was := Unread(), readPos;
        assert ks[i..] == [ks[i]] + ks[i + 1..];
        NextMember(ks[i], ks[i + 1..], fs, readPos - start, before);
        var x := Read(ks[i]);
        if error.Some? {
          return;
        }
        assert Unread() == before[readPos - was..];
        fs := fs + [x];
      }
      assert ks[|ks|..] == [];
      NoMore(fs, readPos - start, Unread());
    }
  }

  /** The outcome of a sequence of which some elements have been read. */
  function Resumed(fs: seq<Field>, used: nat, r: ParsedAll): ParsedAll {
    match r
    case OverrunAll => OverrunAll
    case RejectedAll(n) => RejectedAll(used + n)
    case ParsedAll(more, n) => ParsedAll(fs + more, used + n)
  }

  lemma NoneRead(r: ParsedAll)
    ensures Resumed([], 0, r) == r
  {
  }

  lemma NoMore(fs: seq<Field>, used: nat, s: seq<Byte>)
    ensures Resumed(fs, used, DecodeAll([], s)) == ParsedAll(fs, used)
  {
  }

  /** One more member of a structure of which some have been read. */
  lemma NextMember(k: Kind, ks: seq<Kind>, fs: seq<Field>, used: nat, s: seq<Byte>)
    ensures var r, x := Resumed(fs, used, DecodeAll([k] + ks, s)), DecodeField(k, s, false);
            && (x.Overrun? ==> r == OverrunAll)
            && (x.Rejected? ==> r == RejectedAll(used + x.used))
            && (x.Parsed? ==> r == Resumed(fs + [x.field], used + x.used, DecodeAll(ks, s[x.used..])))
  {
    hide DecodeField, Resumed, Behind, DecodeAll;
    var x := DecodeField(k, s, false);
    FirstOfAll(k, ks, s);
    ResumedEarly(fs, used);
    if x.Parsed? {
      ResumedBehind(fs, used, x.field, x.used, DecodeAll(ks, s[x.used..]));
    }
  }

  lemma AllRead(e: Kind, fs: seq<Field>, used: nat, s: seq<Byte>, failed: bool)
    ensures Resumed(fs, used, DecodeMany(e, 0, s, failed)) == ParsedAll(fs, used)
  {
  }

  /** One more element of a sequence of which some have been read. */
  lemma NextRead(e: Kind, fs: seq<Field>, used: nat, count: nat, s: seq<Byte>, failed: bool)
    requires count > 0
    ensures var r, x := Resumed(fs, used, DecodeMany(e, count, s, failed)), DecodeField(e, s, failed);
            && (x.Overrun? ==> r == OverrunAll)
            && (x.Rejected? ==> r == RejectedAll(used + x.used))
            && (x.Parsed? && failed ==> r == RejectedAll(used + x.used))
            && (x.Parsed? && !failed ==>
                  r == Resumed(fs + [x.field], used + x.used, DecodeMany(e, count - 1, s[x.used..], false)))
  {
    hide DecodeField, Resumed, Behind;
    var x := DecodeField(e, s, failed);
    ResumedEarly(got := fs, used := used);
    if x.Parsed? && !failed {
      ResumedBehind(fs, used, x.field, x.used, DecodeMany(e, count - 1, s[x.used..], false));
    }
  }

  lemma ResumedEarly(got: seq<Field>, used: nat)
    ensures Resumed(got, used, OverrunAll) == OverrunAll
    ensures forall n :: Resumed(got, used, RejectedAll(n)) == RejectedAll(used + n)
  {
  }

  lemma ResumedBehind(got: seq<Field>, used: nat, f: Field, n: nat, more: ParsedAll)
    ensures Resumed(got, used, Behind(f, n, more)) == Resumed(got + [f], used + n, more)
  {
    if more.ParsedAll? {
      assert got + ([f] + more.fields) == got + [f] + more.fields;
    }
  }

  /** A rejected tag is taken for a length that is not zero. */
  lemma RejectedLen(s: seq<Byte>)
    requires s != []
    ensures LenRejected(s) ==> DecodeLen(s) == Got(s[0], 1) && s[0] >= TAG
  {
  }

  lemma ShortOfNothing(w: Width)
    ensures DecodeU(w, []) == Short && DecodeI(w, []) == Short
  {
  }

  lemma ShortForm(v: nat)
    requires v < W64.Bound()
    ensures LimitLen(v) <= 8
    ensures EncodeShortU(v) == if v < TAG then [v] else [TAG - 1 + LimitLen(v)] + Le(v, LimitLen(v))
  {
    LenByLimits(v);
  }

  lemma LimitIsLen(v: int)
    ensures 1 <= LimitLen(v) <= 8
  {
  }

  lemma TaggedOrSmall(w: Width, v: int)
    requires InI(w, v)
    ensures 0 <= v < TAG ==> EncodeI(w, v) == [v]
  {
  }

  lemma LeNext(x: nat, n: nat, i: nat, all: seq<Byte>)
    requires i < n == |all| && Le(x, n - i) == all[i..]
    ensures all[i] == x % 256 && Le(x / 256, n - (i + 1)) == all[i + 1..]
  {
    assert Le(x / 256, n - (i + 1)) == all[i..][1..] == all[i + 1..];
    assert all[i..][0] == all[i];
  }

  /** How the encoding of a sequence grows, element by element, and that each fits what is left. */
  lemma EncodePrefix(fs: seq<Field>, i: nat)
    requires i <= |fs| && forall f :: f in fs ==> WellTyped(f)
    ensures EncodeAll(fs[..0]) == []
    ensures i < |fs| ==> EncodeAll(fs[..i + 1]) == EncodeAll(fs[..i]) + EncodeField(fs[i])
    ensures |EncodeAll(fs)| >= |EncodeAll(fs[..i])| + (if i < |fs| then |EncodeField(fs[i])| else 0)
  {
    hide EncodeField;
    assert fs == fs[..i] + fs[i..];
    EncodeAllConcat(fs[..i], fs[i..]);
    if i < |fs| {
      assert fs[..i + 1] == fs[..i] + [fs[i]];
      EncodeAllConcat(fs[..i], [fs[i]]);
      assert [fs[i]][1..] == [];
      assert EncodeAll([fs[i]]) == EncodeField(fs[i]) + [];
    }
  }
}
