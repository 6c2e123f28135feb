/**
 The integer and string formats of the serialisation library, and the buffer
 that reads and writes them in place.

 A value below 0x80 is its own byte. Any other value is a tag byte, holding a
 sign bit and the number of bytes that follow, and then those bytes, lowest first.
 */
module Codec {

  type Byte = x: nat | x < 256

  datatype Width = W16 | W32 | W64 {
    function Bytes(): nat {
      match this
      case W16 => 2
      case W32 => 4
      case W64 => 8
    }

    /** One past the largest unsigned value. */
    function Bound(): nat {
      match this
      case W16 => 0x1_0000
      case W32 => 0x1_0000_0000
      case W64 => 0x1_0000_0000_0000_0000
    }

    function Half(): int {
      Bound() / 2
    }
  }

  // ---------------------------------------------------------------- little-endian numbers

  function Pow256(n: nat): (p: nat)
    ensures p >= 1
  {
    if n == 0 then 1 else 256 * Pow256(n - 1)
  }

  /** The n low bytes of v, lowest first. */
  function Le(v: nat, n: nat): (s: seq<Byte>)
    ensures |s| == n
  {
    if n == 0 then [] else [v % 256] + Le(v / 256, n - 1)
  }

  function Val(s: seq<Byte>): nat {
    if s == [] then 0 else s[0] + 256 * Val(s[1..])
  }

  lemma {:induction false} ValLe(v: nat, n: nat)
    requires v < Pow256(n)
    ensures Val(Le(v, n)) == v
  {
    if n > 0 {
      ValLe(v / 256, n - 1);
      assert Le(v, n)[1..] == Le(v / 256, n - 1);
    }
  }

  lemma {:induction false} LeVal(s: seq<Byte>)
    ensures Val(s) < Pow256(|s|) && Le(Val(s), |s|) == s
  {
    if s != [] {
      LeVal(s[1..]);
      assert s == [s[0]] + s[1..];
    }
  }

  lemma Pow256Is(n: nat)
    requires n <= 8
    ensures Pow256(n) == [1, 0x100, 0x1_0000, 0x100_0000, 0x1_0000_0000, 0x100_0000_0000,
                          0x1_0000_0000_0000, 0x100_0000_0000_0000, 0x1_0000_0000_0000_0000][n]
  {
    if n > 0 {
      Pow256Is(n - 1);
    }
  }

  /** How many bytes v needs; one for zero. */
  function ByteLen(v: nat): (n: nat)
    ensures n >= 1 && v < Pow256(n) && (n > 1 ==> Pow256(n - 1) <= v)
  {
    if v < 256 then 1 else 1 + ByteLen(v / 256)
  }

  lemma {:induction false} Pow256Grows(m: nat, n: nat)
    requires m <= n
    ensures Pow256(m) <= Pow256(n)
  {
    if m < n {
      Pow256Grows(m, n - 1);
    }
  }

  lemma ByteLenIs(v: nat, n: nat)
    requires n >= 1 && v < Pow256(n) && (n > 1 ==> Pow256(n - 1) <= v)
    ensures ByteLen(v) == n
  {
    if ByteLen(v) < n {
      Pow256Grows(ByteLen(v), n - 1);
    } else if n < ByteLen(v) {
      Pow256Grows(n, ByteLen(v) - 1);
    }
  }

  // ---------------------------------------------------------------- the formats

  const TAG: nat := 0x80
  const SIGN: nat := 0x40

  function Tagged(sign: nat, v: nat, n: nat): (s: seq<Byte>)
    requires (sign == 0 || sign == SIGN) && 1 <= n <= 8
    ensures |s| == n + 1
  {
    [TAG + sign + n - 1] + Le(v, n)
  }

  /** What the zero-copy writers emit; never a single byte behind a tag. */
  function EncodeU(v: nat): (s: seq<Byte>)
    requires v < W64.Bound()
  {
    LenWithin(v);
    if v < TAG then [v] else Tagged(0, v, if ByteLen(v) == 1 then 2 else ByteLen(v))
  }

  /** What the generic writers emit: always the shortest form. */
  function EncodeShortU(v: nat): (s: seq<Byte>)
    requires v < W64.Bound()
  {
    LenWithin(v);
    if v < TAG then [v] else Tagged(0, v, ByteLen(v))
  }

  predicate InI(w: Width, v: int) {
    -w.Half() <= v < w.Half()
  }

  /** Negation in w bytes: the smallest value stays as it is. */
  function Negate(w: Width, v: int): (r: int)
    requires InI(w, v)
    ensures InI(w, r)
  {
    if v == -w.Half() then v else -v
  }

  /** Both writers agree on signed values; they compare a negated value with each limit as a signed number. */
  function EncodeI(w: Width, v: int): (s: seq<Byte>)
    requires InI(w, v)
  {
    var temp := if v < 0 then Negate(w, v) else v;
    var sign := if v < 0 then SIGN else 0;
    if 0 <= v < TAG then [v]
    else if temp < 0 then Tagged(sign, temp + w.Bound(), 1)
    else LenWithin(temp); Tagged(sign, temp, ByteLen(temp))
  }

  lemma SmallMultiple(d: nat, k: int)
    requires 0 - d < d * k < d
    ensures k == 0
  {
    assert (k > 0 ==> d * k >= d) && (k < 0 ==> d * k <= 0 - d);
  }

  lemma DivUnique(v: nat, d: nat, q: nat, r: nat)
    requires r < d && v == d * q + r
    ensures v / d == q
  {
    assert d * (v / d - q) == r - v % d;
    SmallMultiple(d, v / d - q);
  }

  lemma DivTwice(v: nat, p: nat)
    requires p > 0
    ensures v / 256 / p == v / (256 * p)
  {
    var q, r := v / 256 / p, v / 256 % p;
    assert v == 256 * (p * q + r) + v % 256 == (256 * p) * q + (256 * r + v % 256);
    DivUnique(v, 256 * p, q, 256 * r + v % 256);
  }

  /** Byte k of a number, lowest first. */
  lemma {:induction false} LeAt(v: nat, n: nat, k: nat)
    requires k < n
    ensures Le(v, n)[k] == v / Pow256(k) % 256
  {
    if k > 0 {
      LeAt(v / 256, n - 1, k - 1);
      DivTwice(v, Pow256(k - 1));
    }
  }

  /**
   An unsigned value on the wire: itself below 0x80; or else a tag with the number
   of bytes that follow, at least two and no more than needed, lowest first.
   */
  lemma UnsignedBytes(v: nat)
    requires v < W64.Bound()
    ensures var s := EncodeU(v);
            if v < 0x80 then s == [v]
            else
              && 3 <= |s| <= 9 && s[0] == 0x80 + |s| - 2 && (|s| > 3 ==> Pow256(|s| - 2) <= v)
              && v < Pow256(|s| - 1) && forall k :: 0 <= k < |s| - 1 ==> s[k + 1] == v / Pow256(k) % 256
  {
    LenWithin(v);
    Pow256Is(2);
    Pow256Is(1);
    if v >= TAG {
      var n := if ByteLen(v) == 1 then 2 else ByteLen(v);
      TaggedBytes(0, v, n);
      hide Tagged, Pow256;
    }
  }

  lemma TaggedBytes(sign: nat, v: nat, n: nat)
    requires (sign == 0 || sign == SIGN) && 1 <= n <= 8
    ensures var s := Tagged(sign, v, n);
            s[0] == TAG + sign + n - 1 && forall k :: 0 <= k < n ==> s[k + 1] == v / Pow256(k) % 256
  {
    forall k | 0 <= k < n ensures Tagged(sign, v, n)[k + 1] == v / Pow256(k) % 256 {
      LeAt(v, n, k);
    }
  }

  /** A signed value: itself from 0 up to 0x7f; or else a tag with its sign, and its size without the sign. */
  lemma SignedBytes(w: Width, v: int)
    requires InI(w, v) && v != -w.Half()
    ensures var s, size := EncodeI(w, v), if v < 0 then -v else v;
            if 0 <= v < 0x80 then s == [v]
            else
              && 2 <= |s| <= 9 && s[0] == 0x80 + (if v < 0 then 0x40 else 0) + |s| - 2
              && (|s| > 2 ==> Pow256(|s| - 2) <= size) && size < Pow256(|s| - 1)
              && forall k :: 0 <= k < |s| - 1 ==> s[k + 1] == size / Pow256(k) % 256
  {
    var size: nat := if v < 0 then -v else v;
    LenWithin(size);
    TaggedBytes(if v < 0 then SIGN else 0, size, ByteLen(size));
    hide Tagged, Pow256;
  }

  lemma LenWithin(v: nat)
    requires v < W64.Bound()
    ensures ByteLen(v) <= 8
  {
    Pow256Is(8);
    if ByteLen(v) > 8 {
      Pow256Grows(8, ByteLen(v) - 1);
    }
  }

  lemma LenFits(w: Width, v: nat)
    requires v < w.Bound()
    ensures ByteLen(v) <= w.Bytes()
  {
    Pow256Is(w.Bytes());
    if ByteLen(v) > w.Bytes() {
      Pow256Grows(w.Bytes(), ByteLen(v) - 1);
    }
  }

  /** Short: the bytes ran out. Wrong: the tag's sign or length does not suit the type; only the tag is used up. */
  datatype Decoded = Got(value: int, used: nat) | Short | Negative | TooLarge

  function TagLen(tag: Byte): nat {
    tag % SIGN + 1
  }

  predicate HasSign(tag: Byte) {
    tag / SIGN % 2 == 1
  }

  function DecodeU(w: Width, s: seq<Byte>): (r: Decoded)
    ensures r.Got? ==> 1 <= r.used <= |s|
  {
    if s == [] then Short
    else if s[0] < TAG then Got(s[0], 1)
    else if HasSign(s[0]) then Negative
    else if w.Bytes() < TagLen(s[0]) then TooLarge
    else if |s| < 1 + TagLen(s[0]) then Short
    else Got(Val(s[1..1 + TagLen(s[0])]), 1 + TagLen(s[0]))
  }

  /** A w-byte pattern, shorter ones filled up with zeros, as a signed number. */
  function Signed(w: Width, s: seq<Byte>): (v: int)
    requires |s| <= w.Bytes()
    ensures InI(w, v)
  {
    LeVal(s);
    Pow256Is(w.Bytes());
    Pow256Grows(|s|, w.Bytes());
    if Val(s) < w.Half() then Val(s) else Val(s) - w.Bound()
  }

  function DecodeI(w: Width, s: seq<Byte>): (r: Decoded)
    ensures r.Got? ==> 1 <= r.used <= |s|
  {
    if s == [] then Short
    else if s[0] < TAG then Got(s[0], 1)
    else if w.Bytes() < TagLen(s[0]) then TooLarge
    else if |s| < 1 + TagLen(s[0]) then Short
    else
      var v := Signed(w, s[1..1 + TagLen(s[0])]);
      Got(if HasSign(s[0]) then Negate(w, v) else v, 1 + TagLen(s[0]))
  }

  // ---------------------------------------------------------------- round trips

  lemma TaggedU(w: Width, v: nat, n: nat, rest: seq<Byte>)
    requires 1 <= n <= w.Bytes() && v < Pow256(n)
    ensures DecodeU(w, Tagged(0, v, n) + rest) == Got(v, n + 1)
  {
    var s := Tagged(0, v, n) + rest;
    assert s[1..1 + n] == Le(v, n);
    ValLe(v, n);
  }

  lemma RoundTripU(w: Width, v: nat, rest: seq<Byte>)
    requires v < w.Bound()
    ensures DecodeU(w, EncodeU(v) + rest) == Got(v, |EncodeU(v)|)
  {
    LenFits(w, v);
    Pow256Is(2);
    if v >= TAG {
      TaggedU(w, v, if ByteLen(v) == 1 then 2 else ByteLen(v), rest);
    }
  }

  /** The zero-copy reader also takes the generic writer's shorter form. */
  lemma RoundTripShortU(w: Width, v: nat, rest: seq<Byte>)
    requires v < w.Bound()
    ensures DecodeU(w, EncodeShortU(v) + rest) == Got(v, |EncodeShortU(v)|)
  {
    LenFits(w, v);
    if v >= TAG {
      TaggedU(w, v, ByteLen(v), rest);
    }
  }

  lemma DecodeTaggedI(w: Width, tag: Byte, body: seq<Byte>, rest: seq<Byte>)
    requires tag >= TAG && |body| == TagLen(tag) <= w.Bytes()
    ensures DecodeI(w, [tag] + body + rest) ==
            Got(if HasSign(tag) then Negate(w, Signed(w, body)) else Signed(w, body), 1 + |body|)
  {
    hide Signed, Negate, TagLen, HasSign;
    var s := [tag] + body + rest;
    assert s[1..1 + TagLen(tag)] == body;
  }

  lemma TaggedI(w: Width, sign: nat, v: nat, n: nat, rest: seq<Byte>)
    requires 1 <= n <= w.Bytes() && v < Pow256(n) && v < w.Half() && (sign == 0 || sign == SIGN)
    ensures DecodeI(w, Tagged(sign, v, n) + rest) == Got(if sign == SIGN then Negate(w, v) else v, n + 1)
  {
    var tag := TAG + sign + n - 1;
    assert TagLen(tag) == n && (HasSign(tag) <==> sign == SIGN);
    ValLe(v, n);
    DecodeTaggedI(w, tag, Le(v, n), rest);
  }

  /** The smallest value keeps its sign when negated, so a single byte, zero, is written for it. */
  lemma MinReadsAsZero(w: Width, rest: seq<Byte>)
    ensures EncodeI(w, -w.Half()) == [TAG + SIGN, 0]
    ensures DecodeI(w, [TAG + SIGN, 0] + rest) == Got(0, 2)
  {
    assert Le(w.Half(), 1) == [0] + Le(w.Half() / 256, 0);
    assert Le(0, 1) == [0] + Le(0, 0);
    assert Tagged(SIGN, 0, 1) == [TAG + SIGN, 0];
    TaggedI(w, SIGN, 0, 1, rest);
  }

  /** Every signed value but the smallest comes back; the smallest comes back as zero. */
  lemma RoundTripI(w: Width, v: int, rest: seq<Byte>)
    requires InI(w, v)
    ensures DecodeI(w, EncodeI(w, v) + rest) == Got(if v == -w.Half() then 0 else v, |EncodeI(w, v)|)
  {
    hide Tagged, ByteLen, Pow256;
    if v == -w.Half() {
      MinReadsAsZero(w, rest);
    } else if v < 0 || TAG <= v {
      hide DecodeI;
      var temp := if v < 0 then -v else v;
      LenFits(w, temp);
      TaggedI(w, if v < 0 then SIGN else 0, temp, ByteLen(temp), rest);
    }
  }

  lemma SignedRoundTripsExactlyAboveMin(w: Width, v: int)
    requires InI(w, v)
    ensures DecodeI(w, EncodeI(w, v)) == Got(v, |EncodeI(w, v)|) <==> v != -w.Half()
  {
    RoundTripI(w, v, []);
    assert EncodeI(w, v) + [] == EncodeI(w, v);
  }

  /** Cut anywhere before its end, an encoding reads as an overflow and never as another value. */
  lemma PrefixShortU(w: Width, v: nat, k: nat)
    requires v < w.Bound() && k < |EncodeU(v)|
    ensures DecodeU(w, EncodeU(v)[..k]) == Short
  {
    LenFits(w, v);
  }

  lemma PrefixShortI(w: Width, v: int, k: nat)
    requires InI(w, v) && k < |EncodeI(w, v)|
    ensures DecodeI(w, EncodeI(w, v)[..k]) == Short
  {
    if v == -w.Half() {
      MinReadsAsZero(w, []);
    } else if v < 0 || TAG <= v {
      var temp := if v < 0 then -v else v;
      LenFits(w, temp);
      TaggedPrefixI(w, if v < 0 then SIGN else 0, temp, ByteLen(temp), k);
    }
  }

  lemma TaggedPrefixI(w: Width, sign: nat, v: nat, n: nat, k: nat)
    requires 1 <= n <= w.Bytes() && (sign == 0 || sign == SIGN) && k <= n
    ensures DecodeI(w, Tagged(sign, v, n)[..k]) == Short
  {
    if k > 0 {
      assert TagLen(Tagged(sign, v, n)[..k][0]) == n;
    }
  }

  /** Whatever is decoded fits the type it was decoded for. */
  lemma DecodedFits(w: Width, s: seq<Byte>)
    ensures DecodeU(w, s).Got? ==> 0 <= DecodeU(w, s).value < w.Bound()
  {
    if DecodeU(w, s).Got? && s[0] >= TAG {
      var n := TagLen(s[0]);
      LeVal(s[1..1 + n]);
      Pow256Is(w.Bytes());
      Pow256Grows(n, w.Bytes());
    }
  }

  // ---------------------------------------------------------------- predicted sizes

  function SizeOfU16(v: nat): int {
    if v < 0x80 then 1
    else if v < 64 then 2
    else 3
  }

  function SizeOfU32(v: nat): int {
    if v < 0x80 then 1
    else if v < 64 then 2
    else if v < 0x1_0000 then 3
    else if v < 0x100_0000 then 4
    else 5
  }

  function SizeOfU64(v: nat): int {
    if v < 0x80 then 1
    else if v < 64 then 2
    else if v < 0x1_0000 then 3
    else if v < 0x100_0000 then 4
    else if v < 0x1_0000_0000 then 5
    else if v < 0x100_0000_0000 then 6
    else if v < 0x1_0000_0000_0000 then 7
    else if v < 0x100_0000_0000_0000 then 8
    else 9
  }

  function SizeOfI16(v: int): int
    requires InI(W16, v)
  {
    var temp := if v < 0 then Negate(W16, v) else v;
    if 0 <= v < 0x80 then 1
    else if temp < 0x100 then 2
    else 3
  }

  function SizeOfI32(v: int): int
    requires InI(W32, v)
  {
    var temp := if v < 0 then Negate(W32, v) else v;
    if 0 <= v < 0x80 then 1
    else if temp < 0x100 then 2
    else if temp < 0x1_0000 then 3
    else if temp < 0x100_0000 then 4
    else 5
  }

  function SizeOfI64(v: int): int
    requires InI(W64, v)
  {
    var temp := if v < 0 then Negate(W64, v) else v;
    if 0 <= v < 0x80 then 1
    else if temp < 0x100 then 2
    else if temp < 0x1_0000 then 3
    else if temp < 0x100_0000 then 4
    else if temp < 0x1_0000_0000 then 5
    else if temp < 0x100_0000_0000 then 6
    else if temp < 0x1_0000_0000_0000 then 7
    else if temp < 0x100_0000_0000_0000 then 8
    else 9
  }

  function SizeOfU(w: Width, v: nat): int {
    match w
    case W16 => SizeOfU16(v)
    case W32 => SizeOfU32(v)
    case W64 => SizeOfU64(v)
  }

  function SizeOfI(w: Width, v: int): int
    requires InI(w, v)
  {
    match w
    case W16 => SizeOfI16(v)
    case W32 => SizeOfI32(v)
    case W64 => SizeOfI64(v)
  }

  lemma LenBetween(v: nat, n: nat)
    requires 1 <= n <= 8
    requires v < [1, 0x100, 0x1_0000, 0x100_0000, 0x1_0000_0000, 0x100_0000_0000,
                  0x1_0000_0000_0000, 0x100_0000_0000_0000, 0x1_0000_0000_0000_0000][n]
    requires n > 1 ==> v >= [1, 0x100, 0x1_0000, 0x100_0000, 0x1_0000_0000, 0x100_0000_0000,
                             0x1_0000_0000_0000, 0x100_0000_0000_0000, 0x1_0000_0000_0000_0000][n - 1]
    ensures ByteLen(v) == n
  {
    Pow256Is(n);
    Pow256Is(n - 1);
    ByteLenIs(v, n);
  }

  /** The chain of limits that the writers and the size functions compare with. */
  function LimitLen(v: int): nat {
    if v < 0x100 then 1 else if v < 0x1_0000 then 2 else if v < 0x100_0000 then 3
    else if v < 0x1_0000_0000 then 4 else if v < 0x100_0000_0000 then 5
    else if v < 0x1_0000_0000_0000 then 6 else if v < 0x100_0000_0000_0000 then 7 else 8
  }

  lemma LenByLimits(v: nat)
    requires v < W64.Bound()
    ensures ByteLen(v) == LimitLen(v)
  {
    LenBetween(v, LimitLen(v));
  }

  lemma TaggedFormI(w: Width, v: int)
    requires InI(w, v) && !(0 <= v < TAG)
    ensures var temp := if v < 0 then Negate(w, v) else v;
            var bits := if temp < 0 then temp + w.Bound() else temp;
            EncodeI(w, v) == Tagged(if v < 0 then SIGN else 0, bits, LimitLen(temp))
  {
    var temp := if v < 0 then Negate(w, v) else v;
    if temp >= 0 {
      LenByLimits(temp);
    }
  }

  lemma SizeExactU(w: Width, v: nat)
    requires v < w.Bound()
    ensures SizeOfU(w, v) == |EncodeU(v)|
  {
    LenByLimits(v);
  }

  lemma SizeExactI(w: Width, v: int)
    requires InI(w, v)
    ensures SizeOfI(w, v) == |EncodeI(w, v)|
  {
    if v != -w.Half() {
      LenByLimits(if v < 0 then -v else v);
    }
  }
}
