/**
 What a message carries: integers, fixed numbers, strings and sequences of
 values of one type, and how they follow each other in a byte stream.
 */
module Fields {
  import opened Codec

  datatype Kind = UKind(width: Width) | IKind(width: Width) | FixKind | StrKind | ListKind(elem: Kind)

  datatype Field =
    | UInt(width: Width, u: nat)
    | SInt(width: Width, i: int)
    | Fix(fix: nat)
    | Str(chars: seq<Byte>)
    | List(elem: Kind, fields: seq<Field>)

  function KindOf(f: Field): Kind {
    match f
    case UInt(w, _) => UKind(w)
    case SInt(w, _) => IKind(w)
    case Fix(_) => FixKind
    case Str(_) => StrKind
    case List(k, _) => ListKind(k)
  }

  /** The value fits the C++ type it stands for. */
  predicate WellTyped(f: Field)
    decreases f
  {
    match f
    case UInt(w, u) => u < w.Bound()
    case SInt(w, i) => InI(w, i)
    case Fix(x) => x < W32.Bound()
    case Str(s) => |s| < W64.Bound()
    case List(k, fs) => |fs| < W64.Bound() && forall f :: f in fs ==> WellTyped(f) && KindOf(f) == k
  }

  /** The values that come back as they were: no smallest signed number, no length beyond 32 bits. */
  predicate Exact(f: Field)
    decreases f
  {
    match f
    case UInt(_, _) => true
    case SInt(w, i) => i != -w.Half()
    case Fix(_) => true
    case Str(s) => |s| < W32.Bound()
    case List(_, fs) => |fs| < W32.Bound() && forall f :: f in fs ==> Exact(f)
  }

  function EncodeField(f: Field): (s: seq<Byte>)
    requires WellTyped(f)
    decreases f, 0
  {
    match f
    case UInt(_, u) => EncodeU(u)
    case SInt(w, i) => EncodeI(w, i)
    case Fix(x) => Le(x, 4)
    case Str(chars) => EncodeU(|chars|) + chars
    case List(_, fs) => EncodeU(|fs|) + EncodeAll(fs)
  }

  function EncodeAll(fs: seq<Field>): (s: seq<Byte>)
    requires forall f :: f in fs ==> WellTyped(f)
    decreases fs, 1
  {
    if fs == [] then [] else EncodeField(fs[0]) + EncodeAll(fs[1..])
  }

  /** Overrun: the bytes ran out, which the caller sees. Rejected: a tag did not suit; only an error code is set. */
  datatype Parsed = Parsed(field: Field, used: nat) | Overrun | Rejected(used: nat)

  datatype ParsedAll = ParsedAll(fields: seq<Field>, used: nat) | OverrunAll | RejectedAll(used: nat)

  /** A length: a tag that does not suit 32 bits is itself taken for the length. */
  function DecodeLen(s: seq<Byte>): (r: Decoded)
    requires s != []
    ensures r.Got? ==> 1 <= r.used <= |s| && r.value >= 0
    ensures !r.Negative? && !r.TooLarge?
  {
    match DecodeU(W32, s)
    case Got(v, n) => Got(v, n)
    case Short => Short
    case _ => Got(s[0], 1)
  }

  predicate LenRejected(s: seq<Byte>)
    requires s != []
  {
    DecodeU(W32, s).Negative? || DecodeU(W32, s).TooLarge?
  }

  /** A sequence whose length took the first `head` bytes. */
  function AsList(k: Kind, head: nat, r: ParsedAll): Parsed {
    match r
    case OverrunAll => Overrun
    case RejectedAll(n) => Rejected(head + n)
    case ParsedAll(fs, n) => Parsed(List(k, fs), head + n)
  }

  /** What comes out when more is read behind a first value. */
  function Behind(f: Field, n: nat, more: ParsedAll): ParsedAll {
    match more
    case OverrunAll => OverrunAll
    case RejectedAll(m) => RejectedAll(n + m)
    case ParsedAll(fs, m) => ParsedAll([f] + fs, n + m)
  }

  /**
   One value. The element loop of a sequence stops after an element once an
   error code is set, and `failed` says that one is set already.
   */
  function DecodeField(k: Kind, s: seq<Byte>, failed: bool): (r: Parsed)
    ensures !r.Overrun? ==> 1 <= r.used <= |s|
    decreases k, 0
  {
    if s == [] then Overrun
    else match k
      case UKind(w) => (
        match DecodeU(w, s)
        case Got(v, n) => Parsed(UInt(w, v), n)
        case Short => Overrun
        case _ => Rejected(1))
      case IKind(w) => (
        match DecodeI(w, s)
        case Got(v, n) => Parsed(SInt(w, v), n)
        case Short => Overrun
        case _ => Rejected(1))
      case FixKind => if |s| < 4 then Overrun else Parsed(Fix(Val(s[..4])), 4)
      case StrKind => (
        var len := DecodeLen(s);
        if len.Short? || |s| < len.used + len.value then Overrun
        else if LenRejected(s) then Rejected(len.used + len.value)
        else Parsed(Str(s[len.used..len.used + len.value]), len.used + len.value))
      case ListKind(e) => (
        var len := DecodeLen(s);
        if len.Short? then Overrun
        else AsList(e, len.used, DecodeMany(e, len.value, s[len.used..], failed || LenRejected(s))))
  }

  function DecodeMany(k: Kind, count: nat, s: seq<Byte>, failed: bool): (r: ParsedAll)
    ensures !r.OverrunAll? ==> r.used <= |s|
    decreases k, 1, count
  {
    if count == 0 then ParsedAll([], 0)
    else match DecodeField(k, s, failed)
      case Overrun => OverrunAll
      case Rejected(n) => RejectedAll(n)
      case Parsed(f, n) =>
        if failed then RejectedAll(n)
        else Behind(f, n, DecodeMany(k, count - 1, s[n..], false))
  }

  /** Values of different types read one after another. */
  function DecodeAll(ks: seq<Kind>, s: seq<Byte>): (r: ParsedAll)
    ensures !r.OverrunAll? ==> r.used <= |s|
  {
    if ks == [] then ParsedAll([], 0)
    else match DecodeField(ks[0], s, false)
      case Overrun => OverrunAll
      case Rejected(n) => RejectedAll(n)
      case Parsed(f, n) => Behind(f, n, DecodeAll(ks[1..], s[n..]))
  }

  /** One value of several, by how reading it ends. */
  lemma FirstOfAll(k: Kind, ks: seq<Kind>, s: seq<Byte>)
    ensures var x := DecodeField(k, s, false);
            DecodeAll([k] + ks, s) ==
            if x.Overrun? then OverrunAll
            else if x.Rejected? then RejectedAll(x.used)
            else Behind(x.field, x.used, DecodeAll(ks, s[x.used..]))
  {
    assert ([k] + ks)[0] == k && ([k] + ks)[1..] == ks;
  }

  function KindsOf(fs: seq<Field>): seq<Kind> {
    if fs == [] then [] else [KindOf(fs[0])] + KindsOf(fs[1..])
  }

  /** The kinds of a handful of values, one by one. */
  lemma KindsOfFew(fs: seq<Field>)
    requires |fs| <= 6
    ensures |KindsOf(fs)| == |fs| && forall i :: 0 <= i < |fs| ==> KindsOf(fs)[i] == KindOf(fs[i])
  {
    hide KindOf;
    if fs != [] {
      KindsOfFew(fs[1..]);
      assert forall i :: 1 <= i < |fs| ==> fs[i] == fs[1..][i - 1];
    }
  }

  // ---------------------------------------------------------------- round trips

  lemma LenRoundTrip(n: nat, rest: seq<Byte>)
    requires n < W64.Bound()
    ensures |EncodeU(n)| >= 1
    ensures n < W32.Bound() ==> DecodeU(W32, EncodeU(n) + rest) == Got(n, |EncodeU(n)|)
    ensures n >= W32.Bound() ==> DecodeU(W32, EncodeU(n) + rest).TooLarge?
  {
    if n < W32.Bound() {
      RoundTripU(W32, n, rest);
    } else {
      LenByLimits(n);
    }
  }

  /** A value read back from its own encoding, whatever follows, is the value exactly when it is `Exact`. */
  lemma {:induction false} RoundTripField(f: Field, rest: seq<Byte>)
    requires WellTyped(f)
    ensures |EncodeField(f)| >= 1
    ensures Exact(f) ==> DecodeField(KindOf(f), EncodeField(f) + rest, false) == Parsed(f, |EncodeField(f)|)
    ensures !Exact(f) ==> !SameField(DecodeField(KindOf(f), EncodeField(f) + rest, false), f)
    decreases f, 0
  {
    match f {
      case UInt(w, u) => RoundTripU(w, u, rest);
      case SInt(w, i) => RoundTripI(w, i, rest);
      case Fix(x) => FixRoundTrip(x, rest);
      case Str(chars) => StrRoundTrip(chars, rest);
      case List(k, fs) => ListRoundTrip(k, fs, rest);
    }
  }

  predicate SameField(r: Parsed, f: Field) {
    r.Parsed? && r.field == f
  }

  lemma FixRoundTrip(x: nat, rest: seq<Byte>)
    requires x < W32.Bound()
    ensures DecodeField(FixKind, Le(x, 4) + rest, false) == Parsed(Fix(x), 4)
  {
    Pow256Is(4);
    ValLe(x, 4);
    assert (Le(x, 4) + rest)[..4] == Le(x, 4);
  }

  lemma StrRoundTrip(chars: seq<Byte>, rest: seq<Byte>)
    requires |chars| < W64.Bound()
    ensures var s := EncodeU(|chars|) + chars + rest;
            if |chars| < W32.Bound() then
              DecodeField(StrKind, s, false) == Parsed(Str(chars), |EncodeU(|chars|)| + |chars|)
            else !DecodeField(StrKind, s, false).Parsed?
  {
    var e := EncodeU(|chars|);
    var s := e + chars + rest;
    LenRoundTrip(|chars|, chars + rest);
    assert s == e + (chars + rest);
    if |chars| < W32.Bound() {
      assert s[|e|..|e| + |chars|] == chars;
    }
  }

  lemma {:induction false} ListRoundTrip(k: Kind, fs: seq<Field>, rest: seq<Byte>)
    requires WellTyped(List(k, fs))
    ensures var s := EncodeU(|fs|) + EncodeAll(fs) + rest;
            if Exact(List(k, fs)) then
              DecodeField(ListKind(k), s, false) == Parsed(List(k, fs), |EncodeU(|fs|)| + |EncodeAll(fs)|)
            else !SameField(DecodeField(ListKind(k), s, false), List(k, fs))
    decreases fs, 1
  {
    hide EncodeU, EncodeAll;
    var e, more := EncodeU(|fs|), EncodeAll(fs) + rest;
    LenRoundTrip(|fs|, more);
    assert e + EncodeAll(fs) + rest == e + more;
    if |fs| < W32.Bound() {
      RoundTripMany(k, fs, rest);
      ListStep(k, |fs|, e, more);
    }
  }

  lemma ListStep(k: Kind, count: nat, e: seq<Byte>, more: seq<Byte>)
    requires |e| >= 1 && DecodeU(W32, e + more) == Got(count, |e|)
    ensures DecodeField(ListKind(k), e + more, false) == AsList(k, |e|, DecodeMany(k, count, more, false))
  {
    hide DecodeU, DecodeMany;
    assert (e + more)[|e|..] == more;
  }

  ghost predicate Uniform(k: Kind, fs: seq<Field>) {
    forall f :: f in fs ==> WellTyped(f) && KindOf(f) == k
  }

  ghost predicate AllExact(fs: seq<Field>) {
    forall f :: f in fs ==> Exact(f)
  }

  lemma AllExactSplits(fs: seq<Field>)
    requires fs != []
    ensures AllExact(fs) <==> Exact(fs[0]) && AllExact(fs[1..])
  {
    hide Exact;
    assert fs == [fs[0]] + fs[1..];
    assert forall f :: f in fs <==> f == fs[0] || f in fs[1..];
  }

  ghost predicate SameFields(r: ParsedAll, fs: seq<Field>) {
    r.ParsedAll? && r.fields == fs
  }

  lemma ManyStep(k: Kind, fs: seq<Field>, e: seq<Byte>, more: seq<Byte>)
    requires fs != []
    ensures DecodeField(k, e + more, false) == Parsed(fs[0], |e|) && DecodeMany(k, |fs| - 1, more, false).ParsedAll? ==>
              DecodeMany(k, |fs|, e + more, false) ==
              ParsedAll([fs[0]] + DecodeMany(k, |fs| - 1, more, false).fields,
                        |e| + DecodeMany(k, |fs| - 1, more, false).used)
    ensures DecodeField(k, e + more, false) == Parsed(fs[0], |e|)
            && !SameFields(DecodeMany(k, |fs| - 1, more, false), fs[1..]) ==>
              !SameFields(DecodeMany(k, |fs|, e + more, false), fs)
    ensures !SameField(DecodeField(k, e + more, false), fs[0]) ==> !SameFields(DecodeMany(k, |fs|, e + more, false), fs)
  {
    hide DecodeField;
    assert (e + more)[|e|..] == more;
  }

  lemma {:induction false} RoundTripMany(k: Kind, fs: seq<Field>, rest: seq<Byte>)
    requires Uniform(k, fs)
    ensures var r := DecodeMany(k, |fs|, EncodeAll(fs) + rest, false);
            if AllExact(fs) then r == ParsedAll(fs, |EncodeAll(fs)|) else !SameFields(r, fs)
    decreases fs, 0
  {
    hide DecodeField, EncodeField, WellTyped, Exact, DecodeMany, AllExact;
    if fs == [] {
      ManyNone(k, rest);
    } else {
      var e, more := EncodeField(fs[0]), EncodeAll(fs[1..]) + rest;
      RoundTripField(fs[0], more);
      assert EncodeAll(fs) + rest == e + more;
      AllExactSplits(fs);
      RoundTripMany(k, fs[1..], rest);
      ManyStep(k, fs, e, more);
      assert [fs[0]] + fs[1..] == fs;
    }
  }

  lemma ManyNone(k: Kind, rest: seq<Byte>)
    ensures DecodeMany(k, 0, [] + rest, false) == ParsedAll([], 0) && EncodeAll([]) == [] && AllExact([])
  {
  }

  /** Values written one after another are read back in order, and nothing behind them is touched. */
  lemma {:induction false} RoundTripAll(fs: seq<Field>, rest: seq<Byte>)
    requires forall f :: f in fs ==> WellTyped(f) && Exact(f)
    ensures DecodeAll(KindsOf(fs), EncodeAll(fs) + rest) == ParsedAll(fs, |EncodeAll(fs)|)
    decreases fs
  {
    hide DecodeField, EncodeField, WellTyped, Exact;
    if fs != [] {
      var e, more := EncodeField(fs[0]), EncodeAll(fs[1..]) + rest;
      RoundTripField(fs[0], more);
      assert EncodeAll(fs) + rest == e + more;
      assert fs == [fs[0]] + fs[1..];
      assert (e + more)[|e|..] == more;
      assert KindsOf(fs)[1..] == KindsOf(fs[1..]);
      RoundTripAll(fs[1..], rest);
    }
  }

  // ---------------------------------------------------------------- nothing is read too early

  /** An encoding cut anywhere before its end is noticed as an overrun. */
  lemma {:induction false} PrefixOverruns(f: Field, k: nat)
    requires WellTyped(f) && Exact(f) && k < |EncodeField(f)|
    ensures DecodeField(KindOf(f), EncodeField(f)[..k], false) == Overrun
    decreases f, 0
  {
    if k > 0 {
      match f {
        case UInt(w, u) => PrefixShortU(w, u, k);
        case SInt(w, i) => PrefixShortI(w, i, k);
        case Fix(_) =>
        case Str(chars) => StrPrefix(chars, k);
        case List(e, fs) => ListPrefix(e, fs, k);
      }
    }
  }

  /** Inside its own bytes a length is short; behind them it is complete. */
  lemma LenPrefix(n: nat, more: seq<Byte>, k: nat)
    requires n < W32.Bound() && 0 < k <= |EncodeU(n) + more|
    ensures if k < |EncodeU(n)| then DecodeLen((EncodeU(n) + more)[..k]).Short?
            else DecodeU(W32, (EncodeU(n) + more)[..k]) == Got(n, |EncodeU(n)|)
  {
    var e := EncodeU(n);
    if k < |e| {
      assert (e + more)[..k] == e[..k];
      PrefixShortU(W32, n, k);
    } else {
      assert (e + more)[..k] == e + more[..k - |e|];
      RoundTripU(W32, n, more[..k - |e|]);
    }
  }

  lemma StrPrefix(chars: seq<Byte>, k: nat)
    requires |chars| < W32.Bound() && 0 < k < |EncodeU(|chars|) + chars|
    ensures DecodeField(StrKind, (EncodeU(|chars|) + chars)[..k], false) == Overrun
  {
    LenPrefix(|chars|, chars, k);
  }

  lemma {:induction false} ListPrefix(e: Kind, fs: seq<Field>, k: nat)
    requires WellTyped(List(e, fs)) && Exact(List(e, fs)) && 0 < k < |EncodeU(|fs|) + EncodeAll(fs)|
    ensures DecodeField(ListKind(e), (EncodeU(|fs|) + EncodeAll(fs))[..k], false) == Overrun
    decreases fs, 1
  {
    hide EncodeU, EncodeAll, DecodeU;
    var x, more := EncodeU(|fs|), EncodeAll(fs);
    LenPrefix(|fs|, more, k);
    if k >= |x| {
      ManyPrefix(e, fs, k - |x|);
      assert (x + more)[..k] == x + more[..k - |x|];
      assert |x| >= 1 by { LenRoundTrip(|fs|, []); }
      ListStep(e, |fs|, x, more[..k - |x|]);
    }
  }

  lemma {:induction false} ManyPrefix(e: Kind, fs: seq<Field>, k: nat)
    requires Uniform(e, fs) && AllExact(fs) && k < |EncodeAll(fs)|
    ensures DecodeMany(e, |fs|, EncodeAll(fs)[..k], false) == OverrunAll
    decreases fs, 0
  {
    hide DecodeField, EncodeField, WellTyped, Exact;
    var x, more := EncodeField(fs[0]), EncodeAll(fs[1..]);
    if k < |x| {
      assert (x + more)[..k] == x[..k];
      PrefixOverruns(fs[0], k);
    } else {
      assert (x + more)[..k] == x + more[..k - |x|];
      RoundTripField(fs[0], more[..k - |x|]);
      assert (x + more[..k - |x|])[|x|..] == more[..k - |x|];
      ManyPrefix(e, fs[1..], k - |x|);
    }
  }

  lemma {:induction false} AllPrefix(fs: seq<Field>, k: nat)
    requires (forall f :: f in fs ==> WellTyped(f) && Exact(f)) && k < |EncodeAll(fs)|
    ensures DecodeAll(KindsOf(fs), EncodeAll(fs)[..k]) == OverrunAll
    decreases fs
  {
    hide DecodeField, EncodeField, WellTyped, Exact;
    var x, more := EncodeField(fs[0]), EncodeAll(fs[1..]);
    assert KindsOf(fs)[1..] == KindsOf(fs[1..]);
    if k < |x| {
      assert (x + more)[..k] == x[..k];
      PrefixOverruns(fs[0], k);
    } else {
      assert (x + more)[..k] == x + more[..k - |x|];
      RoundTripField(fs[0], more[..k - |x|]);
      assert (x + more[..k - |x|])[|x|..] == more[..k - |x|];
      AllPrefix(fs[1..], k - |x|);
    }
  }

  lemma {:induction false} EncodeAllConcat(a: seq<Field>, b: seq<Field>)
    requires forall f :: f in a + b ==> WellTyped(f)
    ensures forall f :: (f in a ==> WellTyped(f)) && (f in b ==> WellTyped(f))
    ensures EncodeAll(a + b) == EncodeAll(a) + EncodeAll(b)
  {
    assert forall f :: f in a || f in b ==> f in a + b;
    if a == [] {
      assert a + b == b;
    } else {
      assert (a + b)[1..] == a[1..] + b;
      EncodeAllConcat(a[1..], b);
    }
  }

  // ---------------------------------------------------------------- predicted sizes

  function SizeOf(f: Field): int
    requires WellTyped(f)
    decreases f, 0
  {
    match f
    case UInt(w, u) => SizeOfU(w, u)
    case SInt(w, i) => SizeOfI(w, i)
    case Fix(_) => 4
    case Str(chars) => SizeOfU64(|chars|) + |chars|
    case List(_, fs) => SizeOfU64(|fs|) + SizeOfAll(fs)
  }

  function SizeOfAll(fs: seq<Field>): int
    requires forall f :: f in fs ==> WellTyped(f)
    decreases fs, 1
  {
    if fs == [] then 0 else SizeOf(fs[0]) + SizeOfAll(fs[1..])
  }

  /** The size predictor is exact, so the room reserved for a value is what its writer fills. */
  lemma {:induction false} SizeExact(f: Field)
    requires WellTyped(f)
    ensures SizeOf(f) == |EncodeField(f)|
    decreases f, 0
  {
    match f {
      case UInt(w, u) => SizeExactU(w, u);
      case SInt(w, i) => SizeExactI(w, i);
      case Fix(_) =>
      case Str(chars) => SizeExactU(W64, |chars|);
      case List(_, fs) => SizeExactU(W64, |fs|); SizeExactAll(fs);
    }
  }

  lemma {:induction false} SizeExactAll(fs: seq<Field>)
    requires forall f :: f in fs ==> WellTyped(f)
    ensures SizeOfAll(fs) == |EncodeAll(fs)|
    decreases fs, 1
  {
    if fs != [] {
      SizeExact(fs[0]);
      SizeExactAll(fs[1..]);
    }
  }
}
