/** Short names packed into 64-bit numbers, base 28: letters of either case, and the underscore. */
module Atoms {
  import opened Ids
  import Tags

  const TWO64: nat := 0x1_0000_0000_0000_0000

  /** The digit of a character; zero for one that names cannot have. */
  function Code(c: char): nat {
    if 'A' <= c <= 'Z' then c as nat - 'A' as nat + 1
    else if 'a' <= c <= 'z' then c as nat - 'a' as nat + 1
    else if c == '_' then 27
    else 0
  }

  function Letter(d: nat): char
    requires d < 28
  {
    "\0abcdefghijklmnopqrstuvwxyz_"[d]
  }

  predicate IsName(s: string) {
    forall c :: c in s ==> Code(c) != 0
  }

  function LowerChar(c: char): char {
    if 'A' <= c <= 'Z' then (c as nat - 'A' as nat + 'a' as nat) as char else c
  }

  function Lower(s: string): (r: string)
    ensures |r| == |s|
  {
    if s == "" then "" else Lower(s[..|s| - 1]) + [LowerChar(s[|s| - 1])]
  }

  function Base28(s: string): nat {
    if s == "" then 0 else 28 * Base28(s[..|s| - 1]) + Code(s[|s| - 1])
  }

  /** What a name is packed into: nothing beyond 14 characters, and 14 may wrap around. */
  function Packed(s: string): (v: nat)
    ensures v < TWO64
  {
    if |s| > 14 || !IsName(s) then 0 else Base28(s) % TWO64
  }

  function Unpacked(x: nat): string {
    if x == 0 then "" else Unpacked(x / 28) + [Letter(x % 28)]
  }

  function Pow28(n: nat): (p: nat)
    ensures p >= 1
  {
    if n == 0 then 1 else 28 * Pow28(n - 1)
  }

  lemma {:induction false} Base28Bound(s: string)
    ensures Base28(s) < Pow28(|s|)
  {
    if s != "" {
      Base28Bound(s[..|s| - 1]);
    }
  }

  /** Thirteen digits always fit, fourteen may not, and no 64-bit number has fifteen. */
  lemma Limits()
    ensures Pow28(13) <= TWO64 < Pow28(14)
    ensures forall n :: 0 <= n <= 13 ==> Pow28(n) <= Pow28(13)
  {
    assert Pow28(13) == 28 * 28 * 28 * 28 * 28 * 28 * 28 * 28 * 28 * 28 * 28 * 28 * 28;
    assert Pow28(14) == 28 * Pow28(13);
    forall n | 0 <= n <= 13 ensures Pow28(n) <= Pow28(13) {
      Pow28Grows(n, 13);
    }
  }

  lemma {:induction false} Pow28Grows(m: nat, n: nat)
    requires m <= n
    ensures Pow28(m) <= Pow28(n)
  {
    if m < n {
      Pow28Grows(m, n - 1);
    }
  }

  lemma {:induction false} UnpackedLength(x: nat, n: nat)
    requires x < Pow28(n)
    ensures |Unpacked(x)| <= n
  {
    if x != 0 {
      UnpackedLength(x / 28, n - 1);
    }
  }

  // ---------------------------------------------------------------- round trips

  lemma LetterOfCode(c: char)
    requires Code(c) != 0
    ensures Letter(Code(c)) == LowerChar(c) && Code(LowerChar(c)) == Code(c)
  {
  }

  lemma {:induction false} UnpackBase28(s: string)
    requires IsName(s)
    ensures Unpacked(Base28(s)) == Lower(s)
  {
    if s != "" {
      var n := |s| - 1;
      assert s[n] in s;
      assert IsName(s[..n]);
      UnpackBase28(s[..n]);
      LetterOfCode(s[n]);
      assert Base28(s) / 28 == Base28(s[..n]) && Base28(s) % 28 == Code(s[n]);
    }
  }

  lemma {:induction false} Base28OfUnpacked(x: nat)
    ensures Base28(Unpacked(x)) == x
  {
    if x != 0 {
      Base28OfUnpacked(x / 28);
      var s := Unpacked(x);
      assert s[..|s| - 1] == Unpacked(x / 28);
      assert Code(Letter(x % 28)) == x % 28;
    }
  }

  lemma {:induction false} Base28OfLower(s: string)
    requires IsName(s)
    ensures Base28(Lower(s)) == Base28(s)
  {
    if s != "" {
      var n := |s| - 1;
      assert s[n] in s && IsName(s[..n]);
      Base28OfLower(s[..n]);
      LetterOfCode(s[n]);
      assert Lower(s)[..n] == Lower(s[..n]);
    }
  }

  /** A name of at most 14 characters comes back, in lower case, exactly when its base-28 value fits 64 bits. */
  lemma NameRoundTrips(s: string)
    requires IsName(s) && |s| <= 14
    ensures Unpacked(Packed(s)) == Lower(s) <==> Base28(s) < TWO64
    ensures |s| <= 13 ==> Base28(s) < TWO64
  {
    hide Unpacked, Base28, Lower;
    UnpackBase28(s);
    Base28OfUnpacked(Packed(s));
    Base28OfLower(s);
    Base28Bound(s);
    Limits();
    PackedSmall(s);
  }

  lemma PackedSmall(s: string)
    requires IsName(s) && |s| <= 14
    ensures Base28(s) < TWO64 ==> Packed(s) == Base28(s)
  {
    hide Base28;
  }

  /** So two names that fit and pack alike differ in case only. */
  lemma PackedIsInjective(s: string, t: string)
    requires IsName(s) && IsName(t) && |s| <= 14 && |t| <= 14 && Base28(s) < TWO64 && Base28(t) < TWO64
    requires Packed(s) == Packed(t)
    ensures Lower(s) == Lower(t)
  {
    NameRoundTrips(s);
    NameRoundTrips(t);
  }

  // ---------------------------------------------------------------- the two conversions

  /** Only ASCII characters are looked up; the multiplication wraps around at 64 bits. */
  method Pack(str: string) returns (value: nat)
    requires forall c :: c in str ==> c < 128 as char
    ensures value == Packed(str)
  {
    if |str| > 14 {
      return 0;
    }
    Limits();
    value := 0;
    for i := 0 to |str|
      invariant IsName(str[..i]) && value == Base28(str[..i]) % TWO64
    {
      assert str[..i + 1][..i] == str[..i];
      Base28Bound(str[..i]);
      assert value == Base28(str[..i]);
      value := value * 28 % TWO64;
      var digit := Code(str[i]);
      if digit == 0 {
        assert str[i] in str;
        return 0;
      }
      WrapTwice(Base28(str[..i]) * 28, digit);
      value := (value + digit) % TWO64;
      assert forall c :: c in str[..i + 1] ==> c in str[..i] || c == str[i];
    }
    assert str[..|str|] == str;
  }

  lemma WrapTwice(x: nat, d: nat)
    ensures (x % TWO64 + d) % TWO64 == (x + d) % TWO64
  {
    assert x == x / TWO64 * TWO64 + x % TWO64;
    WrapShift(x % TWO64 + d, x / TWO64);
  }

  lemma {:induction false} WrapShift(y: nat, q: nat)
    ensures (y + q * TWO64) % TWO64 == y % TWO64
  {
    if q > 0 {
      WrapShift(y, q - 1);
      assert y + q * TWO64 == y + (q - 1) * TWO64 + TWO64;
    }
  }

  /** Writes digits from position 19 down; 64 bits never reach below position 6 of the 21. */
  method Unpack(what: nat) returns (ret: string)
    requires what < TWO64
    ensures ret == Unpacked(what) && |ret| <= 14
  {
    Limits();
    UnpackedLength(what, 14);
    var buf := new char[21](_ => '\0');
    var x: nat := what;
    var pos: nat := 19;
    while x != 0
      invariant 5 <= pos <= 19 && x < TWO64
      invariant |Unpacked(x)| + (19 - pos) <= 14
      invariant Unpacked(x) + buf[pos + 1..20] == Unpacked(what)
      decreases x
    {
      ghost var tail := buf[pos + 1..20];
      assert Unpacked(x) == Unpacked(x / 28) + [Letter(x % 28)];
      buf[pos] := Letter(x % 28);
      assert buf[pos..20] == [Letter(x % 28)] + tail;
      pos := pos - 1;
      x := x / 28;
    }
    pos := pos + 1;
    ret := buf[pos..20];
  }

  // ---------------------------------------------------------------- the names the runtime reserves

  /** The value of the first n characters, and whether they all have digits, by position. */
  function ValueTo(s: string, n: nat): nat
    requires n <= |s|
  {
    if n == 0 then 0 else 28 * ValueTo(s, n - 1) + Code(s[n - 1])
  }

  function NameTo(s: string, n: nat): bool
    requires n <= |s|
  {
    n == 0 || (Code(s[n - 1]) != 0 && NameTo(s, n - 1))
  }

  lemma {:induction false} ByPosition(s: string, n: nat)
    requires n <= |s|
    ensures ValueTo(s, n) == Base28(s[..n]) && (NameTo(s, n) <==> IsName(s[..n]))
  {
    if n > 0 {
      ByPosition(s, n - 1);
      assert s[..n][..n - 1] == s[..n - 1];
      assert forall c :: c in s[..n] <==> c in s[..n - 1] || c == s[n - 1];
    }
  }

  lemma PackedByPosition(s: string)
    requires |s| <= 14 && NameTo(s, |s|)
    ensures IsName(s) && Base28(s) == ValueTo(s, |s|) && Packed(s) == ValueTo(s, |s|) % TWO64
  {
    ByPosition(s, |s|);
    assert s[..|s|] == s;
  }

  lemma ExitName()
    ensures IsName("gce_actor_exit") && Packed("gce_actor_exit") == EXIT
            && Base28("gce_actor_exit") == 46260911602066790992
  {
    hide Packed, Base28, IsName;
    var s := "gce_actor_exit";
    assert ValueTo(s, 3) == 5577 && NameTo(s, 3);
    assert ValueTo(s, 6) == 122447503 && NameTo(s, 6);
    assert ValueTo(s, 9) == 2687967601974 && NameTo(s, 9);
    assert ValueTo(s, 12) == 59006264798554580 && NameTo(s, 12);
    assert ValueTo(s, 14) == 46260911602066790992 && NameTo(s, 14);
    PackedByPosition(s);
  }

  lemma AidName()
    ensures IsName("gce_aid_t") && Packed("gce_aid_t") == Tags.TAG_AID && Base28("gce_aid_t") == 2687967721480
  {
    hide Packed, Base28, IsName;
    var s := "gce_aid_t";
    assert ValueTo(s, 3) == 5577 && NameTo(s, 3);
    assert ValueTo(s, 6) == 122447509 && NameTo(s, 6);
    assert ValueTo(s, 9) == 2687967721480 && NameTo(s, 9);
    PackedByPosition(s);
  }

  lemma RequestName()
    ensures IsName("gce_request_t") && Packed("gce_request_t") == Tags.TAG_REQUEST
            && Base28("gce_request_t") == 1652181862628793992
  {
    hide Packed, Base28, IsName;
    var s := "gce_request_t";
    assert ValueTo(s, 3) == 5577 && NameTo(s, 3);
    assert ValueTo(s, 6) == 122447981 && NameTo(s, 6);
    assert ValueTo(s, 9) == 2687978092833 && NameTo(s, 9);
    assert ValueTo(s, 12) == 59006495093885499 && NameTo(s, 12);
    assert ValueTo(s, 13) == 1652181862628793992 && NameTo(s, 13);
    PackedByPosition(s);
  }

  lemma LinkName()
    ensures IsName("gce_link_t") && Packed("gce_link_t") == Tags.TAG_LINK && Base28("gce_link_t") == 75263285722680
  {
    hide Packed, Base28, IsName;
    var s := "gce_link_t";
    assert ValueTo(s, 3) == 5577 && NameTo(s, 3);
    assert ValueTo(s, 6) == 122447817 && NameTo(s, 6);
    assert ValueTo(s, 9) == 2687974490095 && NameTo(s, 9);
    assert ValueTo(s, 10) == 75263285722680 && NameTo(s, 10);
    PackedByPosition(s);
  }

  lemma ExitTagName()
    ensures IsName("gce_exit_t") && Packed("gce_exit_t") == Tags.TAG_EXIT && Base28("gce_exit_t") == 75263174367240
  {
    hide Packed, Base28, IsName;
    var s := "gce_exit_t";
    assert ValueTo(s, 3) == 5577 && NameTo(s, 3);
    assert ValueTo(s, 6) == 122447636 && NameTo(s, 6);
    assert ValueTo(s, 9) == 2687970513115 && NameTo(s, 9);
    assert ValueTo(s, 10) == 75263174367240 && NameTo(s, 10);
    PackedByPosition(s);
  }

  lemma ResponseName()
    ensures IsName("gce_response_t") && Packed("gce_response_t") == Tags.TAG_RESPONSE
            && Base28("gce_response_t") == 46261092178351628696
  {
    hide Packed, Base28, IsName;
    var s := "gce_response_t";
    assert ValueTo(s, 3) == 5577 && NameTo(s, 3);
    assert ValueTo(s, 6) == 122447981 && NameTo(s, 6);
    assert ValueTo(s, 9) == 2687978094271 && NameTo(s, 9);
    assert ValueTo(s, 12) == 59006495125448505 && NameTo(s, 12);
    assert ValueTo(s, 14) == 46261092178351628696 && NameTo(s, 14);
    PackedByPosition(s);
  }

  lemma SpawnName()
    ensures IsName("gce_spw_t") && Packed("gce_spw_t") == Tags.TAG_SPAWN && Base28("gce_spw_t") == 2687978953848
  {
    hide Packed, Base28, IsName;
    var s := "gce_spw_t";
    assert ValueTo(s, 3) == 5577 && NameTo(s, 3);
    assert ValueTo(s, 6) == 122448020 && NameTo(s, 6);
    assert ValueTo(s, 9) == 2687978953848 && NameTo(s, 9);
    PackedByPosition(s);
  }

  lemma SpawnRetName()
    ensures IsName("gce_spw_ret_t") && Packed("gce_spw_ret_t") == Tags.TAG_SPAWN_RET
            && Base28("gce_spw_ret_t") == 1652182391855293192
  {
    hide Packed, Base28, IsName;
    var s := "gce_spw_ret_t";
    assert ValueTo(s, 3) == 5577 && NameTo(s, 3);
    assert ValueTo(s, 6) == 122448020 && NameTo(s, 6);
    assert ValueTo(s, 9) == 2687978953846 && NameTo(s, 9);
    assert ValueTo(s, 12) == 59006513994831899 && NameTo(s, 12);
    assert ValueTo(s, 13) == 1652182391855293192 && NameTo(s, 13);
    PackedByPosition(s);
  }

  /** The constants elsewhere are the packed forms of these names. */
  lemma ReservedNames()
    ensures Packed("gce_actor_exit") == EXIT
    ensures Packed("gce_aid_t") == Tags.TAG_AID && Packed("gce_request_t") == Tags.TAG_REQUEST
    ensures Packed("gce_link_t") == Tags.TAG_LINK && Packed("gce_exit_t") == Tags.TAG_EXIT
    ensures Packed("gce_response_t") == Tags.TAG_RESPONSE
    ensures Packed("gce_spw_t") == Tags.TAG_SPAWN && Packed("gce_spw_ret_t") == Tags.TAG_SPAWN_RET
  {
    hide Packed, Base28, IsName;
    ExitName();
    AidName();
    RequestName();
    LinkName();
    ExitTagName();
    ResponseName();
    SpawnName();
    SpawnRetName();
  }

  /** Two of the reserved names are long enough to wrap around, so unpacking their numbers gives other text. */
  lemma LongNamesDoNotComeBack()
    ensures Unpacked(EXIT) != "gce_actor_exit" && Unpacked(Tags.TAG_RESPONSE) != "gce_response_t"
  {
    hide Packed, Base28, IsName, Unpacked;
    ExitName();
    ResponseName();
    Base28OfUnpacked(EXIT);
    Base28OfUnpacked(Tags.TAG_RESPONSE);
  }
}
