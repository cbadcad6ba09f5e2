/** java.util.UUID as this configuration uses it: a 128-bit value held as two
    64-bit halves, its canonical 8-4-4-4-12 lower-case hexadecimal string form
    (section 3 of RFC 4122), and a reader for exactly that form. */
module Uuids {
  import opened Wrappers

  /** The bit pattern of a Java `long`, read as an unsigned number. */
  type U64 = x: int | 0 <= x < 0x1_0000_0000_0000_0000

  /** A UUID: the most and the least significant 64 bits. */
  datatype Uuid = Uuid(mostSigBits: U64, leastSigBits: U64)

  /** Length of the canonical string form. */
  const CanonicalLength: nat := 36

  function Pow16(n: nat): (p: nat)
    ensures p >= 1
  {
    if n == 0 then 1 else 16 * Pow16(n - 1)
  }

  predicate IsHexChar(ch: char) {
    '0' <= ch <= '9' || 'a' <= ch <= 'f'
  }

  predicate AllHex(s: string) {
    forall i :: 0 <= i < |s| ==> IsHexChar(s[i])
  }

  /** The lower-case hexadecimal digit for `d`, as Long.toHexString writes it. */
  function HexChar(d: int): (ch: char)
    requires 0 <= d < 16
    ensures IsHexChar(ch)
  {
    if d < 10 then ('0' as int + d) as char else ('a' as int + d - 10) as char
  }

  function HexValue(ch: char): (d: int)
    requires IsHexChar(ch)
    ensures 0 <= d < 16
    ensures HexChar(d) == ch
  {
    if ch <= '9' then ch as int - '0' as int else ch as int - 'a' as int + 10
  }

  /** The `n` low-order hexadecimal digits of `v`, most significant first
      (UUID's private `digits` helper). */
  function Digits(v: nat, n: nat): (s: string)
    ensures |s| == n
    ensures AllHex(s)
  {
    if n == 0 then [] else Digits(v / 16, n - 1) + [HexChar(v % 16)]
  }

  /** The number a string of hexadecimal digits denotes. */
  function ParseHex(s: string): (v: nat)
    requires AllHex(s)
    ensures v < Pow16(|s|)
  {
    if s == [] then 0 else 16 * ParseHex(s[..|s| - 1]) + HexValue(s[|s| - 1])
  }

  /** True iff `s` has the canonical form: 36 characters, '-' at positions
      8, 13, 18 and 23, lower-case hexadecimal digits everywhere else. */
  predicate IsCanonical(s: string) {
    && |s| == CanonicalLength
    && s[8] == '-' && s[13] == '-' && s[18] == '-' && s[23] == '-'
    && AllHex(s[..8]) && AllHex(s[9..13]) && AllHex(s[14..18])
    && AllHex(s[19..23]) && AllHex(s[24..])
  }

  /** The five groups joined by '-'. */
  function Join(g1: string, g2: string, g3: string, g4: string, g5: string): string {
    g1 + "-" + g2 + "-" + g3 + "-" + g4 + "-" + g5
  }

  lemma JoinSlices(g1: string, g2: string, g3: string, g4: string, g5: string)
    requires |g1| == 8 && |g2| == 4 && |g3| == 4 && |g4| == 4 && |g5| == 12
    ensures var s := Join(g1, g2, g3, g4, g5);
      && |s| == CanonicalLength
      && s[8] == '-' && s[13] == '-' && s[18] == '-' && s[23] == '-'
      && s[..8] == g1 && s[9..13] == g2 && s[14..18] == g3 && s[19..23] == g4 && s[24..] == g5
  {
  }

  lemma JoinOfSlices(s: string)
    requires IsCanonical(s)
    ensures Join(s[..8], s[9..13], s[14..18], s[19..23], s[24..]) == s
  {
  }

  /** UUID.toString: the five groups of 8, 4, 4, 4 and 12 hex digits. */
  function ToString(u: Uuid): (s: string)
    ensures IsCanonical(s)
  {
    var g1, g2, g3 := Digits(u.mostSigBits / 0x1_0000_0000, 8), Digits(u.mostSigBits / 0x1_0000, 4), Digits(u.mostSigBits, 4);
    var g4, g5 := Digits(u.leastSigBits / 0x1_0000_0000_0000, 4), Digits(u.leastSigBits, 12);
    JoinSlices(g1, g2, g3, g4, g5);
    Join(g1, g2, g3, g4, g5)
  }

  /** Reads the canonical form back; `None` for any other string. */
  function Parse(s: string): (r: Option<Uuid>)
    ensures r.Some? <==> IsCanonical(s)
  {
    if !IsCanonical(s) then None
    else
      Pow16Values();
      var msb := ParseHex(s[..8]) * 0x1_0000_0000 + ParseHex(s[9..13]) * 0x1_0000 + ParseHex(s[14..18]);
      var lsb := ParseHex(s[19..23]) * 0x1_0000_0000_0000 + ParseHex(s[24..]);
      Some(Uuid(msb, lsb))
  }

  // ---------------------------------------------------------------------
  // Arithmetic helpers

  lemma DivModUnique(v: int, d: int, q: int, m: int)
    requires d > 0 && 0 <= m < d && v == d * q + m
    ensures v / d == q && v % d == m
  {
    var q0, m0 := v / d, v % d;
    assert v == d * q0 + m0;
    if q0 < q {
      assert d * (q - q0) >= d by { MulAtLeast(d, q - q0); }
      assert false;
    } else if q0 > q {
      assert d * (q0 - q) >= d by { MulAtLeast(d, q0 - q); }
      assert false;
    }
  }

  lemma MulAtLeast(d: int, k: int)
    requires d > 0 && k >= 1
    ensures d * k >= d
  {
  }

  /** Dropping the last hex digit and keeping `n - 1` digits, then putting the
      digit back, is the same as keeping `n` digits. */
  lemma ModShift(v: nat, n: nat)
    requires n >= 1
    ensures 16 * ((v / 16) % Pow16(n - 1)) + v % 16 == v % Pow16(n)
  {
    var p := Pow16(n - 1);
    var q := v / 16;
    assert q == p * (q / p) + q % p;
    assert v == 16 * q + v % 16;
    assert v == (16 * p) * (q / p) + (16 * (q % p) + v % 16);
    assert 16 * (q % p) + v % 16 < 16 * p;
    DivModUnique(v, 16 * p, q / p, 16 * (q % p) + v % 16);
  }

  // ---------------------------------------------------------------------
  // Hex digits: the two round trips

  /** Reading `n` written digits gives back the value modulo 16^n. */
  lemma {:induction false} ParseDigits(v: nat, n: nat)
    ensures ParseHex(Digits(v, n)) == v % Pow16(n)
  {
    if n > 0 {
      var s := Digits(v, n);
      assert s[..n - 1] == Digits(v / 16, n - 1);
      ParseDigits(v / 16, n - 1);
      ModShift(v, n);
    }
  }

  /** Writing the value of a hex string with as many digits gives back the string. */
  lemma {:induction false} DigitsParse(s: string)
    requires AllHex(s)
    ensures Digits(ParseHex(s), |s|) == s
  {
    if s != [] {
      var init := s[..|s| - 1];
      var v := ParseHex(s);
      var d := HexValue(s[|s| - 1]);
      DivModUnique(v, 16, ParseHex(init), d);
      DigitsParse(init);
      assert s == init + [s[|s| - 1]];
    }
  }

  /** Digits only sees the value modulo 16^n. */
  lemma DigitsMod(v: nat, n: nat)
    ensures Digits(v, n) == Digits(v % Pow16(n), n)
  {
    DigitsParse(Digits(v, n));
    ParseDigits(v, n);
  }

  lemma Pow16Values()
    ensures Pow16(4) == 0x1_0000 && Pow16(8) == 0x1_0000_0000 && Pow16(12) == 0x1_0000_0000_0000
  {
    assert Pow16(4) == 0x1_0000;
    assert Pow16(8) == 0x1_0000_0000 by { assert Pow16(8) == Pow16(4) * Pow16(4) by { Pow16Add(4, 4); } }
    assert Pow16(12) == 0x1_0000_0000_0000 by { Pow16Add(8, 4); }
  }

  lemma {:induction false} Pow16Add(a: nat, b: nat)
    ensures Pow16(a + b) == Pow16(a) * Pow16(b)
  {
    if a > 0 {
      Pow16Add(a - 1, b);
    }
  }

  // ---------------------------------------------------------------------
  // UUID: the two round trips

  /** The three groups of the most significant half put back together. */
  lemma SplitHigh(x: U64)
    ensures x == (x / 0x1_0000_0000) * 0x1_0000_0000 + ((x / 0x1_0000) % 0x1_0000) * 0x1_0000 + x % 0x1_0000
  {
  }

  lemma SplitLow(x: U64)
    ensures x == (x / 0x1_0000_0000_0000) * 0x1_0000_0000_0000 + x % 0x1_0000_0000_0000
  {
  }

  lemma JoinHigh(a: nat, b: nat, c: nat)
    requires a < 0x1_0000_0000 && b < 0x1_0000 && c < 0x1_0000
    ensures var x := a * 0x1_0000_0000 + b * 0x1_0000 + c;
      x / 0x1_0000_0000 == a && (x / 0x1_0000) % 0x1_0000 == b && x % 0x1_0000 == c
  {
    var x := a * 0x1_0000_0000 + b * 0x1_0000 + c;
    DivModUnique(x, 0x1_0000, a * 0x1_0000 + b, c);
    DivModUnique(a * 0x1_0000 + b, 0x1_0000, a, b);
    DivModUnique(x, 0x1_0000_0000, a, b * 0x1_0000 + c);
  }

  lemma JoinLow(d: nat, e: nat)
    requires d < 0x1_0000 && e < 0x1_0000_0000_0000
    ensures var x := d * 0x1_0000_0000_0000 + e;
      x / 0x1_0000_0000_0000 == d && x % 0x1_0000_0000_0000 == e
  {
    DivModUnique(d * 0x1_0000_0000_0000 + e, 0x1_0000_0000_0000, d, e);
  }

  /** Parse reads the five groups of a joined string as hex numbers. */
  lemma ParseJoin(g1: string, g2: string, g3: string, g4: string, g5: string)
    requires |g1| == 8 && |g2| == 4 && |g3| == 4 && |g4| == 4 && |g5| == 12
    requires AllHex(g1) && AllHex(g2) && AllHex(g3) && AllHex(g4) && AllHex(g5)
    ensures Parse(Join(g1, g2, g3, g4, g5)).Some?
    ensures Parse(Join(g1, g2, g3, g4, g5)).value.mostSigBits
      == ParseHex(g1) * 0x1_0000_0000 + ParseHex(g2) * 0x1_0000 + ParseHex(g3)
    ensures Parse(Join(g1, g2, g3, g4, g5)).value.leastSigBits
      == ParseHex(g4) * 0x1_0000_0000_0000 + ParseHex(g5)
  {
    var s := Join(g1, g2, g3, g4, g5);
    JoinSlices(g1, g2, g3, g4, g5);
    assert IsCanonical(s);
  }

  /** Reading `n` digits written for `v` gives back `v` modulo `p`, when `p` is 16^n. */
  lemma ReadBack(v: nat, n: nat, p: nat)
    requires Pow16(n) == p
    ensures ParseHex(Digits(v, n)) == v % p
  {
    ParseDigits(v, n);
  }

  /** The three groups written for the most significant half read back as its parts. */
  lemma ReadHighGroups(msb: U64)
    ensures ParseHex(Digits(msb / 0x1_0000_0000, 8)) == msb / 0x1_0000_0000
    ensures ParseHex(Digits(msb / 0x1_0000, 4)) == (msb / 0x1_0000) % 0x1_0000
    ensures ParseHex(Digits(msb, 4)) == msb % 0x1_0000
  {
    Pow16Values();
    assert ParseHex(Digits(msb / 0x1_0000_0000, 8)) == msb / 0x1_0000_0000 by {
      ReadBack(msb / 0x1_0000_0000, 8, 0x1_0000_0000);
    }
    assert ParseHex(Digits(msb / 0x1_0000, 4)) == (msb / 0x1_0000) % 0x1_0000 by {
      ReadBack(msb / 0x1_0000, 4, 0x1_0000);
    }
    assert ParseHex(Digits(msb, 4)) == msb % 0x1_0000 by {
      ReadBack(msb, 4, 0x1_0000);
    }
  }

  /** The two groups written for the least significant half read back as its parts. */
  lemma ReadLowGroups(lsb: U64)
    ensures ParseHex(Digits(lsb / 0x1_0000_0000_0000, 4)) == lsb / 0x1_0000_0000_0000
    ensures ParseHex(Digits(lsb, 12)) == lsb % 0x1_0000_0000_0000
  {
    Pow16Values();
    ReadBack(lsb / 0x1_0000_0000_0000, 4, 0x1_0000);
    ReadBack(lsb, 12, 0x1_0000_0000_0000);
  }

  /** A joined string whose groups read as the parts of `u` is read as `u`. */
  lemma ParseJoinOfParts(u: Uuid, g1: string, g2: string, g3: string, g4: string, g5: string)
    requires |g1| == 8 && |g2| == 4 && |g3| == 4 && |g4| == 4 && |g5| == 12
    requires AllHex(g1) && AllHex(g2) && AllHex(g3) && AllHex(g4) && AllHex(g5)
    requires ParseHex(g1) == u.mostSigBits / 0x1_0000_0000
    requires ParseHex(g2) == (u.mostSigBits / 0x1_0000) % 0x1_0000
    requires ParseHex(g3) == u.mostSigBits % 0x1_0000
    requires ParseHex(g4) == u.leastSigBits / 0x1_0000_0000_0000
    requires ParseHex(g5) == u.leastSigBits % 0x1_0000_0000_0000
    ensures Parse(Join(g1, g2, g3, g4, g5)) == Some(u)
  {
    assert ParseHex(g1) * 0x1_0000_0000 + ParseHex(g2) * 0x1_0000 + ParseHex(g3) == u.mostSigBits by {
      SplitHigh(u.mostSigBits);
    }
    assert ParseHex(g4) * 0x1_0000_0000_0000 + ParseHex(g5) == u.leastSigBits by {
      SplitLow(u.leastSigBits);
    }
    ParseJoin(g1, g2, g3, g4, g5);
    var w := Parse(Join(g1, g2, g3, g4, g5)).value;
    assert w.mostSigBits == u.mostSigBits;
    assert w.leastSigBits == u.leastSigBits;
    assert w == u;
  }

  /** Reading the string form of a UUID gives back that UUID. */
  lemma ParseToString(u: Uuid)
    ensures Parse(ToString(u)) == Some(u)
  {
    var msb, lsb := u.mostSigBits, u.leastSigBits;
    var g1, g2, g3 := Digits(msb / 0x1_0000_0000, 8), Digits(msb / 0x1_0000, 4), Digits(msb, 4);
    var g4, g5 := Digits(lsb / 0x1_0000_0000_0000, 4), Digits(lsb, 12);
    assert ToString(u) == Join(g1, g2, g3, g4, g5);
    ReadHighGroups(msb);
    ReadLowGroups(lsb);
    ParseJoinOfParts(u, g1, g2, g3, g4, g5);
  }

  /** The groups written for a most significant half assembled from `a`, `b`
      and `c` are the digits of `a`, `b` and `c`. */
  lemma WriteHighGroups(a: nat, b: nat, c: nat)
    requires a < 0x1_0000_0000 && b < 0x1_0000 && c < 0x1_0000
    ensures var x := a * 0x1_0000_0000 + b * 0x1_0000 + c;
      && Digits(x / 0x1_0000_0000, 8) == Digits(a, 8)
      && Digits(x / 0x1_0000, 4) == Digits(b, 4)
      && Digits(x, 4) == Digits(c, 4)
  {
    var x := a * 0x1_0000_0000 + b * 0x1_0000 + c;
    JoinHigh(a, b, c);
    assert x / 0x1_0000_0000 == a;
    assert Digits(x / 0x1_0000, 4) == Digits(b, 4) by {
      Pow16Values();
      DigitsMod(x / 0x1_0000, 4);
      assert (x / 0x1_0000) % Pow16(4) == b;
    }
    assert Digits(x, 4) == Digits(c, 4) by {
      Pow16Values();
      DigitsMod(x, 4);
      assert x % Pow16(4) == c;
    }
  }

  lemma WriteLowGroups(d: nat, e: nat)
    requires d < 0x1_0000 && e < 0x1_0000_0000_0000
    ensures var x := d * 0x1_0000_0000_0000 + e;
      && Digits(x / 0x1_0000_0000_0000, 4) == Digits(d, 4)
      && Digits(x, 12) == Digits(e, 12)
  {
    var x := d * 0x1_0000_0000_0000 + e;
    JoinLow(d, e);
    assert x / 0x1_0000_0000_0000 == d;
    assert Digits(x, 12) == Digits(e, 12) by {
      Pow16Values();
      DigitsMod(x, 12);
      assert x % Pow16(12) == e;
    }
  }

  /** The digits of the parts of a most significant half assembled from the
      values of three hex groups are those groups. */
  lemma RewriteHigh(g1: string, g2: string, g3: string, msb: U64)
    requires |g1| == 8 && |g2| == 4 && |g3| == 4
    requires AllHex(g1) && AllHex(g2) && AllHex(g3)
    requires msb == ParseHex(g1) * 0x1_0000_0000 + ParseHex(g2) * 0x1_0000 + ParseHex(g3)
    ensures Digits(msb / 0x1_0000_0000, 8) == g1
    ensures Digits(msb / 0x1_0000, 4) == g2
    ensures Digits(msb, 4) == g3
  {
    Pow16Values();
    WriteHighGroups(ParseHex(g1), ParseHex(g2), ParseHex(g3));
    DigitsParse(g1);
    DigitsParse(g2);
    DigitsParse(g3);
  }

  lemma RewriteLow(g4: string, g5: string, lsb: U64)
    requires |g4| == 4 && |g5| == 12
    requires AllHex(g4) && AllHex(g5)
    requires lsb == ParseHex(g4) * 0x1_0000_0000_0000 + ParseHex(g5)
    ensures Digits(lsb / 0x1_0000_0000_0000, 4) == g4
    ensures Digits(lsb, 12) == g5
  {
    var d, e := ParseHex(g4), ParseHex(g5);
    assert d < 0x1_0000 && e < 0x1_0000_0000_0000 by {
      Pow16Values();
    }
    var x := d * 0x1_0000_0000_0000 + e;
    WriteLowGroups(d, e);
    assert Digits(x / 0x1_0000_0000_0000, 4) == g4 by {
      DigitsParse(g4);
    }
    assert Digits(x, 12) == g5 by {
      DigitsParse(g5);
    }
  }

  /** Every canonical string is the string form of the UUID read from it. */
  lemma ToStringParse(s: string)
    requires IsCanonical(s)
    ensures Parse(s).Some? && ToString(Parse(s).value) == s
  {
    var g1, g2, g3, g4, g5 := s[..8], s[9..13], s[14..18], s[19..23], s[24..];
    JoinOfSlices(s);
    ParseJoin(g1, g2, g3, g4, g5);
    var u := Parse(s).value;
    RewriteHigh(g1, g2, g3, u.mostSigBits);
    RewriteLow(g4, g5, u.leastSigBits);
  }

  /** Distinct UUIDs have distinct string forms. */
  lemma ToStringInjective(u: Uuid, w: Uuid)
    ensures ToString(u) == ToString(w) <==> u == w
  {
    ParseToString(u);
    ParseToString(w);
  }
}
