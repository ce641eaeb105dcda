/** The pieces of Python's `str` behaviour that the relying party relies on:
    `str.strip()` with no argument, `str(n)` for a non-negative integer and
    `str.encode("utf-8")`. */
module Text {
  import opened Octets

  /** Python's `str.isspace()`: the characters `str.strip()` removes when it
      is called without an argument. */
  predicate IsPyWhitespace(c: char) {
    var n := c as int;
    (0x09 <= n <= 0x0D) || (0x1C <= n <= 0x20) || n == 0x85 || n == 0xA0 || n == 0x1680
    || (0x2000 <= n <= 0x200A) || n == 0x2028 || n == 0x2029 || n == 0x202F || n == 0x205F
    || n == 0x3000
  }

  /** `str.lstrip()`: the longest suffix of `s` that does not start with
      whitespace; everything dropped is whitespace. */
  function StripStart(s: string): (r: string)
    ensures |r| <= |s| && r == s[|s| - |r|..]
    ensures r != [] ==> !IsPyWhitespace(r[0])
    ensures forall k :: 0 <= k < |s| - |r| ==> IsPyWhitespace(s[k])
  {
    if s != [] && IsPyWhitespace(s[0]) then StripStart(s[1..]) else s
  }

  /** `str.rstrip()`: the longest prefix of `s` that does not end with
      whitespace; everything dropped is whitespace. */
  function StripEnd(s: string): (r: string)
    ensures |r| <= |s| && r == s[..|r|]
    ensures r != [] ==> !IsPyWhitespace(r[|r| - 1])
    ensures forall k :: |r| <= k < |s| ==> IsPyWhitespace(s[k])
  {
    if s != [] && IsPyWhitespace(s[|s| - 1]) then StripEnd(s[..|s| - 1]) else s
  }

  /** `str.strip()`. */
  function Strip(s: string): string {
    StripEnd(StripStart(s))
  }

  /** How many leading characters `str.strip()` drops. */
  function StripOffset(s: string): nat {
    |s| - |StripStart(s)|
  }

  /** `s.strip()` is empty exactly when every character of `s` is
      whitespace; otherwise it is the slice of `s` at `StripOffset(s)`, with
      no whitespace at either end and only whitespace around it. */
  lemma StripCharacterised(s: string)
    ensures Strip(s) == [] <==> forall k :: 0 <= k < |s| ==> IsPyWhitespace(s[k])
    ensures StripOffset(s) + |Strip(s)| <= |s|
    ensures Strip(s) == s[StripOffset(s)..StripOffset(s) + |Strip(s)|]
    ensures Strip(s) != [] ==> !IsPyWhitespace(Strip(s)[0]) && !IsPyWhitespace(Strip(s)[|Strip(s)| - 1])
    ensures forall k :: 0 <= k < StripOffset(s) ==> IsPyWhitespace(s[k])
    ensures forall k :: StripOffset(s) + |Strip(s)| <= k < |s| ==> IsPyWhitespace(s[k])
  {
    StripEmptyIff(s);
    StripSlice(s);
  }

  /** A string with no whitespace at either end is its own `strip()`. */
  lemma StripTrimmed(s: string)
    requires s != [] && !IsPyWhitespace(s[0]) && !IsPyWhitespace(s[|s| - 1])
    ensures Strip(s) == s
  {
    assert StripStart(s) == s;
  }

  lemma StripEmptyIff(s: string)
    ensures Strip(s) == [] <==> forall k :: 0 <= k < |s| ==> IsPyWhitespace(s[k])
  {
    var t := StripStart(s);
    var i := |s| - |t|;
    if StripEnd(t) == [] {
      assert t == [];
    } else {
      assert s[i] == t[0];
    }
  }

  lemma StripSlice(s: string)
    ensures StripOffset(s) + |Strip(s)| <= |s|
    ensures Strip(s) == s[StripOffset(s)..StripOffset(s) + |Strip(s)|]
    ensures forall k :: StripOffset(s) + |Strip(s)| <= k < |s| ==> IsPyWhitespace(s[k])
  {
    var t := StripStart(s);
    var r := StripEnd(t);
    PrefixOfSuffix(s, t, r);
    StripTrailingWhitespace(s, t, r);
  }

  /** A prefix of a suffix of `s` is a slice of `s`. */
  lemma PrefixOfSuffix(s: string, t: string, r: string)
    requires |t| <= |s| && t == s[|s| - |t|..]
    requires |r| <= |t| && r == t[..|r|]
    ensures r == s[|s| - |t|..|s| - |t| + |r|]
  {
    assert s[|s| - |t|..][..|r|] == s[|s| - |t|..|s| - |t| + |r|];
  }

  /** What `str.rstrip()` drops after `str.lstrip()` is whitespace of `s`. */
  lemma StripTrailingWhitespace(s: string, t: string, r: string)
    requires |t| <= |s| && t == s[|s| - |t|..]
    requires |r| <= |t| && forall k :: |r| <= k < |t| ==> IsPyWhitespace(t[k])
    ensures forall k :: |s| - |t| + |r| <= k < |s| ==> IsPyWhitespace(s[k])
  {
    var i := |s| - |t|;
    forall k | i + |r| <= k < |s| ensures IsPyWhitespace(s[k]) {
      assert s[k] == t[k - i];
    }
  }

  /** The decimal digit for `d`. */
  function DigitChar(d: int): char
    requires 0 <= d < 10
  {
    ('0' as int + d) as char
  }

  /** `str(n)` for a non-negative integer: its decimal digits, most
      significant first, without leading zeros. */
  function Decimal(n: nat): (s: string)
    ensures |s| >= 1 && forall k :: 0 <= k < |s| ==> '0' <= s[k] <= '9'
    ensures |s| > 1 ==> s[0] != '0'
  {
    if n < 10 then [DigitChar(n)] else Decimal(n / 10) + [DigitChar(n % 10)]
  }

  /** The number a string of decimal digits denotes (`int(s)`). */
  function ParseDecimal(s: string): nat
    requires forall k :: 0 <= k < |s| ==> '0' <= s[k] <= '9'
  {
    if s == [] then 0 else ParseDecimal(s[..|s| - 1]) * 10 + (s[|s| - 1] as int - '0' as int)
  }

  /** `int(str(n)) == n`. */
  lemma {:induction false} ParseDecimalOfDecimal(n: nat)
    ensures ParseDecimal(Decimal(n)) == n
  {
    if n >= 10 {
      var s := Decimal(n);
      assert s[..|s| - 1] == Decimal(n / 10);
      ParseDecimalOfDecimal(n / 10);
    }
  }

  /** Distinct numbers have distinct decimal representations. */
  lemma DecimalInjective(a: nat, b: nat)
    requires Decimal(a) == Decimal(b)
    ensures a == b
  {
    ParseDecimalOfDecimal(a);
    ParseDecimalOfDecimal(b);
  }

  /** The UTF-8 encoding of one Unicode scalar value. */
  function Utf8Char(c: char): (b: Bytes)
    ensures 1 <= |b| <= 4
    ensures c as int < 0x80 ==> b == [c as int]
  {
    var n := c as int;
    if n < 0x80 then [n]
    else if n < 0x800 then [0xC0 + n / 0x40, 0x80 + n % 0x40]
    else if n < 0x1_0000 then [0xE0 + n / 0x1000, 0x80 + (n / 0x40) % 0x40, 0x80 + n % 0x40]
    else [0xF0 + n / 0x4_0000, 0x80 + (n / 0x1000) % 0x40, 0x80 + (n / 0x40) % 0x40, 0x80 + n % 0x40]
  }

  /** `s.encode("utf-8")`. */
  function Utf8(s: string): Bytes {
    if s == [] then [] else Utf8Char(s[0]) + Utf8(s[1..])
  }

  /** Encoding a concatenation encodes the parts one after the other. */
  lemma {:induction false} Utf8Append(s: string, t: string)
    ensures Utf8(s + t) == Utf8(s) + Utf8(t)
  {
    if s != [] {
      assert (s + t)[0] == s[0];
      assert (s + t)[1..] == s[1..] + t;
      Utf8Append(s[1..], t);
      calc {
        Utf8(s + t);
        Utf8Char(s[0]) + Utf8(s[1..] + t);
        Utf8Char(s[0]) + (Utf8(s[1..]) + Utf8(t));
        (Utf8Char(s[0]) + Utf8(s[1..])) + Utf8(t);
      }
    } else {
      assert s + t == t;
    }
  }

  predicate IsAscii(s: string) {
    forall k :: 0 <= k < |s| ==> s[k] as int < 0x80
  }

  /** An ASCII string encodes to its own character codes, one octet each. */
  lemma {:induction false} Utf8OfAscii(s: string)
    requires IsAscii(s)
    ensures |Utf8(s)| == |s|
    ensures forall k :: 0 <= k < |s| ==> Utf8(s)[k] == s[k] as int
  {
    if s != [] {
      Utf8OfAscii(s[1..]);
    }
  }

  /** Two ASCII strings with the same UTF-8 encoding are equal. */
  lemma Utf8AsciiInjective(s: string, t: string)
    requires IsAscii(s) && IsAscii(t) && Utf8(s) == Utf8(t)
    ensures s == t
  {
    Utf8OfAscii(s);
    Utf8OfAscii(t);
    assert |s| == |t|;
    forall k | 0 <= k < |s| ensures s[k] == t[k] {
      assert Utf8(s)[k] == Utf8(t)[k];
    }
  }
}
