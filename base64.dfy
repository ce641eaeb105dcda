/** Base64 and base64url, as section 4 and section 5 of RFC 4648 define
    them, and the "forgiving-base64 decode" that the browser's `atob` runs.

    `UrlEncode` is the one encoder both sides of the relying party use:
    `b64url_encode` in the Python routes and `bufferToBase64url` in the
    browser script both take standard base64, replace `+` by `-` and `/` by
    `_`, and drop the trailing `=` padding. `UrlDecode` is what
    `base64urlToBuffer` computes: it maps the alphabet back, restores
    `(4 - len % 4) % 4` padding characters and calls `atob`. */
module Base64 {
  import opened Wrappers
  import opened Octets

  /** The value of one base64 character: six bits. */
  type Sextet = x: int | 0 <= x < 64

  /** The alphabet of Table 1 in section 4 of RFC 4648. */
  const ALPHABET: string := "ABCDEFGHIJKLMNOPQRSTUVWXYZabcdefghijklmnopqrstuvwxyz0123456789+/"

  predicate IsAlphabetChar(c: char) {
    ('A' <= c <= 'Z') || ('a' <= c <= 'z') || ('0' <= c <= '9') || c == '+' || c == '/'
  }

  /** The URL and filename safe alphabet of Table 2 in section 5 of RFC 4648. */
  predicate IsUrlAlphabetChar(c: char) {
    ('A' <= c <= 'Z') || ('a' <= c <= 'z') || ('0' <= c <= '9') || c == '-' || c == '_'
  }

  function CharOf(v: Sextet): (c: char)
    ensures IsAlphabetChar(c)
  {
    if v < 26 then (65 + v) as char
    else if v < 52 then (97 + v - 26) as char
    else if v < 62 then (48 + v - 52) as char
    else if v == 62 then '+'
    else '/'
  }

  function ValueOf(c: char): (v: Sextet)
    requires IsAlphabetChar(c)
    ensures CharOf(v) == c
  {
    if 'A' <= c <= 'Z' then c as int - 65
    else if 'a' <= c <= 'z' then c as int - 97 + 26
    else if '0' <= c <= '9' then c as int - 48 + 52
    else if c == '+' then 62
    else 63
  }

  /** Every character of `s` is in the standard alphabet. */
  predicate AllAlphabet(s: string) {
    forall k :: 0 <= k < |s| ==> IsAlphabetChar(s[k])
  }

  /** The characters for one input group of one, two or three octets (a
      full quantum is three), without the `=` padding of a short final
      group: the 24 bits, filled with zero bits, read six at a time. */
  function GroupChars(g: Bytes): (s: string)
    requires 1 <= |g| <= 3
    ensures |s| == |g| + 1 && AllAlphabet(s)
  {
    var b0 := g[0];
    var b1 := if |g| > 1 then g[1] else 0;
    var b2 := if |g| > 2 then g[2] else 0;
    var all := [CharOf(b0 / 4), CharOf((b0 % 4) * 16 + b1 / 16), CharOf((b1 % 16) * 4 + b2 / 64), CharOf(b2 % 64)];
    all[..|g| + 1]
  }

  /** The characters of the groups of `b`, three octets at a time, with no
      padding. */
  function Unpadded(b: Bytes): (s: string)
    ensures AllAlphabet(s)
    decreases |b|
  {
    if |b| == 0 then []
    else if |b| <= 3 then GroupChars(b)
    else GroupChars(b[..3]) + Unpadded(b[3..])
  }

  function Repeat(c: char, n: nat): (s: string)
    ensures |s| == n && forall k :: 0 <= k < n ==> s[k] == c
  {
    seq(n, _ => c)
  }

  /** Base64 of section 4 of RFC 4648 (what `btoa` and Python's
      `b64encode` produce): a final group of one octet is followed by `==`,
      one of two octets by `=`. */
  function Encode(b: Bytes): string {
    Unpadded(b) + Repeat('=', (3 - |b| % 3) % 3)
  }

  /** The number of `=` that `base64urlToBuffer` appends to a string of
      length `n`. */
  function PadCount(n: nat): (p: nat)
    ensures p <= 3 && (n + p) % 4 == 0
    ensures n % 4 == 0 ==> p == 0
  {
    (4 - n % 4) % 4
  }

  /** The length of the unpadded encoding of `n` octets: 4 characters per
      full group of three, one more than the octet count for a final short
      group. */
  function UnpaddedLength(n: nat): nat {
    if n == 0 then 0 else if n <= 3 then n + 1 else 4 + UnpaddedLength(n - 3)
  }

  lemma {:induction false} UnpaddedHasLength(b: Bytes)
    ensures |Unpadded(b)| == UnpaddedLength(|b|)
    decreases |b|
  {
    if |b| > 3 {
      UnpaddedHasLength(b[3..]);
    }
  }

  /** The unpadded length is never 1 modulo 4, it is the octet count times
      4/3 rounded up, and the `=` count of `Encode` is exactly what
      `PadCount` restores. */
  lemma {:induction false} UnpaddedLengthFacts(n: nat)
    ensures UnpaddedLength(n) == (4 * n + 2) / 3
    ensures UnpaddedLength(n) % 4 != 1
    ensures PadCount(UnpaddedLength(n)) == (3 - n % 3) % 3
  {
    if n > 3 {
      UnpaddedLengthFacts(n - 3);
      LengthStep(n - 3, UnpaddedLength(n - 3));
    }
  }

  /** Three more octets add four characters, and keep the length's residue
      modulo 4 and the padding needed. */
  lemma LengthStep(m: nat, l: nat)
    requires l == (4 * m + 2) / 3 && l % 4 != 1 && PadCount(l) == (3 - m % 3) % 3
    ensures l + 4 == (4 * (m + 3) + 2) / 3 && (l + 4) % 4 != 1
    ensures PadCount(l + 4) == (3 - (m + 3) % 3) % 3
  {
    assert 4 * (m + 3) + 2 == (4 * m + 2) + 12;
    DivByThreeStep(4 * m + 2);
    assert (l + 4) % 4 == l % 4;
    assert (m + 3) % 3 == m % 3;
  }

  lemma DivByThreeStep(x: nat)
    ensures (x + 12) / 3 == x / 3 + 4
  {
  }

  lemma UnpaddedShape(b: Bytes)
    ensures |Unpadded(b)| == (4 * |b| + 2) / 3
    ensures |Unpadded(b)| % 4 != 1
    ensures PadCount(|Unpadded(b)|) == (3 - |b| % 3) % 3
  {
    var n := |b|;
    UnpaddedHasLength(b);
    UnpaddedLengthFacts(n);
    assert |Unpadded(b)| == UnpaddedLength(n);
  }

  /** `Encode` output always has a length that is a multiple of 4. */
  lemma EncodeLength(b: Bytes)
    ensures |Encode(b)| % 4 == 0
  {
    UnpaddedShape(b);
  }

  // ---------------------------------------------------------------------
  // Decoding: the forgiving-base64 decode of the HTML standard, run by atob
  // ---------------------------------------------------------------------

  /** The ASCII whitespace that `atob` ignores. */
  predicate IsAsciiWhitespace(c: char) {
    c == '\t' || c == '\n' || c as int == 0x0C || c == '\r' || c == ' '
  }

  function RemoveAsciiWhitespace(s: string): (r: string)
    ensures |r| <= |s|
  {
    if s == [] then []
    else if IsAsciiWhitespace(s[0]) then RemoveAsciiWhitespace(s[1..])
    else [s[0]] + RemoveAsciiWhitespace(s[1..])
  }

  /** The octets of one group of two, three or four characters; the bits
      left over by a short group are dropped. */
  function GroupBytes(s: string): (b: Bytes)
    requires 2 <= |s| <= 4 && AllAlphabet(s)
    ensures |b| == |s| - 1
  {
    var v0 := ValueOf(s[0]);
    var v1 := ValueOf(s[1]);
    var v2 := if |s| > 2 then ValueOf(s[2]) else 0;
    var v3 := if |s| > 3 then ValueOf(s[3]) else 0;
    var all: Bytes := [v0 * 4 + v1 / 16, (v1 % 16) * 16 + v2 / 4, (v2 % 4) * 64 + v3];
    all[..|s| - 1]
  }

  function DecodeGroups(s: string): (b: Bytes)
    requires |s| % 4 != 1 && AllAlphabet(s)
    decreases |s|
  {
    if |s| == 0 then []
    else if |s| < 4 then GroupBytes(s)
    else GroupBytes(s[..4]) + DecodeGroups(s[4..])
  }

  /** When the length is a multiple of 4, drop one or two final `=`. */
  function TrimPadding(d: string): (r: string)
    ensures |r| <= |d|
  {
    if |d| % 4 == 0 && |d| >= 2 && d[|d| - 2] == '=' && d[|d| - 1] == '=' then d[..|d| - 2]
    else if |d| % 4 == 0 && |d| >= 1 && d[|d| - 1] == '=' then d[..|d| - 1]
    else d
  }

  /** The forgiving-base64 decode: drop ASCII whitespace, trim the padding,
      and fail if the length is then 1 modulo 4 or any character is outside
      the standard alphabet. */
  function Decode(s: string): Option<Bytes> {
    var d := TrimPadding(RemoveAsciiWhitespace(s));
    if |d| % 4 == 1 || !AllAlphabet(d) then None else Some(DecodeGroups(d))
  }

  // ---------------------------------------------------------------------
  // The URL-safe variant
  // ---------------------------------------------------------------------

  /** `s.replace(/x/g, y)` for a single character `x`. */
  function Replace(s: string, x: char, y: char): (r: string)
    ensures |r| == |s|
    ensures forall k :: 0 <= k < |s| ==> r[k] == if s[k] == x then y else s[k]
  {
    seq(|s|, k requires 0 <= k < |s| => if s[k] == x then y else s[k])
  }

  /** `s.replace(/=+$/g, '')` in JavaScript, `s.rstrip("=")` in Python:
      drop the run of `c` at the end of `s`. */
  function StripTrailing(s: string, c: char): (r: string)
    ensures |r| <= |s| && r == s[..|r|]
    ensures r == [] || r[|r| - 1] != c
    ensures forall k :: |r| <= k < |s| ==> s[k] == c
  {
    if s != [] && s[|s| - 1] == c then StripTrailing(s[..|s| - 1], c) else s
  }

  /** Unpadded base64url: standard base64 with `+` and `/` replaced by `-`
      and `_` and the padding removed. */
  function UrlEncode(b: Bytes): string {
    StripTrailing(Replace(Replace(Encode(b), '+', '-'), '/', '_'), '=')
  }

  /** `base64urlToBuffer` without the final copy into a byte array: map the
      URL alphabet back, pad to a multiple of 4 and decode. */
  function UrlDecode(s: string): Option<Bytes> {
    var base64 := Replace(Replace(s, '-', '+'), '_', '/');
    Decode(base64 + Repeat('=', PadCount(|base64|)))
  }

  // ---------------------------------------------------------------------
  // Properties
  // ---------------------------------------------------------------------

  /** A sextet's character gives the sextet back. */
  lemma ValueOfCharOf(v: Sextet)
    ensures ValueOf(CharOf(v)) == v
  {
  }

  /** The first octet is the first sextet and the top two bits of the
      second. */
  lemma JoinFirst(b0: byte, b1: byte)
    ensures (b0 / 4) * 4 + ((b0 % 4) * 16 + b1 / 16) / 16 == b0
  {
  }

  /** The second octet is the low four bits of the second sextet and the
      top four bits of the third. */
  lemma JoinSecond(b0: byte, b1: byte, b2: byte)
    ensures (((b0 % 4) * 16 + b1 / 16) % 16) * 16 + ((b1 % 16) * 4 + b2 / 64) / 4 == b1
  {
  }

  /** The third octet is the low two bits of the third sextet and the
      fourth. */
  lemma JoinThird(b1: byte, b2: byte)
    ensures (((b1 % 16) * 4 + b2 / 64) % 4) * 64 + b2 % 64 == b2
  {
  }

  /** The octet at `i` of a group, or 0 past its end. */
  function OctetOr0(g: Bytes, i: nat): byte {
    if i < |g| then g[i] else 0
  }

  /** The sextets a group's characters stand for. */
  lemma GroupSextets(g: Bytes)
    requires 1 <= |g| <= 3
    ensures var s := GroupChars(g);
      var (b0, b1, b2) := (g[0], OctetOr0(g, 1), OctetOr0(g, 2));
      && ValueOf(s[0]) == b0 / 4
      && ValueOf(s[1]) == (b0 % 4) * 16 + b1 / 16
      && (|g| > 1 ==> ValueOf(s[2]) == (b1 % 16) * 4 + b2 / 64)
      && (|g| > 2 ==> ValueOf(s[3]) == b2 % 64)
  {
    var s := GroupChars(g);
    var b0, b1, b2 := g[0], OctetOr0(g, 1), OctetOr0(g, 2);
    SextetAt(s, 0, b0 / 4);
    SextetAt(s, 1, (b0 % 4) * 16 + b1 / 16);
    if |g| > 1 {
      SextetAt(s, 2, (b1 % 16) * 4 + b2 / 64);
    }
    if |g| > 2 {
      SextetAt(s, 3, b2 % 64);
    }
  }

  /** A character spelt for a sextet is read back as that sextet. */
  lemma SextetAt(s: string, i: nat, v: Sextet)
    requires i < |s| && s[i] == CharOf(v)
    ensures IsAlphabetChar(s[i]) && ValueOf(s[i]) == v
  {
    ValueOfCharOf(v);
  }

  /** One group decodes back to the octets it was made from. */
  lemma GroupRoundTrip(g: Bytes)
    requires 1 <= |g| <= 3
    ensures GroupBytes(GroupChars(g)) == g
  {
    var s := GroupChars(g);
    var b0, b1, b2 := g[0], OctetOr0(g, 1), OctetOr0(g, 2);
    GroupSextets(g);
    var d := GroupBytes(s);
    assert d[0] == b0 by {
      JoinFirst(b0, b1);
    }
    assert |g| > 1 ==> d[1] == b1 by {
      JoinSecond(b0, b1, b2);
    }
    assert |g| > 2 ==> d[2] == b2 by {
      JoinThird(b1, b2);
    }
  }

  /** Decoding the unpadded groups gives the octets back. */
  lemma {:induction false} DecodeUnpadded(b: Bytes)
    ensures |Unpadded(b)| % 4 != 1
    ensures DecodeGroups(Unpadded(b)) == b
    decreases |b|
  {
    UnpaddedNotOneMod4(b);
    if |b| <= 3 {
      DecodeShortUnpadded(b);
    } else {
      DecodeUnpadded(b[3..]);
      GroupRoundTrip(b[..3]);
      DecodeGroupsCons(GroupChars(b[..3]), Unpadded(b[3..]));
      assert b == b[..3] + b[3..];
    }
  }

  /** Up to three octets form one group and decode back. */
  lemma DecodeShortUnpadded(b: Bytes)
    requires |b| <= 3
    ensures |Unpadded(b)| % 4 != 1
    ensures DecodeGroups(Unpadded(b)) == b
  {
    if |b| > 0 {
      GroupRoundTrip(b);
      if |b| == 3 {
        DecodeGroupsCons(GroupChars(b), []);
        assert GroupChars(b) + [] == GroupChars(b);
      }
    }
  }

  /** No octet string has an unpadded encoding one longer than a multiple
      of four. */
  lemma UnpaddedNotOneMod4(b: Bytes)
    ensures |Unpadded(b)| % 4 != 1
  {
    UnpaddedHasLength(b);
    UnpaddedLengthNotOneMod4(|b|);
  }

  lemma {:induction false} UnpaddedLengthNotOneMod4(n: nat)
    ensures UnpaddedLength(n) % 4 != 1
  {
    if n > 3 {
      UnpaddedLengthNotOneMod4(n - 3);
      var l := UnpaddedLength(n - 3);
      assert (l + 4) % 4 == l % 4;
    }
  }

  /** A full group in front decodes on its own. */
  lemma DecodeGroupsCons(head: string, tail: string)
    requires |head| == 4 && AllAlphabet(head) && AllAlphabet(tail) && |tail| % 4 != 1
    ensures AllAlphabet(head + tail)
    ensures DecodeGroups(head + tail) == GroupBytes(head) + DecodeGroups(tail)
  {
    var s := head + tail;
    assert s[..4] == head && s[4..] == tail;
  }

  lemma {:induction false} RemoveNoWhitespace(s: string)
    requires AllAlphabet(s) || forall k :: 0 <= k < |s| ==> !IsAsciiWhitespace(s[k])
    ensures RemoveAsciiWhitespace(s) == s
  {
    if s != [] {
      RemoveNoWhitespace(s[1..]);
    }
  }

  /** Replacing a character that does not occur changes nothing. */
  lemma ReplaceAbsent(s: string, x: char, y: char)
    requires forall k :: 0 <= k < |s| ==> s[k] != x
    ensures Replace(s, x, y) == s
  {
  }

  /** The unpadded base64url text that `UrlEncode` produces. */
  function UrlChars(b: Bytes): string {
    Replace(Replace(Unpadded(b), '+', '-'), '/', '_')
  }

  /** Stripping the padding leaves exactly the unpadded groups with the
      alphabet swapped. */
  lemma UrlEncodeIsUrlChars(b: Bytes)
    ensures UrlEncode(b) == UrlChars(b)
  {
    var u := Unpadded(b);
    var p := Repeat('=', (3 - |b| % 3) % 3);
    var x := UrlChars(b);
    var e := Replace(Replace(Encode(b), '+', '-'), '/', '_');
    assert e == x + p;
    assert x == [] || x[|x| - 1] != '=';
    StripAppended(x, p);
  }

  lemma {:induction false} StripAppended(x: string, p: string)
    requires x == [] || x[|x| - 1] != '='
    requires forall k :: 0 <= k < |p| ==> p[k] == '='
    ensures StripTrailing(x + p, '=') == x
    decreases |p|
  {
    if p == [] {
      assert x + p == x;
    } else {
      assert (x + p)[..|x + p| - 1] == x + p[..|p| - 1];
      StripAppended(x, p[..|p| - 1]);
    }
  }

  /** `b64url_encode` / `bufferToBase64url` output uses only the
      base64url alphabet: no `+`, no `/` and no `=` padding. */
  lemma UrlEncodeAlphabet(b: Bytes)
    ensures forall k :: 0 <= k < |UrlEncode(b)| ==> IsUrlAlphabetChar(UrlEncode(b)[k])
    ensures forall k :: 0 <= k < |UrlEncode(b)| ==> UrlEncode(b)[k] !in {'+', '/', '='}
  {
    UrlEncodeIsUrlChars(b);
  }

  /** The encoding is unpadded: its length is the octet count times 4/3,
      rounded up. */
  lemma UrlEncodeLength(b: Bytes)
    ensures |UrlEncode(b)| == (4 * |b| + 2) / 3
  {
    UrlEncodeIsUrlChars(b);
    UnpaddedShape(b);
  }

  /** Mapping the URL alphabet back undoes `UrlChars`. */
  lemma UrlCharsBack(b: Bytes)
    ensures Replace(Replace(UrlChars(b), '-', '+'), '_', '/') == Unpadded(b)
  {
  }

  /** `atob` on unpadded groups completed with `PadCount` padding decodes
      the groups. */
  lemma DecodePadded(u: string)
    requires AllAlphabet(u) && |u| % 4 != 1
    ensures Decode(u + Repeat('=', PadCount(|u|))) == Some(DecodeGroups(u))
  {
    var d := u + Repeat('=', PadCount(|u|));
    RemoveNoWhitespace(d);
    TrimRestoredPadding(u);
  }

  lemma TrimRestoredPadding(u: string)
    requires AllAlphabet(u) && |u| % 4 != 1
    ensures TrimPadding(u + Repeat('=', PadCount(|u|))) == u
  {
    var p := PadCount(|u|);
    var d := u + Repeat('=', p);
    if p == 0 {
      assert d == u;
      assert |d| >= 1 ==> IsAlphabetChar(d[|d| - 1]);
    } else if p == 1 {
      assert d[|d| - 2] == u[|u| - 1];
      assert d[..|d| - 1] == u;
    } else {
      assert d[..|d| - 2] == u;
    }
  }

  /** Standard base64 round trip: `atob`'s decode of `btoa`'s padded
      encoding gives back every octet. */
  lemma EncodeRoundTrip(b: Bytes)
    ensures Decode(Encode(b)) == Some(b)
  {
    UnpaddedShape(b);
    DecodeUnpadded(b);
    DecodePadded(Unpadded(b));
    assert Encode(b) == Unpadded(b) + Repeat('=', PadCount(|Unpadded(b)|));
  }

  /** `base64urlToBuffer(bufferToBase64url(b))` is `b` for every octet
      sequence `b`: restoring `PadCount` characters undoes exactly the
      stripped padding. */
  lemma UrlRoundTrip(b: Bytes)
    ensures UrlDecode(UrlEncode(b)) == Some(b)
  {
    UrlEncodeIsUrlChars(b);
    UrlCharsBack(b);
    UnpaddedShape(b);
    DecodeUnpadded(b);
    DecodePadded(Unpadded(b));
  }
}
