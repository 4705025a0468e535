/** Base64 as RFC 4648 defines it, in the two alphabets the plugin uses:
    the standard one of section 4 (what the browser's btoa and atob speak)
    and the URL and filename safe one of section 5 (what the server's
    Base64UrlSafe and the client's helpers speak). Bytes are modelled as
    integers 0..255; a JavaScript "binary string" is a string whose
    characters are all below 256. */
module Base64 {
  import opened Outcomes

  type uint8 = x: int | 0 <= x < 256
  type sextet = x: int | 0 <= x < 64

  datatype Alphabet = Standard | UrlSafe

  /** The character that spells the 6-bit value v (RFC 4648, tables 1 and 2). */
  function Digit(a: Alphabet, v: sextet): char
  {
    if v < 26 then ('A' as int + v) as char
    else if v < 52 then ('a' as int + (v - 26)) as char
    else if v < 62 then ('0' as int + (v - 52)) as char
    else if v == 62 then (if a == Standard then '+' else '-')
    else (if a == Standard then '/' else '_')
  }

  /** The 6-bit value a character spells, or None if it is not in the alphabet. */
  function DigitValue(a: Alphabet, c: char): Option<sextet>
  {
    if 'A' <= c <= 'Z' then Some(c as int - 'A' as int)
    else if 'a' <= c <= 'z' then Some(c as int - 'a' as int + 26)
    else if '0' <= c <= '9' then Some(c as int - '0' as int + 52)
    else if c == (if a == Standard then '+' else '-') then Some(62)
    else if c == (if a == Standard then '/' else '_') then Some(63)
    else None
  }

  /** Each alphabet is a bijection between the 64 values and its 64 characters. */
  lemma DigitBijection(a: Alphabet, v: sextet, c: char)
    ensures DigitValue(a, Digit(a, v)) == Some(v)
    ensures DigitValue(a, c) == Some(v) ==> Digit(a, v) == c
  {
  }

  /** Neither alphabet contains the padding character '='; the URL-safe one
      contains neither '+' nor '/'. */
  lemma DigitIsNotSpecial(a: Alphabet, v: sextet)
    ensures Digit(a, v) != '='
    ensures a == UrlSafe ==> Digit(a, v) != '+' && Digit(a, v) != '/'
  {
  }

  /** The input cut into 6-bit groups, most significant bits first; a final
      group of one or two bytes is filled with zero bits (RFC 4648 section 4). */
  function Sextets(b: seq<uint8>): (r: seq<sextet>)
    ensures |r| == (4 * |b| + 2) / 3
    decreases |b|
  {
    if |b| == 0 then []
    else if |b| == 1 then [b[0] / 4, (b[0] % 4) * 16]
    else if |b| == 2 then [b[0] / 4, (b[0] % 4) * 16 + b[1] / 16, (b[1] % 16) * 4]
    else
      [b[0] / 4, (b[0] % 4) * 16 + b[1] / 16, (b[1] % 16) * 4 + b[2] / 64, b[2] % 64]
      + Sextets(b[3..])
  }

  /** Reassembles bytes from 6-bit groups; leftover bits of a final partial
      group are dropped. A single leftover group carries no whole byte. */
  function Octets(vs: seq<sextet>): (r: seq<uint8>)
    requires |vs| % 4 != 1
    ensures |r| == 3 * |vs| / 4
    decreases |vs|
  {
    if |vs| == 0 then []
    else
      var v0, v1 := vs[0] as int, vs[1] as int;
      if |vs| == 2 then [v0 * 4 + v1 / 16]
      else if |vs| == 3 then [v0 * 4 + v1 / 16, (v1 % 16) * 16 + vs[2] as int / 4]
      else
        var v2, v3 := vs[2] as int, vs[3] as int;
        [v0 * 4 + v1 / 16, (v1 % 16) * 16 + v2 / 4, (v2 % 4) * 64 + v3] + Octets(vs[4..])
  }

  /** Spelling a sequence of 6-bit values in an alphabet. */
  function Spell(a: Alphabet, vs: seq<sextet>): (s: string)
  {
    seq(|vs|, i requires 0 <= i < |vs| => Digit(a, vs[i]))
  }

  /** Reading a string as 6-bit values; None if some character is outside the alphabet. */
  function Values(a: Alphabet, s: string): (r: Option<seq<sextet>>)
  {
    if forall i :: 0 <= i < |s| ==> DigitValue(a, s[i]).Some? then
      Some(seq(|s|, i requires 0 <= i < |s| => DigitValue(a, s[i]).value))
    else
      None
  }

  /** Unpadded encoding in an alphabet. */
  function Encode(a: Alphabet, b: seq<uint8>): string
  {
    Spell(a, Sextets(b))
  }

  /** The '=' characters that complete the last quantum (RFC 4648 section 4). */
  function Padding(n: nat): string
  {
    if n % 3 == 1 then "==" else if n % 3 == 2 then "=" else ""
  }

  /** Padded encoding: the RFC 4648 section 4 form when a == Standard. */
  function EncodePadded(a: Alphabet, b: seq<uint8>): string
  {
    Encode(a, b) + Padding(|b|)
  }

  /** RFC 4648 section 5 without padding: Base64UrlSafe::encodeUnpadded. */
  function UrlEncode(b: seq<uint8>): string
  {
    Encode(UrlSafe, b)
  }

  /** Base64UrlSafe::decodeNoPadding: the empty string decodes to no bytes; a
      length that is a multiple of four ending in '=' is refused ("doesn't
      tolerate padding"); so is a length leaving remainder one, and any
      character outside the URL-safe alphabet. */
  function DecodeNoPadding(s: string): Option<seq<uint8>>
  {
    if |s| == 0 then Some([])
    else if |s| % 4 == 0 && s[|s| - 1] == '=' then None
    else if |s| % 4 == 1 then None
    else
      match Values(UrlSafe, s)
      case None => None
      case Some(vs) => Some(Octets(vs))
  }

  // ---------------------------------------------------------------------
  // Binary strings: bytes seen as the characters U+0000..U+00FF, as
  // String.fromCharCode, charCodeAt, btoa and atob see them.

  predicate IsBinaryString(s: string)
  {
    forall i :: 0 <= i < |s| ==> s[i] as int < 256
  }

  function BinaryString(b: seq<uint8>): (s: string)
    ensures |s| == |b| && IsBinaryString(s)
  {
    seq(|b|, i requires 0 <= i < |b| => b[i] as char)
  }

  function BinaryBytes(s: string): (b: seq<uint8>)
    requires IsBinaryString(s)
  {
    seq(|s|, i requires 0 <= i < |s| => s[i] as int)
  }

  /** Reading bytes back from their binary string gives the bytes, and
      conversely. */
  lemma BinaryRoundTrip(b: seq<uint8>, s: string)
    ensures BinaryBytes(BinaryString(b)) == b
    ensures IsBinaryString(s) ==> BinaryString(BinaryBytes(s)) == s
  {
  }

  /** window.btoa on a binary string (it throws on any other string). */
  function Btoa(s: string): string
    requires IsBinaryString(s)
  {
    EncodePadded(Standard, BinaryBytes(s))
  }

  predicate IsAsciiWhitespace(c: char)
  {
    c == '\t' || c == '\n' || c == '\U{000C}' || c == '\r' || c == ' '
  }

  function StripWhitespace(s: string): (r: string)
    ensures |r| <= |s|
  {
    if s == [] then []
    else (if IsAsciiWhitespace(s[0]) then [] else [s[0]]) + StripWhitespace(s[1..])
  }

  /** The input with one or two trailing '=' removed when its length is a
      multiple of four. */
  function StripFinalPadding(d: string): string
  {
    if |d| % 4 == 0 && |d| >= 2 && d[|d| - 1] == '=' && d[|d| - 2] == '=' then d[..|d| - 2]
    else if |d| % 4 == 0 && |d| >= 1 && d[|d| - 1] == '=' then d[..|d| - 1]
    else d
  }

  /** window.atob: the forgiving-base64 decode of the WHATWG Infra standard.
      ASCII whitespace is removed; a length that is a multiple of four sheds
      one or two final '='; a remaining length with remainder one, or a
      character outside the standard alphabet, is a failure (atob throws);
      otherwise the bytes are returned as a binary string. */
  function Atob(s: string): (r: Option<string>)
    ensures r.Some? ==> IsBinaryString(r.value)
  {
    var d := StripFinalPadding(StripWhitespace(s));
    if |d| % 4 == 1 then None
    else
      match Values(Standard, d)
      case None => None
      case Some(vs) => Some(BinaryString(Octets(vs)))
  }

  // ---------------------------------------------------------------------
  // Properties

  /** Decoding the 6-bit groups of b gives back b, and no byte string has a
      number of groups leaving remainder one modulo four. */
  lemma {:induction false} OctetsOfSextets(b: seq<uint8>)
    ensures |Sextets(b)| % 4 != 1
    ensures Octets(Sextets(b)) == b
    decreases |b|
  {
    if |b| >= 3 {
      OctetsOfSextets(b[3..]);
      var vs := Sextets(b);
      assert vs[4..] == Sextets(b[3..]);
      BlockRoundTrip(b[0], b[1], b[2]);
      assert b == [b[0], b[1], b[2]] + b[3..];
    } else if |b| == 2 {
      BlockRoundTrip(b[0], b[1], 0);
    } else if |b| == 1 {
      BlockRoundTrip(b[0], 0, 0);
    }
  }

  lemma BlockRoundTrip(x: uint8, y: uint8, z: uint8)
    ensures (x / 4) * 4 + ((x % 4) * 16 + y / 16) / 16 == x
    ensures (((x % 4) * 16 + y / 16) % 16) * 16 + ((y % 16) * 4 + z / 64) / 4 == y
    ensures (((y % 16) * 4 + z / 64) % 4) * 64 + z % 64 == z
  {
  }

  /** Reading back what was spelled in the same alphabet gives the values. */
  lemma ValuesOfSpell(a: Alphabet, vs: seq<sextet>)
    ensures Values(a, Spell(a, vs)) == Some(vs)
  {
    var s := Spell(a, vs);
    forall i | 0 <= i < |s|
      ensures DigitValue(a, s[i]) == Some(vs[i])
    {
      DigitBijection(a, vs[i], s[i]);
    }
    var read := seq(|s|, i requires 0 <= i < |s| => DigitValue(a, s[i]).value);
    assert read == vs;
  }

  /** Every character of an encoding belongs to the alphabet: none is '=',
      and a URL-safe encoding has no '+' or '/'. */
  lemma EncodeDigits(a: Alphabet, b: seq<uint8>)
    ensures forall i :: 0 <= i < |Encode(a, b)| ==>
      Encode(a, b)[i] != '=' && (a == UrlSafe ==> Encode(a, b)[i] != '+' && Encode(a, b)[i] != '/')
  {
    var vs := Sextets(b);
    forall i | 0 <= i < |vs|
      ensures Spell(a, vs)[i] != '=' && (a == UrlSafe ==> Spell(a, vs)[i] != '+' && Spell(a, vs)[i] != '/')
    {
      DigitIsNotSpecial(a, vs[i]);
    }
  }

  /** Base64UrlSafe round trip: decodeNoPadding(encodeUnpadded(b)) == b. */
  lemma DecodeNoPaddingOfUrlEncode(b: seq<uint8>)
    ensures DecodeNoPadding(UrlEncode(b)) == Some(b)
  {
    var s := UrlEncode(b);
    OctetsOfSextets(b);
    ValuesOfSpell(UrlSafe, Sextets(b));
    EncodeDigits(UrlSafe, b);
    if |s| > 0 {
      assert s[|s| - 1] != '=';
    }
  }

  /** The unpadded encoding is injective, so two credentials with different
      ids never share a storage key. */
  lemma UrlEncodeInjective(b1: seq<uint8>, b2: seq<uint8>)
    requires UrlEncode(b1) == UrlEncode(b2)
    ensures b1 == b2
  {
    DecodeNoPaddingOfUrlEncode(b1);
    DecodeNoPaddingOfUrlEncode(b2);
  }

  /** An encoding of a non-empty input is strictly longer than the input, and
      no encoding has a length leaving remainder one modulo four. */
  lemma UrlEncodeLength(b: seq<uint8>)
    ensures |UrlEncode(b)| % 4 != 1
    ensures |b| > 0 ==> |UrlEncode(b)| > |b|
  {
    OctetsOfSextets(b);
  }

  /** atob inverts btoa: decoding the padded standard encoding of b gives b. */
  lemma AtobOfPadded(b: seq<uint8>)
    ensures Atob(EncodePadded(Standard, b)) == Some(BinaryString(b))
  {
    var e := Encode(Standard, b);
    var p := EncodePadded(Standard, b);
    OctetsOfSextets(b);
    ValuesOfSpell(Standard, Sextets(b));
    EncodeDigits(Standard, b);
    NoWhitespaceInEncoding(b);
    assert StripWhitespace(p) == p;
    PaddedLength(b);
    assert StripFinalPadding(p) == e by {
      if |b| % 3 == 1 {
        assert p[..|p| - 2] == e;
      } else if |b| % 3 == 2 {
        assert p[..|p| - 1] == e;
        assert |e| >= 2 && p[|p| - 2] == e[|e| - 1];
      } else if |e| > 0 {
        assert p[|p| - 1] == e[|e| - 1];
      }
    }
  }

  lemma PaddedLength(b: seq<uint8>)
    ensures |EncodePadded(Standard, b)| % 4 == 0
  {
  }

  /** The padded standard encoding contains no ASCII whitespace. */
  lemma NoWhitespaceInEncoding(b: seq<uint8>)
    ensures StripWhitespace(EncodePadded(Standard, b)) == EncodePadded(Standard, b)
  {
    var p := EncodePadded(Standard, b);
    EncodeDigits(Standard, b);
    forall i | 0 <= i < |p|
      ensures !IsAsciiWhitespace(p[i])
    {
      if i < |Encode(Standard, b)| {
        var vs := Sextets(b);
        assert p[i] == Digit(Standard, vs[i]);
      }
    }
    StripWhitespaceKeeps(p);
  }

  lemma {:induction false} StripWhitespaceKeeps(s: string)
    requires forall i :: 0 <= i < |s| ==> !IsAsciiWhitespace(s[i])
    ensures StripWhitespace(s) == s
  {
    if s != [] {
      StripWhitespaceKeeps(s[1..]);
    }
  }
}
