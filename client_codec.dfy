/** The base64url helpers of the browser bundle: `u` turns an ArrayBuffer
    into a base64url string for the server, `w` turns the server's base64url
    strings back into an ArrayBuffer for navigator.credentials. Both go
    through the browser's btoa/atob, modelled in Base64. */
module ClientCodec {
  import opened Outcomes
  import opened Base64

  /** String.prototype.replace with a global one-character pattern. */
  function ReplaceAll(s: string, from: char, to: char): (r: string)
  {
    seq(|s|, i requires 0 <= i < |s| => if s[i] == from then to else s[i])
  }

  /** String.prototype.replace(/c/g, ""): every occurrence of c removed. */
  function RemoveAll(s: string, c: char): (r: string)
  {
    if s == [] then []
    else (if s[0] == c then [] else [s[0]]) + RemoveAll(s[1..], c)
  }

  /** The number of '=' that w appends: (4 - n % 4) % 4. */
  function PadCount(n: nat): (k: nat)
    ensures k <= 3 && (n + k) % 4 == 0
  {
    (4 - n % 4) % 4
  }

  /** String.prototype.padEnd(|s| + PadCount(|s|), "="). */
  function PadEnd(s: string): (r: string)
    ensures |s| <= |r| <= |s| + 3 && |r| % 4 == 0
    ensures r[..|s|] == s
    ensures forall i :: |s| <= i < |r| ==> r[i] == '='
  {
    s + seq(PadCount(|s|), _ => '=')
  }

  /** The padded standard-alphabet text w hands to atob. */
  function ToPaddedStandard(s: string): string
  {
    PadEnd(ReplaceAll(ReplaceAll(s, '-', '+'), '_', '/'))
  }

  /** u: copy the bytes into a binary string one String.fromCharCode at a
      time, btoa it, then rewrite '+' to '-', '/' to '_' and drop every '='.
      The result is the unpadded RFC 4648 section 5 encoding of the buffer,
      so it never holds '+', '/' or '='. */
  method ToBase64Url(buffer: seq<uint8>) returns (s: string)
    ensures s == UrlEncode(buffer)
    ensures forall i :: 0 <= i < |s| ==> s[i] != '+' && s[i] != '/' && s[i] != '='
  {
    var t := "";
    for i := 0 to |buffer|
      invariant t == BinaryString(buffer[..i])
    {
      t := t + [buffer[i] as char];
    }
    assert buffer[..|buffer|] == buffer;
    BinaryRoundTrip(buffer, t);
    s := RemoveAll(ReplaceAll(ReplaceAll(Btoa(t), '+', '-'), '/', '_'), '=');
    UrlFromStandard(buffer);
    EncodeDigits(UrlSafe, buffer);
  }

  /** w: rewrite '-' to '+' and '_' to '/', pad with '=' to a multiple of
      four, atob (which throws, here None, on text that is not base64), and
      copy the characters of the decoded binary string into a fresh
      Uint8Array one charCodeAt at a time. */
  method FromBase64Url(s: string) returns (r: Option<seq<uint8>>)
    ensures r == (match Atob(ToPaddedStandard(s))
                  case None => None
                  case Some(bin) => Some(BinaryBytes(bin)))
    ensures forall b :: s == UrlEncode(b) ==> r == Some(b)
  {
    var n := ReplaceAll(ReplaceAll(s, '-', '+'), '_', '/');
    var padded := PadEnd(n);
    var decoded := Atob(padded);
    if decoded.None? {
      r := None;
    } else {
      var text := decoded.value;
      var bytes := new uint8[|text|];
      for c := 0 to |text|
        invariant bytes[..c] == BinaryBytes(text[..c])
      {
        bytes[c] := text[c] as int;
      }
      assert bytes[..] == bytes[..|text|];
      assert text[..|text|] == text;
      r := Some(bytes[..]);
    }
    forall b | s == UrlEncode(b)
      ensures r == Some(b)
    {
      DecodeInvertsEncode(b);
    }
  }

  // ---------------------------------------------------------------------
  // Properties

  /** Translating a standard-alphabet spelling digit by digit gives the
      URL-safe spelling, and back. */
  lemma SwapAlphabets(vs: seq<sextet>)
    ensures ReplaceAll(ReplaceAll(Spell(Standard, vs), '+', '-'), '/', '_') == Spell(UrlSafe, vs)
    ensures ReplaceAll(ReplaceAll(Spell(UrlSafe, vs), '-', '+'), '_', '/') == Spell(Standard, vs)
  {
  }

  lemma ReplaceAllAppend(x: string, y: string, from: char, to: char)
    ensures ReplaceAll(x + y, from, to) == ReplaceAll(x, from, to) + ReplaceAll(y, from, to)
  {
  }

  lemma {:induction false} RemoveAllAppend(x: string, y: string, c: char)
    ensures RemoveAll(x + y, c) == RemoveAll(x, c) + RemoveAll(y, c)
  {
    if x == [] {
      assert x + y == y;
    } else {
      RemoveAllAppend(x[1..], y, c);
      assert (x + y)[0] == x[0];
      assert (x + y)[1..] == x[1..] + y;
    }
  }

  lemma {:induction false} RemoveAllAbsent(x: string, c: char)
    requires forall i :: 0 <= i < |x| ==> x[i] != c
    ensures RemoveAll(x, c) == x
  {
    if x != [] {
      RemoveAllAbsent(x[1..], c);
    }
  }

  /** u's rewriting of btoa's output is exactly the unpadded URL-safe
      encoding: btoa(b) with '+' to '-', '/' to '_' and '=' removed. */
  lemma UrlFromStandard(b: seq<uint8>)
    ensures RemoveAll(ReplaceAll(ReplaceAll(EncodePadded(Standard, b), '+', '-'), '/', '_'), '=')
            == UrlEncode(b)
  {
    var e := Encode(Standard, b);
    var p := Padding(|b|);
    ReplaceAllAppend(e, p, '+', '-');
    ReplaceAllAppend(ReplaceAll(e, '+', '-'), ReplaceAll(p, '+', '-'), '/', '_');
    assert ReplaceAll(ReplaceAll(p, '+', '-'), '/', '_') == p;
    SwapAlphabets(Sextets(b));
    RemoveAllAppend(UrlEncode(b), p, '=');
    EncodeDigits(UrlSafe, b);
    RemoveAllAbsent(UrlEncode(b), '=');
    assert RemoveAll(p, '=') == [] by {
      if |b| % 3 == 1 {
        assert p[1..] == "=";
        assert RemoveAll(p[1..], '=') == [] + RemoveAll([], '=');
      } else if |b| % 3 == 2 {
        assert RemoveAll(p, '=') == [] + RemoveAll([], '=');
      }
    }
  }

  /** w restores exactly the padding that u removed: an unpadded encoding of
      b, translated back to the standard alphabet and padded, is btoa(b). */
  lemma PadRestoresPadding(b: seq<uint8>)
    ensures ToPaddedStandard(UrlEncode(b)) == EncodePadded(Standard, b)
  {
    SwapAlphabets(Sextets(b));
    var n := Encode(Standard, b);
    PadCountOfEncoding(|b|, |n|);
    var pad := seq(PadCount(|n|), _ => '=');
    assert pad == Padding(|b|) by {
      if |b| % 3 == 1 {
        assert |pad| == 2;
      } else if |b| % 3 == 2 {
        assert |pad| == 1;
      }
    }
  }

  /** An encoding of k bytes has (4k + 2) / 3 digits, so w appends two '='
      when k % 3 == 1, one when k % 3 == 2 and none otherwise. */
  lemma PadCountOfEncoding(k: nat, n: nat)
    requires n == (4 * k + 2) / 3
    ensures PadCount(n) == |Padding(k)|
  {
  }

  /** Round trip: w(u(b)) == b for every byte sequence b. */
  lemma DecodeInvertsEncode(b: seq<uint8>)
    ensures Atob(ToPaddedStandard(UrlEncode(b))) == Some(BinaryString(b))
    ensures BinaryBytes(BinaryString(b)) == b
  {
    PadRestoresPadding(b);
    AtobOfPadded(b);
    BinaryRoundTrip(b, []);
  }
}
