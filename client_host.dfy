/** The bundle's host-name check `A`, used to tell an invalid domain from a
    mismatched relying-party id when the browser reports a SecurityError:
      h === "localhost" || /^([a-z0-9]+(-[a-z0-9]+)*\.)+[a-z]{2,}$/i.test(h)
    The regular expression is modelled by predicates that follow its
    structure (with the backtracking choice of where the final letters
    begin), and is proved equal to a character-level description. The `i`
    flag makes [a-z] match upper-case ASCII letters too, and nothing else. */
module HostName {

  predicate IsAsciiLetter(c: char)
  {
    'a' <= c <= 'z' || 'A' <= c <= 'Z'
  }

  /** [a-z0-9] under the i flag. */
  predicate IsAsciiAlnum(c: char)
  {
    IsAsciiLetter(c) || '0' <= c <= '9'
  }

  /** [a-z0-9]+(-[a-z0-9]+)*: runs of letters and digits joined by single hyphens. */
  predicate IsLabel(s: string)
    decreases |s|
  {
    |s| > 0 && IsAsciiAlnum(s[0]) &&
    (|s| == 1 || if s[1] == '-' then |s| > 2 && IsLabel(s[2..]) else IsLabel(s[1..]))
  }

  /** ([a-z0-9]+(-[a-z0-9]+)*\.)+: one or more labels, each followed by a dot. */
  predicate IsDottedLabels(s: string)
    decreases |s|
  {
    exists j | 0 < j < |s| ::
      s[j] == '.' && IsLabel(s[..j]) && (j == |s| - 1 || IsDottedLabels(s[j + 1..]))
  }

  /** [a-z]{2,}$: two or more letters up to the end. */
  predicate IsTopLevel(s: string)
  {
    |s| >= 2 && forall i :: 0 <= i < |s| ==> IsAsciiLetter(s[i])
  }

  /** The regular expression's test: some split of h into dotted labels and
      a final run of letters. */
  predicate MatchesHostPattern(h: string)
  {
    exists i | 0 < i < |h| :: IsDottedLabels(h[..i]) && IsTopLevel(h[i..])
  }

  /** A(h). */
  predicate IsValidDomain(h: string)
  {
    h == "localhost" || MatchesHostPattern(h)
  }

  // ---------------------------------------------------------------------
  // Character-level description

  predicate IsSeparator(c: char)
  {
    c == '-' || c == '.'
  }

  /** Only letters, digits, '-' and '.', and every '-' or '.' directly after
      a letter or digit (so none leads and no two are adjacent). */
  ghost predicate FlankedSeparators(s: string)
  {
    forall i {:trigger s[i]} :: 0 <= i < |s| ==>
      (IsAsciiAlnum(s[i]) || IsSeparator(s[i])) &&
      (IsSeparator(s[i]) ==> 0 < i && IsAsciiAlnum(s[i - 1]))
  }

  /** What IsLabel accepts: a non-empty run of letters, digits and flanked
      hyphens that ends in a letter or digit. */
  ghost predicate LabelShape(s: string)
  {
    |s| > 0 && FlankedSeparators(s) && IsAsciiAlnum(s[|s| - 1]) &&
    forall i :: 0 <= i < |s| ==> s[i] != '.'
  }

  /** What IsDottedLabels accepts: flanked separators, ending in '.'. */
  ghost predicate DottedShape(s: string)
  {
    |s| > 0 && s[|s| - 1] == '.' && FlankedSeparators(s)
  }

  /** The reference description of A: "localhost", or a '.' followed by two
      or more letters up to the end, preceded only by letters, digits and
      separators each of which directly follows a letter or digit. */
  ghost predicate HostShape(h: string)
  {
    h == "localhost" ||
    exists k :: 0 < k < |h| && h[k] == '.' && IsTopLevel(h[k + 1..]) && FlankedSeparators(h[..k + 1])
  }

  // ---------------------------------------------------------------------
  // Properties

  lemma {:induction false} LabelIff(s: string)
    ensures IsLabel(s) <==> LabelShape(s)
    decreases |s|
  {
    if |s| >= 2 && IsAsciiAlnum(s[0]) {
      var k := if s[1] == '-' then 2 else 1;
      if k < |s| {
        var t := s[k..];
        LabelIff(t);
        FlankedSuffix(s, k);
        assert s[|s| - 1] == t[|t| - 1];
        if forall i :: 0 <= i < |t| ==> t[i] != '.' {
          forall i | 0 <= i < |s|
            ensures s[i] != '.'
          {
            if i >= k {
              assert s[i] == t[i - k];
            }
          }
        }
      }
    }
  }

  /** For s starting with a letter or digit, whose only character before
      position k is a hyphen at 1 when k == 2: s has flanked separators and
      no separator at k exactly when s[k..] has flanked separators. */
  lemma FlankedSuffix(s: string, k: nat)
    requires 0 < k < |s| && IsAsciiAlnum(s[0])
    requires k == 1 || (k == 2 && s[1] == '-')
    ensures FlankedSeparators(s) && !IsSeparator(s[k]) <==> FlankedSeparators(s[k..])
    ensures k == 2 && FlankedSeparators(s) ==> !IsSeparator(s[k])
  {
    var t := s[k..];
    if FlankedSeparators(t) {
      FlankedAt(t, 0);
      forall i | 0 <= i < |s|
        ensures (IsAsciiAlnum(s[i]) || IsSeparator(s[i])) &&
                (IsSeparator(s[i]) ==> 0 < i && IsAsciiAlnum(s[i - 1]))
      {
        if i >= k {
          assert s[i] == t[i - k];
          if i > k {
            assert s[i - 1] == t[i - k - 1];
          }
        }
      }
    }
    if FlankedSeparators(s) && !IsSeparator(s[k]) {
      forall i | 0 <= i < |t|
        ensures (IsAsciiAlnum(t[i]) || IsSeparator(t[i])) &&
                (IsSeparator(t[i]) ==> 0 < i && IsAsciiAlnum(t[i - 1]))
      {
        assert t[i] == s[i + k];
        if i > 0 {
          assert t[i - 1] == s[i + k - 1];
        }
      }
    }
    if FlankedSeparators(s) {
      FlankedAt(s, k);
    }
  }

  lemma FlankedAt(s: string, i: nat)
    requires FlankedSeparators(s) && i < |s|
    ensures IsAsciiAlnum(s[i]) || IsSeparator(s[i])
    ensures IsSeparator(s[i]) ==> 0 < i && IsAsciiAlnum(s[i - 1])
  {
  }

  /** The position of the first '.' in s. */
  function FirstDot(s: string): (j: nat)
    requires '.' in s
    ensures j < |s| && s[j] == '.'
    ensures forall i :: 0 <= i < j ==> s[i] != '.'
  {
    if s[0] == '.' then 0 else FirstDot(s[1..]) + 1
  }

  /** The repeated group of the regular expression accepts exactly the
      strings that end in '.' and whose separators are all flanked. */
  lemma DottedIff(s: string)
    ensures IsDottedLabels(s) <==> DottedShape(s)
  {
    if IsDottedLabels(s) {
      DottedSound(s);
    }
    if DottedShape(s) {
      DottedComplete(s);
    }
  }

  lemma {:induction false} DottedSound(s: string)
    requires IsDottedLabels(s)
    ensures DottedShape(s)
    decreases |s|
  {
    var j :| 0 < j < |s| && s[j] == '.' && IsLabel(s[..j]) &&
             (j == |s| - 1 || IsDottedLabels(s[j + 1..]));
    var l := s[..j];
    LabelIff(l);
    if j < |s| - 1 {
      DottedSound(s[j + 1..]);
      FlankedAt(s[j + 1..], 0);
    }
    forall i | 0 <= i < |s|
      ensures (IsAsciiAlnum(s[i]) || IsSeparator(s[i])) &&
              (IsSeparator(s[i]) ==> 0 < i && IsAsciiAlnum(s[i - 1]))
    {
      if i < j {
        FlankedAt(l, i);
        assert s[i] == l[i];
        if 0 < i {
          assert s[i - 1] == l[i - 1];
        }
      } else if i == j {
        assert s[i - 1] == l[j - 1];
      } else {
        var r := s[j + 1..];
        FlankedAt(r, i - j - 1);
        assert s[i] == r[i - j - 1];
        if i > j + 1 {
          assert s[i - 1] == r[i - j - 2];
        }
      }
    }
  }

  lemma {:induction false} DottedComplete(s: string)
    requires DottedShape(s)
    ensures IsDottedLabels(s)
    decreases |s|
  {
    var j := FirstDot(s);
    var l := s[..j];
    FlankedAt(s, j);
    forall i | 0 <= i < |l|
      ensures (IsAsciiAlnum(l[i]) || IsSeparator(l[i])) &&
              (IsSeparator(l[i]) ==> 0 < i && IsAsciiAlnum(l[i - 1]))
    {
      FlankedAt(s, i);
    }
    LabelIff(l);
    if j < |s| - 1 {
      var r := s[j + 1..];
      FlankedAt(s, j + 1);
      forall i | 0 <= i < |r|
        ensures (IsAsciiAlnum(r[i]) || IsSeparator(r[i])) &&
                (IsSeparator(r[i]) ==> 0 < i && IsAsciiAlnum(r[i - 1]))
      {
        FlankedAt(s, i + j + 1);
      }
      assert r[|r| - 1] == s[|s| - 1];
      DottedComplete(r);
    }
  }

  /** A(h) holds exactly for "localhost" and for the host names that end in
      a '.' and two or more letters, with only letters, digits, and flanked
      '-' and '.' before. */
  lemma HostIff(h: string)
    ensures IsValidDomain(h) <==> HostShape(h)
  {
    if MatchesHostPattern(h) {
      var i :| 0 < i < |h| && IsDottedLabels(h[..i]) && IsTopLevel(h[i..]);
      DottedIff(h[..i]);
      assert h[..i][i - 1] == h[i - 1];
      assert h[..i - 1 + 1] == h[..i];
    }
    if h != "localhost" && HostShape(h) {
      var k :| 0 < k < |h| && h[k] == '.' && IsTopLevel(h[k + 1..]) && FlankedSeparators(h[..k + 1]);
      DottedIff(h[..k + 1]);
      assert h[..k + 1][k] == '.';
      assert IsDottedLabels(h[..k + 1]) && IsTopLevel(h[k + 1..]);
    }
  }

  // ---------------------------------------------------------------------
  // Examples

  lemma ExampleComIsValid()
    ensures IsValidDomain("example.com")
  {
    var h := "example.com";
    assert h[7] == '.' && h[8..] == "com";
    assert IsTopLevel(h[8..]);
    assert FlankedSeparators(h[..8]);
    HostIff(h);
  }

  /** An IPv4 address is not a valid domain: its last label is digits. */
  lemma Ipv4IsInvalid()
    ensures !IsValidDomain("127.0.0.1")
  {
    var h := "127.0.0.1";
    forall k | 0 <= k < |h| - 1 && h[k] == '.'
      ensures !IsTopLevel(h[k + 1..])
    {
      var t := h[k + 1..];
      assert t[|t| - 1] == '1';
    }
    HostIff(h);
  }

  /** A punycode label (two adjacent hyphens) is rejected. */
  lemma PunycodeIsInvalid()
    ensures !IsValidDomain("xn--p1ai.ru")
  {
    var h := "xn--p1ai.ru";
    HostIff(h);
    if HostShape(h) {
      var k :| 0 < k < |h| && h[k] == '.' && IsTopLevel(h[k + 1..]) && FlankedSeparators(h[..k + 1]);
      FlankedAt(h[..k + 1], 3);
      assert false;
    }
  }

  /** A leading hyphen is rejected. */
  lemma LeadingHyphenIsInvalid()
    ensures !IsValidDomain("-a.com")
  {
    var h := "-a.com";
    HostIff(h);
    if HostShape(h) {
      var k :| 0 < k < |h| && h[k] == '.' && IsTopLevel(h[k + 1..]) && FlankedSeparators(h[..k + 1]);
      FlankedAt(h[..k + 1], 0);
      assert false;
    }
  }
}
