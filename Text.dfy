/** Python string behaviour the assistant relies on: `str.isspace()` on the ASCII
    range, `str.strip()` with no argument, and the code-point order that `<` and
    `sorted` use on `str`. */
module Text {

  /** The ASCII characters Python's `str.isspace()` accepts: tab, line feed,
      vertical tab, form feed, carriage return, the four separators 0x1C-0x1F
      and the space. */
  predicate IsSpace(c: char) {
    c == ' ' || ('\t' <= c <= '\r') || ('\U{1C}' <= c <= '\U{1F}')
  }

  predicate AllSpace(s: string) {
    forall k :: 0 <= k < |s| ==> IsSpace(s[k])
  }

  /** `s.rstrip()`: `s` without its trailing whitespace. */
  function TrimEnd(s: string): (r: string)
    ensures |r| <= |s|
  {
    if s != [] && IsSpace(s[|s| - 1]) then TrimEnd(s[..|s| - 1]) else s
  }

  /** `s.rstrip()` is the prefix of `s` before its trailing whitespace, and
      it does not end with whitespace. */
  lemma {:induction false} TrimEndShape(s: string)
    ensures TrimEnd(s) == s[..|TrimEnd(s)|]
    ensures TrimEnd(s) == [] || !IsSpace(TrimEnd(s)[|TrimEnd(s)| - 1])
    ensures AllSpace(s[|TrimEnd(s)|..])
  {
    if s != [] && IsSpace(s[|s| - 1]) {
      var t := s[..|s| - 1];
      TrimEndShape(t);
      var r := TrimEnd(t);
      assert TrimEnd(s) == r;
      assert s[..|r|] == t[..|r|];
      assert s[|r|..] == t[|r|..] + [s[|s| - 1]];
    }
  }

  /** `s.strip()`: drop the leading whitespace, then the trailing whitespace.
      The result is empty exactly when `s` is all whitespace, and otherwise
      neither starts nor ends with whitespace. */
  function Strip(s: string): (r: string)
    ensures |r| <= |s|
    ensures r == [] <==> AllSpace(s)
    ensures r == [] || (!IsSpace(r[0]) && !IsSpace(r[|r| - 1]))
  {
    if s != [] && IsSpace(s[0]) then
      assert AllSpace(s) <==> AllSpace(s[1..]) by {
        assert forall k :: 0 < k < |s| ==> s[k] == s[1..][k - 1];
      }
      Strip(s[1..])
    else
      TrimEndShape(s);
      var r := TrimEnd(s);
      assert r != [] ==> r[|r| - 1] == s[|r| - 1] && r[0] == s[0];
      assert r == [] ==> s[|r|..] == s;
      r
  }

  /** Stripping only removes characters: every character of `s.strip()` is
      one of `s`. */
  lemma {:induction false} StripKeepsCharacters(s: string)
    ensures forall k :: 0 <= k < |Strip(s)| ==> Strip(s)[k] in s
  {
    if s != [] && IsSpace(s[0]) {
      StripKeepsCharacters(s[1..]);
      assert forall c :: c in s[1..] ==> c in s;
    } else {
      TrimEndShape(s);
      var r := TrimEnd(s);
      assert forall k :: 0 <= k < |r| ==> r[k] == s[k];
    }
  }

  /** `r` is `s[a..b]`, with only whitespace before and after it in `s`. */
  predicate Segment(s: string, r: string, a: int, b: int) {
    0 <= a <= b <= |s| && r == s[a..b] && AllSpace(s[..a]) && AllSpace(s[b..])
  }

  /** A segment of `s[1..]` is one of `s` when `s` starts with whitespace. */
  lemma SegmentAfterSpace(s: string, r: string, a: int, b: int)
    requires s != [] && IsSpace(s[0]) && Segment(s[1..], r, a, b)
    ensures Segment(s, r, a + 1, b + 1)
  {
    var t := s[1..];
    assert r == s[a + 1..b + 1];
    var lead := s[..a + 1];
    assert lead == [s[0]] + t[..a];
    assert AllSpace(lead) by {
      forall k | 0 < k < |lead| ensures IsSpace(lead[k]) {
        assert lead[k] == t[..a][k - 1];
      }
    }
    assert s[b + 1..] == t[b..];
  }

  /** `s.strip()` is `s` with its leading and its trailing whitespace cut
      off: a segment `s[a..b]` with only whitespace before and after it. */
  lemma {:induction false} StripIsSegment(s: string)
    ensures exists a, b :: Segment(s, Strip(s), a, b)
  {
    if s != [] && IsSpace(s[0]) {
      StripIsSegment(s[1..]);
      var a, b :| Segment(s[1..], Strip(s[1..]), a, b);
      SegmentAfterSpace(s, Strip(s[1..]), a, b);
      assert Segment(s, Strip(s), a + 1, b + 1);
    } else {
      TrimEndShape(s);
      var b := |TrimEnd(s)|;
      assert Strip(s) == s[0..b];
      assert Segment(s, Strip(s), 0, b);
    }
  }

  /** A string with a non-space first and last character is its own strip. */
  lemma StripOfTrimmed(s: string)
    requires s != [] ==> !IsSpace(s[0]) && !IsSpace(s[|s| - 1])
    ensures Strip(s) == s
  {
  }

  /** Stripping a stripped string changes nothing. */
  lemma StripIdempotent(s: string)
    ensures Strip(Strip(s)) == Strip(s)
  {
    StripOfTrimmed(Strip(s));
  }

  /** Python's `a <= b` on `str`: lexicographic order on code points. */
  predicate StrLe(a: string, b: string)
  {
    a == [] || (b != [] && (a[0] < b[0] || (a[0] == b[0] && StrLe(a[1..], b[1..]))))
  }

  lemma {:induction false} StrLeTotal(a: string, b: string)
    ensures StrLe(a, b) || StrLe(b, a)
  {
    if a != [] && b != [] && a[0] == b[0] {
      StrLeTotal(a[1..], b[1..]);
    }
  }

  lemma {:induction false} StrLeTransitive(a: string, b: string, c: string)
    requires StrLe(a, b) && StrLe(b, c)
    ensures StrLe(a, c)
  {
    if a != [] && b != [] && c != [] && a[0] == b[0] && b[0] == c[0] {
      StrLeTransitive(a[1..], b[1..], c[1..]);
    }
  }

  lemma {:induction false} StrLeReflexive(a: string)
    ensures StrLe(a, a)
  {
    if a != [] {
      StrLeReflexive(a[1..]);
    }
  }
}
