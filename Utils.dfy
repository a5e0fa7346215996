/** The helpers of utils.py: the notification-delay parser, search over a
    transcript with neighbouring context, history truncation, session-name
    validation and filename sanitising. */
module Utils {
  import opened Text
  import opened Results
  import opened Models

  // ---------------------------------------------------------------------------
  // parse_notification_time: the first match of  (\d+)\s*(분|초|시간)\s*뒤
  // ---------------------------------------------------------------------------

  predicate IsDigit(c: char) { '0' <= c <= '9' }

  predicate AllDigits(s: string) {
    forall k :: 0 <= k < |s| ==> IsDigit(s[k])
  }

  /** The three time units the pattern accepts. */
  datatype TimeUnit = Seconds | Minutes | Hours {
    /** The unit's word in the text. */
    function Word(): string {
      match this
      case Seconds => "초"
      case Minutes => "분"
      case Hours => "시간"
    }

    /** How many seconds one of this unit is. */
    function InSeconds(): nat {
      match this
      case Seconds => 1
      case Minutes => 60
      case Hours => 3600
    }
  }

  /** The character that must close a match: "뒤" ("later"). */
  const After: char := '뒤'

  /** `int(d)` for a run of ASCII digits. */
  function DecimalValue(d: string): (v: nat)
    requires AllDigits(d)
    ensures d != [] ==> v % 10 == d[|d| - 1] as int - '0' as int
    ensures d == [] ==> v == 0
  {
    if d == [] then 0 else DecimalValue(d[..|d| - 1]) * 10 + (d[|d| - 1] as int - '0' as int)
  }

  /** The end of the maximal run of digits that starts at `p`. */
  function DigitRunEnd(s: string, p: nat): (q: nat)
    requires p <= |s|
    ensures p <= q <= |s|
    ensures forall k :: p <= k < q ==> IsDigit(s[k])
    ensures q == |s| || !IsDigit(s[q])
    decreases |s| - p
  {
    if p < |s| && IsDigit(s[p]) then DigitRunEnd(s, p + 1) else p
  }

  /** The end of the maximal run of whitespace that starts at `p`. */
  function SpaceRunEnd(s: string, p: nat): (q: nat)
    requires p <= |s|
    ensures p <= q <= |s|
    ensures AllSpace(s[p..q])
    ensures q == |s| || !IsSpace(s[q])
    decreases |s| - p
  {
    if p < |s| && IsSpace(s[p]) then SpaceRunEnd(s, p + 1) else p
  }

  /** The unit whose word starts at `p`, if any. */
  function UnitAt(s: string, p: nat): (u: Option<TimeUnit>)
    requires p <= |s|
    ensures u.Some? ==> p + |u.value.Word()| <= |s| && s[p..p + |u.value.Word()|] == u.value.Word()
  {
    if p < |s| && s[p] == '분' then Some(Minutes)
    else if p < |s| && s[p] == '초' then Some(Seconds)
    else if p + 1 < |s| && s[p] == '시' && s[p + 1] == '간' then Some(Hours)
    else None
  }

  /** The delay, in seconds, of a match of the pattern that starts at `p`;
      `None` when no match starts there. */
  function MatchAt(s: string, p: nat): (m: Option<nat>)
    requires p <= |s|
  {
    var i := DigitRunEnd(s, p);
    if i == p then None
    else
      var j := SpaceRunEnd(s, i);
      match UnitAt(s, j)
      case None => None
      case Some(u) =>
        var l := SpaceRunEnd(s, j + |u.Word()|);
        if l < |s| && s[l] == After then Some(DecimalValue(s[p..i]) * u.InSeconds()) else None
  }

  /** The pattern read as a regular expression: digits `s[p..i]`, whitespace
      `s[i..j]`, the unit's word at `j`, whitespace up to `l`, then "뒤" at `l`. */
  ghost predicate IsMatch(s: string, p: nat, i: nat, j: nat, u: TimeUnit, l: nat)
  {
    && p < i <= j && j + |u.Word()| <= l < |s|
    && AllDigits(s[p..i])
    && AllSpace(s[i..j])
    && s[j..j + |u.Word()|] == u.Word()
    && AllSpace(s[j + |u.Word()|..l])
    && s[l] == After
  }

  /** Every delay `MatchAt` reports comes from a match of the pattern at `p`,
      converted with that match's digits and unit. */
  lemma MatchAtSound(s: string, p: nat)
    requires p <= |s| && MatchAt(s, p).Some?
    ensures exists i: nat, j: nat, u, l: nat :: IsMatch(s, p, i, j, u, l)
              && AllDigits(s[p..i]) && MatchAt(s, p).value == DecimalValue(s[p..i]) * u.InSeconds()
  {
    var i := DigitRunEnd(s, p);
    var j := SpaceRunEnd(s, i);
    var u := UnitAt(s, j).value;
    var l := SpaceRunEnd(s, j + |u.Word()|);
    assert AllDigits(s[p..i]);
    assert IsMatch(s, p, i, j, u, l);
  }

  /** A digit run that stops before a non-digit is the maximal one. */
  lemma {:induction false} DigitRunEndAt(s: string, p: nat, i: nat)
    requires p <= i < |s| && AllDigits(s[p..i]) && !IsDigit(s[i])
    ensures DigitRunEnd(s, p) == i
    decreases i - p
  {
    if p < i {
      assert IsDigit(s[p..i][0]);
      assert s[p + 1..i] == s[p..i][1..];
      DigitRunEndAt(s, p + 1, i);
    }
  }

  /** A whitespace run that stops before a non-space is the maximal one. */
  lemma {:induction false} SpaceRunEndAt(s: string, p: nat, i: nat)
    requires p <= i < |s| && AllSpace(s[p..i]) && !IsSpace(s[i])
    ensures SpaceRunEnd(s, p) == i
    decreases i - p
  {
    if p < i {
      assert IsSpace(s[p..i][0]);
      assert s[p + 1..i] == s[p..i][1..];
      SpaceRunEndAt(s, p + 1, i);
    }
  }

  /** Every match of the pattern at `p` is the one `MatchAt` finds: the digit
      run and the whitespace runs are maximal there, and the unit is decided
      by its first character. */
  lemma MatchAtComplete(s: string, p: nat, i: nat, j: nat, u: TimeUnit, l: nat)
    requires IsMatch(s, p, i, j, u, l)
    ensures MatchAt(s, p) == Some(DecimalValue(s[p..i]) * u.InSeconds())
  {
    var w := u.Word();
    assert s[j] == w[0];
    assert !IsDigit(s[i]) by {
      if i < j { assert s[i] == s[i..j][0]; }
    }
    DigitRunEndAt(s, p, i);
    SpaceRunEndAt(s, i, j);
    assert UnitAt(s, j) == Some(u) by {
      if u == Hours { assert s[j + 1] == w[1]; }
    }
    SpaceRunEndAt(s, j + |w|, l);
  }

  /** The leftmost match at or after `p`. */
  function FirstMatch(s: string, p: nat): (r: Option<nat>)
    requires p <= |s|
    ensures r.None? <==> forall q :: p <= q <= |s| ==> MatchAt(s, q).None?
    ensures r.Some? ==> exists q :: p <= q <= |s| && MatchAt(s, q) == r
                          && forall q' :: p <= q' < q ==> MatchAt(s, q').None?
    decreases |s| - p
  {
    if p == |s| then MatchAt(s, p)
    else if MatchAt(s, p).Some? then MatchAt(s, p)
    else FirstMatch(s, p + 1)
  }

  /** `parse_notification_time`: the delay in seconds of the leftmost match of
      the pattern in `text`, or `None` when nothing in `text` matches. */
  function ParseNotificationTime(text: string): (r: Option<nat>)
    ensures r.None? <==> forall p :: 0 <= p <= |text| ==> MatchAt(text, p).None?
    ensures r.Some? ==> exists p :: 0 <= p <= |text| && MatchAt(text, p) == r
                          && forall q :: 0 <= q < p ==> MatchAt(text, q).None?
  {
    FirstMatch(text, 0)
  }

  /** "3분 뒤 알려줘" ("remind me in 3 minutes") asks for 180 seconds. */
  lemma ParseMinutesExample()
    ensures ParseNotificationTime("3분 뒤 알려줘") == Some(180)
  {
    var a := "3분 뒤 알려줘";
    assert DigitRunEnd(a, 1) == 1;
    assert DigitRunEnd(a, 0) == 1;
    assert SpaceRunEnd(a, 1) == 1;
    assert UnitAt(a, 1) == Some(Minutes);
    assert SpaceRunEnd(a, 3) == 3;
    assert SpaceRunEnd(a, 2) == 3;
    assert a[0..1] == "3";
    assert DecimalValue(a[0..1]) == 3;
    assert MatchAt(a, 0) == Some(180);
  }

  /** "10초뒤" ("in 10 seconds") asks for 10 seconds: the whole digit run counts. */
  lemma ParseSecondsExample()
    ensures ParseNotificationTime("10초뒤") == Some(10)
  {
    var b := "10초뒤";
    assert DigitRunEnd(b, 2) == 2;
    assert DigitRunEnd(b, 0) == 2;
    assert SpaceRunEnd(b, 2) == 2;
    assert UnitAt(b, 2) == Some(Seconds);
    assert SpaceRunEnd(b, 3) == 3;
    assert b[0..2] == "10" && "10"[..1] == "1";
    assert DecimalValue(b[0..2]) == 10;
    assert MatchAt(b, 0) == Some(10);
  }

  /** "안녕" ("hello") holds no delay. */
  lemma ParseGreetingExample()
    ensures ParseNotificationTime("안녕") == None
  {
    var c := "안녕";
    assert MatchAt(c, 0) == None && MatchAt(c, 1) == None && MatchAt(c, 2) == None;
  }

  // ---------------------------------------------------------------------------
  // search_in_conversation
  // ---------------------------------------------------------------------------

  /** One search result: the matching message, its neighbours (or `None` at
      either end of the transcript) and its position. */
  datatype SearchHit = SearchHit(before: Option<Message>, matched: Message, after: Option<Message>, index: nat)

  /** The result `search_in_conversation` builds for the message at `i`. */
  function HitAt(history: seq<Message>, i: nat): (h: SearchHit)
    requires i < |history|
    ensures h.index == i && h.matched == history[i]
    ensures h.before.Some? <==> i > 0
    ensures h.after.Some? <==> i < |history| - 1
    ensures h.before.Some? ==> h.before.value == history[i - 1]
    ensures h.after.Some? ==> h.after.value == history[i + 1]
  {
    SearchHit(
      if i > 0 then Some(history[i - 1]) else None,
      history[i],
      if i < |history| - 1 then Some(history[i + 1]) else None,
      i)
  }

  /** The results for the first `n` messages: one per message that `search`
      accepts, in transcript order. */
  function Hits(history: seq<Message>, query: string, search: (string, string) -> bool, n: nat): (r: seq<SearchHit>)
    requires n <= |history|
    ensures |r| <= n
    ensures forall k :: 0 <= k < |r| ==> r[k].index < n
  {
    if n == 0 then []
    else Hits(history, query, search, n - 1)
         + (if search(query, history[n - 1].content) then [HitAt(history, n - 1)] else [])
  }

  /** The results are exactly the accepted messages among the first `n`: each
      result is the context of an accepted message, the indices increase, and
      every accepted message has a result. */
  lemma {:induction false} HitsCorrect(history: seq<Message>, query: string, search: (string, string) -> bool, n: nat)
    requires n <= |history|
    ensures var r := Hits(history, query, search, n);
            && (forall k :: 0 <= k < |r| ==>
                  r[k].index < n && search(query, history[r[k].index].content)
                  && r[k] == HitAt(history, r[k].index))
            && (forall a, b :: 0 <= a < b < |r| ==> r[a].index < r[b].index)
            && (forall i :: 0 <= i < n && search(query, history[i].content) ==>
                  exists k :: 0 <= k < |r| && r[k].index == i)
  {
    HitsSound(history, query, search, n);
    HitsIncreasing(history, query, search, n);
    HitsComplete(history, query, search, n);
    var r := Hits(history, query, search, n);
    forall i | 0 <= i < n && search(query, history[i].content)
      ensures exists k :: 0 <= k < |r| && r[k].index == i
    {
      var k :| 0 <= k < |r| && r[k] == HitAt(history, i);
    }
  }

  /** Each result is the context of an accepted message. */
  lemma {:induction false} HitsSound(history: seq<Message>, query: string, search: (string, string) -> bool, n: nat)
    requires n <= |history|
    ensures forall k :: 0 <= k < |Hits(history, query, search, n)| ==>
              search(query, history[Hits(history, query, search, n)[k].index].content) && Hits(history, query, search, n)[k] == HitAt(history, Hits(history, query, search, n)[k].index)
  {
    if n > 0 {
      HitsSound(history, query, search, n - 1);
      var r0 := Hits(history, query, search, n - 1);
      var r := Hits(history, query, search, n);
      if search(query, history[n - 1].content) {
        assert r == r0 + [HitAt(history, n - 1)];
        assert forall k :: 0 <= k < |r0| ==> r[k] == r0[k];
        assert r[|r0|] == HitAt(history, n - 1) && r[|r0|].index == n - 1;
      } else {
        assert r == r0;
      }
    }
  }

  /** The results come in transcript order. */
  lemma {:induction false} HitsIncreasing(history: seq<Message>, query: string, search: (string, string) -> bool, n: nat)
    requires n <= |history|
    ensures forall a, b :: 0 <= a < b < |Hits(history, query, search, n)| ==> Hits(history, query, search, n)[a].index < Hits(history, query, search, n)[b].index
  {
    if n > 0 {
      HitsIncreasing(history, query, search, n - 1);
      var r0 := Hits(history, query, search, n - 1);
      var r := Hits(history, query, search, n);
      if search(query, history[n - 1].content) {
        assert r == r0 + [HitAt(history, n - 1)];
        forall x, y | 0 <= x < y < |r| ensures r[x].index < r[y].index {
          assert r[x] == r0[x];
          if y == |r0| {
            assert r[y].index == n - 1;
          } else {
            assert r[y] == r0[y];
          }
        }
      } else {
        assert r == r0;
      }
    }
  }

  /** Every accepted message among the first `n` has its result. */
  lemma {:induction false} HitsComplete(history: seq<Message>, query: string, search: (string, string) -> bool, n: nat)
    requires n <= |history|
    ensures forall i :: 0 <= i < n && search(query, history[i].content) ==>
              HitAt(history, i) in Hits(history, query, search, n)
  {
    if n > 0 {
      HitsComplete(history, query, search, n - 1);
      var r0 := Hits(history, query, search, n - 1);
      var r := Hits(history, query, search, n);
      if search(query, history[n - 1].content) {
        assert r == r0 + [HitAt(history, n - 1)];
      } else {
        assert r == r0;
      }
    }
  }

  /** `search_in_conversation`. Python evaluates the query as a
      case-insensitive regular expression against each message's content;
      here that test is the parameter `search(query, content)`. A blank query
      gives no results; otherwise the results are `Hits` over the whole
      transcript. */
  method SearchInConversation(history: seq<Message>, query: string, search: (string, string) -> bool)
    returns (results: seq<SearchHit>)
    ensures AllSpace(query) ==> results == []
    ensures !AllSpace(query) ==> results == Hits(history, query, search, |history|)
  {
    if Strip(query) == [] {
      return [];
    }
    results := [];
    var i := 0;
    while i < |history|
      invariant 0 <= i <= |history|
      invariant results == Hits(history, query, search, i)
    {
      var msg := history[i];
      if search(query, msg.content) {
        var context := SearchHit(
          if i > 0 then Some(history[i - 1]) else None,
          msg,
          if i < |history| - 1 then Some(history[i + 1]) else None,
          i);
        results := results + [context];
      }
      i := i + 1;
    }
  }

  // ---------------------------------------------------------------------------
  // limit_conversation_history
  // ---------------------------------------------------------------------------

  /** Python's `h[start:]`: a negative start counts from the end, and a start
      out of range is clamped to the sequence. */
  function SliceFrom<T>(h: seq<T>, start: int): (r: seq<T>)
    ensures |r| <= |h| && r == h[|h| - |r|..]
    ensures 0 <= start <= |h| ==> |r| == |h| - start
    ensures -|h| <= start < 0 ==> |r| == -start
    ensures start > |h| ==> r == []
    ensures start < -|h| ==> r == h
  {
    var b := if start < 0 then (if start + |h| < 0 then 0 else start + |h|)
             else (if start > |h| then |h| else start);
    h[b..]
  }

  /** `limit_conversation_history(h, m)`: `h[-m:]` when `h` is longer than
      `m`, otherwise `h`. */
  function LimitConversationHistory(h: seq<Message>, m: int): (r: seq<Message>)
    ensures |r| <= |h| && r == h[|h| - |r|..]
  {
    if |h| > m then SliceFrom(h, -m) else h
  }

  /** For a positive bound the result is the last `min(|h|, m)` messages. */
  lemma LimitKeepsLast(h: seq<Message>, m: int)
    requires m >= 1
    ensures |LimitConversationHistory(h, m)| == (if |h| > m then m else |h|)
    ensures LimitConversationHistory(h, m) == h[|h| - |LimitConversationHistory(h, m)|..]
  {
  }

  /** As written, a bound of 0 keeps the whole history: `h[-0:]` is `h[0:]`. */
  lemma LimitZeroKeepsAll(h: seq<Message>)
    ensures LimitConversationHistory(h, 0) == h
  {
  }

  /** As written, a negative bound `-d` drops the first `d` messages instead of
      keeping none: `h[d:]`. */
  lemma LimitNegativeDropsPrefix(h: seq<Message>, d: int)
    requires 0 < d
    ensures LimitConversationHistory(h, -d) == h[if d <= |h| then d else |h|..]
  {
  }

  /** The behaviour the name promises: never more than `max(m, 0)` messages,
      always the most recent ones. */
  function LimitConversationHistoryIntended(h: seq<Message>, m: int): (r: seq<Message>)
    ensures |r| == (if m <= 0 then 0 else if |h| > m then m else |h|)
    ensures r == h[|h| - |r|..]
  {
    if m <= 0 then [] else if |h| > m then h[|h| - m..] else h
  }

  /** The intended truncation agrees with the code wherever the bound is positive. */
  lemma IntendedAgreesForPositiveBound(h: seq<Message>, m: int)
    requires m >= 1
    ensures LimitConversationHistoryIntended(h, m) == LimitConversationHistory(h, m)
  {
  }

  /** A one-message history limited to 0 shows the two apart. */
  lemma LimitZeroCounterexample(m: Message)
    ensures LimitConversationHistory([m], 0) == [m]
    ensures LimitConversationHistoryIntended([m], 0) == []
  {
  }

  // ---------------------------------------------------------------------------
  // validate_session_name and sanitize_filename
  // ---------------------------------------------------------------------------

  /** The nine characters neither helper lets into a file name. */
  const InvalidChars: seq<char> := ['<', '>', ':', '"', '/', '\\', '|', '?', '*']

  /** `validate_session_name`: false for an empty or blank name or one holding
      any of the nine characters, true otherwise. */
  function ValidateSessionName(name: string): (ok: bool)
    ensures ok <==> !AllSpace(name) && forall k :: 0 <= k < |name| ==> name[k] !in InvalidChars
  {
    if name == [] || Strip(name) == [] then false
    else !exists c :: c in InvalidChars && c in name
  }

  /** `s.replace(c, d)` for one character `c` and one character `d`. */
  function Replace(s: string, c: char, d: char): (r: string)
    ensures |r| == |s|
    ensures forall k :: 0 <= k < |s| ==> r[k] == (if s[k] == c then d else s[k])
  {
    if s == [] then []
    else [if s[0] == c then d else s[0]] + Replace(s[1..], c, d)
  }

  /** `s` with each of the nine characters replaced by `_`. */
  function ReplaceInvalid(s: string): (r: string)
    ensures |r| == |s|
    ensures forall k :: 0 <= k < |r| ==> r[k] !in InvalidChars
  {
    seq(|s|, k requires 0 <= k < |s| => if s[k] in InvalidChars then '_' else s[k])
  }

  /** What `sanitize_filename` returns. */
  function Sanitized(s: string): (r: string)
    ensures exists a, b :: Segment(ReplaceInvalid(s), r, a, b)
  {
    StripIsSegment(ReplaceInvalid(s));
    Strip(ReplaceInvalid(s))
  }

  /** `sanitize_filename`: replace each of the nine characters in turn with
      `_`, then strip. */
  method SanitizeFilename(filename: string) returns (r: string)
    ensures r == Sanitized(filename)
    ensures forall k :: 0 <= k < |r| ==> r[k] !in InvalidChars
  {
    var f := filename;
    for i := 0 to |InvalidChars|
      invariant |f| == |filename|
      invariant forall k :: 0 <= k < |f| ==>
                  f[k] == if filename[k] in InvalidChars[..i] then '_' else filename[k]
    {
      f := Replace(f, InvalidChars[i], '_');
      assert forall c :: c in InvalidChars[..i + 1] <==> c in InvalidChars[..i] || c == InvalidChars[i];
    }
    assert InvalidChars[..|InvalidChars|] == InvalidChars;
    assert f == ReplaceInvalid(filename);
    r := Strip(f);
    StripKeepsCharacters(f);
  }

  /** A sanitised name holds none of the nine characters, has no surrounding
      whitespace, and sanitising it again changes nothing. */
  lemma SanitizedIdempotent(s: string)
    ensures forall k :: 0 <= k < |Sanitized(s)| ==> Sanitized(s)[k] !in InvalidChars
    ensures Strip(Sanitized(s)) == Sanitized(s)
    ensures Sanitized(Sanitized(s)) == Sanitized(s)
  {
    var t := Sanitized(s);
    StripKeepsCharacters(ReplaceInvalid(s));
    assert forall k :: 0 <= k < |t| ==> t[k] in ReplaceInvalid(s);
    assert ReplaceInvalid(t) == t;
    StripIdempotent(ReplaceInvalid(s));
  }

  /** A sanitised name passes `validate_session_name` exactly when it is not
      empty. */
  lemma SanitizedIsValidUnlessEmpty(s: string)
    ensures ValidateSessionName(Sanitized(s)) <==> Sanitized(s) != []
  {
    SanitizedIdempotent(s);
  }
}
