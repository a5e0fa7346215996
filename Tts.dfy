/** services/tts_service.py: the text handed to the speech synthesiser and the
    URL handed back. `split_text` cuts the reply into sentences after every
    `.`, `!` and `?`, strips them, joins them with single spaces and keeps at
    most `max_length` characters; `create_audio_response` refuses blank text and
    maps a failed synthesis to `None`. The synthesiser and the random file id
    are parameters. */
module Tts {
  import opened Text
  import opened Results

  /** The default `max_length` of `split_text`. */
  const MaxLength: nat := 3000

  predicate IsTerminator(c: char) { c == '.' || c == '!' || c == '?' }

  predicate NoTerminator(s: string) {
    forall k :: 0 <= k < |s| ==> !IsTerminator(s[k])
  }

  /** The position of the first terminator of `s`, or `|s|` when it has none. */
  function FirstTerminator(s: string): (i: nat)
    ensures i <= |s| && NoTerminator(s[..i])
    ensures i < |s| ==> IsTerminator(s[i])
  {
    if s == [] then 0
    else if IsTerminator(s[0]) then 0
    else
      var i := 1 + FirstTerminator(s[1..]);
      assert s[..i] == [s[0]] + s[1..][..i - 1];
      i
  }

  /** `"".join(ss)`. */
  function Concat(ss: seq<string>): string {
    if ss == [] then [] else ss[0] + Concat(ss[1..])
  }

  /** A terminator with none before it is the first one. */
  lemma {:induction false} FirstTerminatorAt(s: string, i: nat)
    requires i < |s| && NoTerminator(s[..i]) && IsTerminator(s[i])
    ensures FirstTerminator(s) == i
  {
    if i > 0 {
      assert !IsTerminator(s[..i][0]);
      assert s[1..][..i - 1] == s[..i][1..];
      FirstTerminatorAt(s[1..], i - 1);
    }
  }

  /** `s` cut after every terminator, the last piece being the (possibly
      empty) rest. */
  function Pieces(s: string): (r: seq<string>)
    ensures |r| >= 1
    decreases |s|
  {
    var i := FirstTerminator(s);
    if i == |s| then [s] else [s[..i + 1]] + Pieces(s[i + 1..])
  }

  /** A closed piece: non-empty, ending with its only terminator. */
  predicate Closed(piece: string) {
    piece != [] && IsTerminator(piece[|piece| - 1]) && NoTerminator(piece[..|piece| - 1])
  }

  /** The pieces spell `s`: cutting loses and adds nothing. */
  lemma {:induction false} PiecesConcat(s: string)
    ensures Concat(Pieces(s)) == s
    decreases |s|
  {
    var i := FirstTerminator(s);
    var r := Pieces(s);
    if i < |s| {
      var rest := s[i + 1..];
      PiecesConcat(rest);
      assert r == [s[..i + 1]] + Pieces(rest);
      assert r[1..] == Pieces(rest);
      assert Concat(r) == s[..i + 1] + Concat(Pieces(rest));
      assert s == s[..i + 1] + rest;
    } else {
      assert r == [s];
      assert Concat(r) == s + Concat([]);
    }
  }

  /** The last piece has no terminator. */
  lemma {:induction false} PiecesLast(s: string)
    ensures NoTerminator(Pieces(s)[|Pieces(s)| - 1])
    decreases |s|
  {
    var i := FirstTerminator(s);
    if i < |s| {
      var rest := s[i + 1..];
      PiecesLast(rest);
      var r := Pieces(s);
      assert r == [s[..i + 1]] + Pieces(rest);
      assert r[|r| - 1] == Pieces(rest)[|Pieces(rest)| - 1];
    } else {
      assert s[..i] == s;
    }
  }

  /** Every piece but the last is closed. */
  lemma {:induction false} PiecesClosed(s: string)
    ensures forall k :: 0 <= k < |Pieces(s)| - 1 ==> Closed(Pieces(s)[k])
    decreases |s|
  {
    var i := FirstTerminator(s);
    if i < |s| {
      var rest := s[i + 1..];
      PiecesClosed(rest);
      var r := Pieces(s);
      var q := Pieces(rest);
      assert r == [s[..i + 1]] + q;
      forall k | 0 <= k < |r| - 1 ensures Closed(r[k]) {
        if k == 0 {
          assert s[..i + 1][..i] == s[..i];
        } else {
          assert r[k] == q[k - 1];
        }
      }
    }
  }

  /** Each string stripped. */
  function StripEach(ss: seq<string>): (r: seq<string>)
    ensures |r| == |ss| && forall k :: 0 <= k < |ss| ==> r[k] == Strip(ss[k])
  {
    if ss == [] then [] else [Strip(ss[0])] + StripEach(ss[1..])
  }

  /** The `sentences` list of `split_text`: the text up to and including
      its first terminator, stripped, then the sentences of the rest; a tail
      without terminator is kept stripped when it is not blank. */
  function Sentences(s: string): (r: seq<string>)
    decreases |s|
  {
    var i := FirstTerminator(s);
    if i == |s| then (if Strip(s) == [] then [] else [Strip(s)])
    else [Strip(s[..i + 1])] + Sentences(s[i + 1..])
  }

  /** The stripped pieces, the last one only when it is not blank. */
  function SentencesOf(p: seq<string>): seq<string>
    requires |p| >= 1
  {
    var tail := Strip(p[|p| - 1]);
    StripEach(p[..|p| - 1]) + (if tail == [] then [] else [tail])
  }

  /** A piece in front adds its stripped self in front. */
  lemma SentencesOfCons(x: string, p: seq<string>)
    requires |p| >= 1
    ensures SentencesOf([x] + p) == [Strip(x)] + SentencesOf(p)
  {
    var q := [x] + p;
    assert q[..|q| - 1] == [x] + p[..|p| - 1];
    assert q[|q| - 1] == p[|p| - 1];
  }

  /** The sentences are the stripped pieces of the text cut after every
      terminator, the last piece only when it is not blank. */
  lemma {:induction false} SentencesArePieces(s: string)
    ensures Sentences(s) == SentencesOf(Pieces(s))
    decreases |s|
  {
    var i := FirstTerminator(s);
    if i < |s| {
      var rest := s[i + 1..];
      SentencesArePieces(rest);
      assert Pieces(s) == [s[..i + 1]] + Pieces(rest);
      SentencesOfCons(s[..i + 1], Pieces(rest));
    } else {
      assert Pieces(s) == [s];
      assert StripEach([s][..0]) == [];
    }
  }

  /** Non-empty, with no whitespace at either end: the strings that are
      their own strip. */
  predicate Trimmed(x: string) {
    x != [] && !IsSpace(x[0]) && !IsSpace(x[|x| - 1])
  }

  /** Text ending in a terminator is not blank. */
  lemma TerminatedIsNotBlank(s: string)
    requires s != [] && IsTerminator(s[|s| - 1])
    ensures !AllSpace(s)
  {
    assert !IsSpace(s[|s| - 1]);
  }

  /** `current_sentence.strip()` holds at every terminator, so a sentence is
      closed exactly at the terminators. */
  lemma ClosesAtTerminator(current: string, c: char)
    ensures (IsTerminator(c) && Strip(current + [c]) != []) == IsTerminator(c)
  {
    if IsTerminator(c) {
      TerminatedIsNotBlank(current + [c]);
    }
  }

  /** Every sentence is non-empty and neither starts nor ends with
      whitespace. */
  lemma {:induction false} SentencesTrimmed(s: string)
    ensures forall k :: 0 <= k < |Sentences(s)| ==> Trimmed(Sentences(s)[k])
    decreases |s|
  {
    var i := FirstTerminator(s);
    var ss := Sentences(s);
    if i < |s| {
      var rest := s[i + 1..];
      var tail := Sentences(rest);
      SentencesTrimmed(rest);
      TerminatedIsNotBlank(s[..i + 1]);
      var first := Strip(s[..i + 1]);
      assert Trimmed(first);
      assert ss == [first] + tail;
      forall k | 0 <= k < |ss| ensures Trimmed(ss[k]) {
        if k > 0 {
          assert ss[k] == tail[k - 1];
        }
      }
    } else {
      assert ss == if Strip(s) == [] then [] else [Strip(s)];
    }
  }

  /** So stripping a sentence again changes nothing. */
  lemma SentencesAreStripped(s: string)
    ensures forall k :: 0 <= k < |Sentences(s)| ==> Strip(Sentences(s)[k]) == Sentences(s)[k]
  {
    SentencesTrimmed(s);
    forall k | 0 <= k < |Sentences(s)| ensures Strip(Sentences(s)[k]) == Sentences(s)[k] {
      StripOfTrimmed(Sentences(s)[k]);
    }
  }

  /** A text that is not blank has at least one sentence. */
  lemma NonBlankHasSentence(s: string)
    requires !AllSpace(s)
    ensures Sentences(s) != []
  {
  }

  /** The combined length of the strings of `ss`. */
  function TotalLength(ss: seq<string>): nat {
    if ss == [] then 0 else |ss[0]| + TotalLength(ss[1..])
  }

  /** `" ".join(ss)`: the strings in order with one space between each
      two, so the first string leads and the length is theirs plus one per
      separator. */
  function Join(ss: seq<string>): (r: string)
    ensures ss != [] ==> |r| == TotalLength(ss) + |ss| - 1 && r[..|ss[0]|] == ss[0]
    ensures ss == [] ==> r == []
  {
    if ss == [] then []
    else if |ss| == 1 then ss[0]
    else ss[0] + " " + Join(ss[1..])
  }

  /** `full[:max_length]` when `full` is longer than `max_length`, else `full`. */
  function Truncate(full: string, maxLength: nat): (r: string)
    ensures |r| == (if |full| > maxLength then maxLength else |full|)
    ensures |r| <= maxLength && r == full[..|r|]
  {
    if |full| > maxLength then full[..maxLength] else full
  }

  /** The one chunk `split_text(text, max_length)` returns. */
  function Chunk(text: string, maxLength: nat): (r: string)
    ensures |r| <= maxLength && |r| <= |Join(Sentences(text))|
    ensures r == Join(Sentences(text))[..|r|]
  {
    Truncate(Join(Sentences(text)), maxLength)
  }

  /** At a first terminator the text up to and including it is the first
      sentence, stripped, and the rest is split on its own. */
  lemma SentencesAtTerminator(current: string, c: char, rest: string)
    requires NoTerminator(current) && IsTerminator(c)
    ensures Sentences(current + [c] + rest) == [Strip(current + [c])] + Sentences(rest)
  {
    var s := current + [c] + rest;
    assert s[..|current|] == current;
    FirstTerminatorAt(s, |current|);
    assert s[..|current| + 1] == current + [c];
    assert s[|current| + 1..] == rest;
  }

  /** Text without a terminator is one stripped sentence, or none when it is
      blank. */
  lemma SentencesWithoutTerminator(current: string)
    requires NoTerminator(current)
    ensures Sentences(current) == if Strip(current) == [] then [] else [Strip(current)]
  {
  }

  /** A step of the loop of `split_text` on a character that is not a
      terminator: it joins `current`, and the sentences found so far followed
      by those of `current` and the unread text are still those of `text`. */
  lemma StepInside(sentences: seq<string>, current: string, text: string, i: nat)
    requires i < |text| && !IsTerminator(text[i])
    requires sentences + Sentences(current + text[i..]) == Sentences(text)
    ensures sentences + Sentences(current + [text[i]] + text[i + 1..]) == Sentences(text)
  {
    assert current + text[i..] == current + [text[i]] + text[i + 1..];
  }

  /** A step on a terminator: `current` with it is not blank, and it closes
      the next sentence. */
  lemma StepAtTerminator(sentences: seq<string>, current: string, text: string, i: nat)
    requires i < |text| && NoTerminator(current) && IsTerminator(text[i])
    requires sentences + Sentences(current + text[i..]) == Sentences(text)
    ensures (sentences + [Strip(current + [text[i]])]) + Sentences(text[i + 1..]) == Sentences(text)
  {
    var closed := current + [text[i]];
    var rest := text[i + 1..];
    assert current + text[i..] == closed + rest;
    SentencesAtTerminator(current, text[i], rest);
    var first := Strip(closed);
    var tail := Sentences(rest);
    assert Sentences(current + text[i..]) == [first] + tail;
    assert (sentences + [first]) + tail == sentences + ([first] + tail);
  }

  /** After the last character, the sentences of `text` are those found so
      far followed by the stripped rest when it is not blank. */
  lemma LastSentence(sentences: seq<string>, current: string, text: string)
    requires NoTerminator(current)
    requires sentences + Sentences(current + text[|text|..]) == Sentences(text)
    ensures Sentences(text) == if Strip(current) != [] then sentences + [Strip(current)] else sentences
  {
    assert current + text[|text|..] == current;
    SentencesWithoutTerminator(current);
  }

  /** The sentence loop of `split_text`: accumulate characters into
      `current`, close a stripped sentence after each terminator, and keep the
      stripped tail when it is not blank. */
  method CollectSentences(text: string) returns (sentences: seq<string>)
    ensures sentences == Sentences(text)
  {
    sentences := [];
    var current: string := "";
    assert current + text[0..] == text;
    for i := 0 to |text|
      invariant NoTerminator(current)
      invariant sentences + Sentences(current + text[i..]) == Sentences(text)
    {
      var c := text[i];
      var next := current + [c];
      ClosesAtTerminator(current, c);
      if IsTerminator(c) && Strip(next) != [] {
        StepAtTerminator(sentences, current, text, i);
        sentences := sentences + [Strip(next)];
        current := "";
        assert current + text[i + 1..] == text[i + 1..];
      } else {
        StepInside(sentences, current, text, i);
        assert NoTerminator(next);
        current := next;
      }
    }
    LastSentence(sentences, current, text);
    if Strip(current) != [] {
      sentences := sentences + [Strip(current)];
    }
  }

  /** `split_text`: the sentences joined by single spaces and cut to
      `maxLength`. It returns exactly one chunk, of at most `maxLength`
      characters. */
  method SplitText(text: string, maxLength: nat) returns (chunks: seq<string>)
    ensures chunks == [Chunk(text, maxLength)]
    ensures |chunks| == 1 && |chunks[0]| <= maxLength
  {
    var sentences := CollectSentences(text);
    var fullText := Join(sentences);
    if |fullText| > maxLength {
      return [fullText[..maxLength]];
    }
    return [fullText];
  }

  /** The URL of the audio file named with `audioId`. */
  function AudioUrl(audioId: string): (u: string)
    ensures |u| == |audioId| + 27
    ensures u[..14] == "/static/audio/" && u[14..23] == "response_"
    ensures u[23..|u| - 4] == audioId && u[|u| - 4..] == ".mp3"
  {
    "/static/audio/" + ("response_" + audioId + ".mp3")
  }

  /** `create_audio_response`: `None` for empty or blank text, before any
      synthesis; otherwise the chunk is synthesised into
      `response_<audioId>.mp3` and the file's URL is returned if the file was
      written, `None` if synthesis failed or left no file.
      `synthesize(chunk)` stands for `NaverTTS(chunk).save(path)` followed by
      `os.path.exists(path)`, an exception counting as `false`. */
  method CreateAudioResponse(text: string, audioId: string, synthesize: string -> bool)
    returns (url: Option<string>)
    ensures AllSpace(text) ==> url == None
    ensures !AllSpace(text) ==>
              url == (if synthesize(Chunk(text, MaxLength)) then Some(AudioUrl(audioId)) else None)
  {
    if text == [] || Strip(text) == [] {
      return None;
    }
    var textChunks := SplitText(text, MaxLength);
    var firstChunk := textChunks[0];
    var audioFilename := "response_" + audioId + ".mp3";
    if synthesize(firstChunk) {
      return Some("/static/audio/" + audioFilename);
    }
    return None;
  }

  /** Text that is not blank always reaches the synthesiser as a non-empty
      chunk of at most 3000 characters. */
  lemma NonBlankTextGivesChunk(text: string)
    requires !AllSpace(text)
    ensures Chunk(text, MaxLength) != [] && |Chunk(text, MaxLength)| <= MaxLength
  {
    SentencesTrimmed(text);
    NonBlankHasSentence(text);
    var ss := Sentences(text);
    assert ss[0] != [];
    assert |Join(ss)| >= |ss[0]|;
  }
}
