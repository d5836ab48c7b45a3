/** Turns as text: the three ways a turn is printed, and the parser that tries them in a fixed order. */
module TurnText {
  import opened Text

  datatype Parsed = NoTurn | Turn(speaker: string, time: string, utterance: string)

  predicate IsLetter(c: char) {
    'A' <= c <= 'Z' || 'a' <= c <= 'z'
  }

  predicate IsSpeakerChar(c: char) {
    IsLetter(c) || '0' <= c <= '9' || c == ' ' || c == '.' || c == '\'' || c == '-'
  }

  // turnSpeakerOnlyRegex
  predicate IsSpeaker(s: string) {
    1 <= |s| <= 81 && IsLetter(s[0]) && forall i | 1 <= i < |s| :: IsSpeakerChar(s[i])
  }

  const SAID := " said at "
  const AT := " at "
  const OPEN := " ("
  const CLOSE := "):"

  // ----- printers

  // deriveEvent
  function PrintAt(t: Parsed): string
    requires t.Turn?
  {
    TrimSpace(t.speaker + AT + (t.time + ": " + t.utterance))
  }

  // deriveTurnObservations, the whole utterance
  function PrintSaid(t: Parsed): string
    requires t.Turn?
  {
    TrimSpace(t.speaker + SAID + (t.time + ": " + t.utterance))
  }

  // deriveTurnObservations, one sentence
  function PrintParens(t: Parsed): string
    requires t.Turn?
  {
    TrimSpace(t.speaker + OPEN + (t.time + CLOSE + " " + t.utterance))
  }

  // ----- parsers

  // splitParserFactWithMarker
  function SplitWithMarker(content: string, marker: string): Parsed {
    var idx := Index(content, marker);
    if idx <= 0 then NoTurn
    else
      var speaker := TrimSpace(content[..idx]);
      if !IsSpeaker(speaker) then NoTurn else AfterMarker(speaker, TrimSpace(content[idx + |marker|..]))
  }

  /** What follows the marker is cut at its last colon. */
  function AfterMarker(speaker: string, rest: string): Parsed {
    var sep := LastIndexChar(rest, ':');
    if sep <= 0 || sep >= |rest| - 1 then NoTurn else Filled(speaker, TrimSpace(rest[..sep]), TrimSpace(rest[sep + 1..]))
  }

  function Filled(speaker: string, time: string, utterance: string): Parsed {
    if time == "" || utterance == "" then NoTurn else Turn(speaker, time, utterance)
  }

  // splitParserFactWithParens
  function SplitWithParens(content: string): Parsed {
    var open := Index(content, OPEN);
    if open <= 0 then NoTurn
    else
      var speaker := TrimSpace(content[..open]);
      if !IsSpeaker(speaker) then NoTurn else AfterOpen(speaker, content[open + 2..])
  }

  /** What follows the parenthesis is cut at its first closing marker. */
  function AfterOpen(speaker: string, rest: string): Parsed {
    var close := Index(rest, CLOSE);
    if close < 0 then NoTurn else Filled(speaker, TrimSpace(rest[..close]), TrimSpace(rest[close + 2..]))
  }

  // parseTurnStyleFact; annotated reads a turn with time and speaker tags.
  function Parse(content: string, annotated: string -> Parsed): Parsed {
    var trimmed := TrimSpace(content);
    if SplitWithMarker(trimmed, SAID).Turn? then SplitWithMarker(trimmed, SAID)
    else if SplitWithMarker(trimmed, AT).Turn? then SplitWithMarker(trimmed, AT)
    else if SplitWithParens(trimmed).Turn? then SplitWithParens(trimmed)
    else annotated(content)
  }

  // ----- what a branch finds, and which one answers

  predicate IsFirst(s: string, sub: string, i: int) {
    OccursAt(s, sub, i) && forall j | 0 <= j < i :: !OccursAt(s, sub, j)
  }

  /** The first marker stands after a speaker, and the last colon of the trimmed rest between a time and an utterance. */
  ghost predicate CutAtMarker(content: string, marker: string, t: Parsed, i: int, j: int) {
    && IsFirst(content, marker, i) && i > 0 && IsSpeaker(TrimSpace(content[..i]))
    && var rest := TrimSpace(content[i + |marker|..]);
       && 0 <= j < |rest| && rest[j] == ':' && (forall k | j < k < |rest| :: rest[k] != ':')
       && TrimSpace(rest[..j]) != "" && TrimSpace(rest[j + 1..]) != ""
       && t == Turn(TrimSpace(content[..i]), TrimSpace(rest[..j]), TrimSpace(rest[j + 1..]))
  }

  /** The first " (" stands after a speaker, and the first "):" beyond it between a time and an utterance. */
  ghost predicate CutAtParens(content: string, t: Parsed, i: int, j: int) {
    && IsFirst(content, " (", i) && i > 0 && IsSpeaker(TrimSpace(content[..i]))
    && var rest := content[i + 2..];
       && IsFirst(rest, "):", j) && TrimSpace(rest[..j]) != "" && TrimSpace(rest[j + 2..]) != ""
       && t == Turn(TrimSpace(content[..i]), TrimSpace(rest[..j]), TrimSpace(rest[j + 2..]))
  }

  lemma LastColon(rest: string, j: int)
    ensures 0 <= j < |rest| && rest[j] == ':' && (forall k | j < k < |rest| :: rest[k] != ':')
            <==> j == LastIndexChar(rest, ':') && j >= 0
  {
  }

  lemma FirstPlace(s: string, sub: string, i: int)
    ensures IsFirst(s, sub, i) <==> i == Index(s, sub) && i >= 0
  {
  }

  lemma MarkerFindsIff(content: string, marker: string, t: Parsed)
    requires t.Turn?
    ensures SplitWithMarker(content, marker) == t <==> exists i, j :: CutAtMarker(content, marker, t, i, j)
  {
    hide TrimSpace, IsSpeaker, Index, LastIndexChar, IsFirst;
    var i := Index(content, marker);
    if SplitWithMarker(content, marker) == t {
      FirstPlace(content, marker, i);
      var rest := TrimSpace(content[i + |marker|..]);
      LastColon(rest, LastIndexChar(rest, ':'));
      assert CutAtMarker(content, marker, t, i, LastIndexChar(rest, ':'));
    }
    if i', j :| CutAtMarker(content, marker, t, i', j) {
      FirstPlace(content, marker, i');
      var rest := TrimSpace(content[i + |marker|..]);
      LastColon(rest, j);
      NotAtTheEnds(rest, j);
    }
  }

  lemma NotAtTheEnds(s: string, j: int)
    ensures 0 <= j < |s| && TrimSpace(s[..j]) != "" && TrimSpace(s[j + 1..]) != "" ==> 0 < j < |s| - 1
  {
  }

  lemma ParensFindIff(content: string, t: Parsed)
    requires t.Turn?
    ensures SplitWithParens(content) == t <==> exists i, j :: CutAtParens(content, t, i, j)
  {
    hide TrimSpace, IsSpeaker, Index, IsFirst;
    var i := Index(content, OPEN);
    if SplitWithParens(content) == t {
      FirstPlace(content, OPEN, i);
      var rest := content[i + 2..];
      FirstPlace(rest, CLOSE, Index(rest, CLOSE));
      assert CutAtParens(content, t, i, Index(rest, CLOSE));
    }
    if i', j :| CutAtParens(content, t, i', j) {
      FirstPlace(content, OPEN, i');
      FirstPlace(content[i + 2..], CLOSE, j);
    }
  }

  ghost predicate Said(content: string, t: Parsed) {
    exists i, j :: CutAtMarker(content, " said at ", t, i, j)
  }

  ghost predicate At(content: string, t: Parsed) {
    exists i, j :: CutAtMarker(content, " at ", t, i, j)
  }

  ghost predicate InParens(content: string, t: Parsed) {
    exists i, j :: CutAtParens(content, t, i, j)
  }

  /**
   The trimmed text is cut at " said at " if that gives a turn, else at " at ", else at the parentheses; and only where none of the
   three gives one, the tag reader answers, for the text as it came.
   */
  lemma ParseTriesInOrder(content: string, annotated: string -> Parsed, t: Parsed)
    requires t.Turn?
    ensures var text := TrimSpace(content);
            && (Said(text, t) ==> Parse(content, annotated) == t)
            && ((forall u :: !Said(text, u)) && At(text, t) ==> Parse(content, annotated) == t)
            && ((forall u :: !Said(text, u) && !At(text, u)) && InParens(text, t) ==> Parse(content, annotated) == t)
            && ((forall u :: !Said(text, u) && !At(text, u) && !InParens(text, u)) ==> Parse(content, annotated) == annotated(content))
  {
    var text := TrimSpace(content);
    hide SplitWithMarker, SplitWithParens, CutAtMarker, CutAtParens, TrimSpace;
    var said, at, parens := SplitWithMarker(text, SAID), SplitWithMarker(text, AT), SplitWithParens(text);
    MarkerFindsIff(text, SAID, t);
    MarkerFindsIff(text, AT, t);
    ParensFindIff(text, t);
    if said.Turn? {
      MarkerFindsIff(text, SAID, said);
      assert Said(text, said);
    }
    if at.Turn? {
      MarkerFindsIff(text, AT, at);
      assert At(text, at);
    }
    if parens.Turn? {
      ParensFindIff(text, parens);
      assert InParens(text, parens);
    }
  }

  /** A speaker is a letter and up to eighty more letters, digits, spaces, dots, apostrophes and hyphens. */
  lemma SpeakersAre(n: nat)
    ensures IsSpeaker(seq(n, _ => 'x')) <==> 1 <= n <= 81
    ensures IsSpeaker("Dr. O'Neil-Smith 2") && !IsSpeaker("2 Smith") && !IsSpeaker(" Smith") && !IsSpeaker("A(b") && !IsSpeaker("A:b")
  {
    assert "A(b"[1] == '(' && "A:b"[1] == ':';
  }

  // ----- what the printers are given

  /** A speaker the pattern accepts, and fields with no space at their ends. */
  predicate Printable(t: Parsed) {
    t.Turn? && IsSpeaker(t.speaker) && Trimmed(t.speaker) && Trimmed(t.time) && Trimmed(t.utterance)
  }

  lemma Untouched(a: string, b: string, c: string)
    requires Trimmed(a) && Trimmed(c)
    ensures TrimSpace(a + b + c) == a + b + c
  {
    TrimmedIsFixed(a + b + c);
  }

  /** The three prints in full. */
  lemma PrintsAre(t: Parsed)
    requires Printable(t)
    ensures PrintSaid(t) == t.speaker + " said at " + t.time + ": " + t.utterance
    ensures PrintAt(t) == t.speaker + " at " + t.time + ": " + t.utterance
    ensures PrintParens(t) == t.speaker + " (" + t.time + "): " + t.utterance
  {
    hide IsSpeaker, IsSpace;
    Untouched(t.speaker, SAID + (t.time + ": "), t.utterance);
    Untouched(t.speaker, AT + (t.time + ": "), t.utterance);
    Untouched(t.speaker, OPEN + (t.time + CLOSE + " "), t.utterance);
    assert t.speaker + SAID + (t.time + ": " + t.utterance) == t.speaker + (SAID + (t.time + ": ")) + t.utterance;
    assert t.speaker + AT + (t.time + ": " + t.utterance) == t.speaker + (AT + (t.time + ": ")) + t.utterance;
    assert t.speaker + OPEN + (t.time + CLOSE + " " + t.utterance) == t.speaker + (OPEN + (t.time + CLOSE + " ")) + t.utterance;
  }

  lemma TrimPadded(u: string)
    requires Trimmed(u)
    ensures TrimSpace(" " + u) == u
  {
    TrimmedIsFixed(u);
    assert (" " + u)[1..] == u;
  }

  // ----- a branch that finds the speaker finds the speaker's end

  /** A trimmed prefix can only be the speaker when it ends where the speaker does. */
  lemma SpeakerEnds(content: string, speaker: string, i: nat)
    requires Trimmed(speaker) && speaker <= content && |content| >= |speaker| + 2
    requires content[|speaker|] == ' ' && !IsSpace(content[|speaker| + 1])
    requires i < |content| && content[i] == ' ' && TrimSpace(content[..i]) == speaker
    ensures i == |speaker|
  {
    var n := |speaker|;
    if i > n {
      var before := content[..i];
      assert before[0] == speaker[0];
      NonSpaceSurvivesRight(before, n + 1);
    }
  }

  /** A branch whose marker does not stand right after the speaker never returns that speaker. */
  lemma OtherMarker(content: string, speaker: string, marker: string)
    requires Trimmed(speaker) && speaker <= content && |content| >= |speaker| + 2
    requires content[|speaker|] == ' ' && !IsSpace(content[|speaker| + 1])
    requires |marker| >= 2 && marker[0] == ' ' && marker[1] != content[|speaker| + 1]
    ensures SplitWithMarker(content, marker).Turn? ==> SplitWithMarker(content, marker).speaker != speaker
  {
    hide TrimSpace, IsSpace, IsSpeaker;
    var idx := Index(content, marker);
    if idx > 0 && TrimSpace(content[..idx]) == speaker {
      assert content[idx] == content[idx..idx + |marker|][0] && content[idx + 1] == content[idx..idx + |marker|][1];
      SpeakerEnds(content, speaker, idx);
      assert false;
    }
  }

  lemma OtherThanParens(content: string, speaker: string)
    requires Trimmed(speaker) && speaker <= content && |content| >= |speaker| + 2
    requires content[|speaker|] == ' ' && !IsSpace(content[|speaker| + 1]) && content[|speaker| + 1] != '('
    ensures SplitWithParens(content).Turn? ==> SplitWithParens(content).speaker != speaker
  {
    hide TrimSpace, IsSpace, IsSpeaker;
    var idx := Index(content, OPEN);
    if idx > 0 && TrimSpace(content[..idx]) == speaker {
      assert content[idx] == content[idx..idx + 2][0] && content[idx + 1] == content[idx..idx + 2][1];
      SpeakerEnds(content, speaker, idx);
      assert false;
    }
  }

  // ----- what each branch makes of its own print

  lemma AfterMarkerIff(speaker: string, time: string, utterance: string)
    requires Trimmed(time) && Trimmed(utterance) && time != "" && utterance != ""
    ensures AfterMarker(speaker, time + ": " + utterance) == Turn(speaker, time, utterance) <==> ':' !in utterance
  {
    hide TrimSpace, Trimmed, LastIndexChar;
    var rest := time + ": " + utterance;
    var sep := LastIndexChar(rest, ':');
    assert rest[|time|] == ':' && forall i | 0 <= i < |utterance| :: rest[|time| + 2 + i] == utterance[i];
    if ':' !in utterance {
      assert sep == |time|;
      assert rest[..sep] == time && rest[sep + 1..] == " " + utterance;
      TrimmedIsFixed(time);
      TrimPadded(utterance);
    } else {
      var i :| 0 <= i < |utterance| && utterance[i] == ':';
      assert sep >= |time| + 2 + i;
    }
  }

  lemma MarkerReadsBackIff(t: Parsed, marker: string)
    requires Printable(t) && marker != ""
    ensures var content := t.speaker + marker + (t.time + ": " + t.utterance);
            SplitWithMarker(content, marker) == t <==> Index(content, marker) == |t.speaker| && ':' !in t.utterance
  {
    hide IsSpace, TrimSpace, IsSpeaker, AfterMarker;
    var rest := t.time + ": " + t.utterance;
    var content := t.speaker + marker + rest;
    var idx := Index(content, marker);
    assert OccursAt(content, marker, |t.speaker|);
    if idx == |t.speaker| {
      assert content[..idx] == t.speaker && content[idx + |marker|..] == rest;
      TrimmedIsFixed(t.speaker);
      Untouched(t.time, ": ", t.utterance);
      AfterMarkerIff(t.speaker, t.time, t.utterance);
    } else {
      AfterMarkerKeepsSpeaker(TrimSpace(content[..idx]), TrimSpace(content[idx + |marker|..]));
    }
  }

  lemma AfterMarkerKeepsSpeaker(speaker: string, rest: string)
    ensures AfterMarker(speaker, rest).Turn? ==> AfterMarker(speaker, rest).speaker == speaker
  {
    hide TrimSpace;
  }

  lemma AfterOpenIff(speaker: string, time: string, utterance: string)
    requires Trimmed(time) && Trimmed(utterance) && time != "" && utterance != ""
    ensures AfterOpen(speaker, time + CLOSE + " " + utterance) == Turn(speaker, time, utterance) <==> Index(time, CLOSE) == -1
  {
    hide TrimSpace, Trimmed, Index;
    var rest := time + CLOSE + " " + utterance;
    var close := Index(rest, CLOSE);
    assert OccursAt(rest, CLOSE, |time|);
    assert forall i | 0 <= i < |time| :: OccursAt(rest, CLOSE, i) == OccursAt(time, CLOSE, i) by {
      forall i | 0 <= i < |time|
        ensures OccursAt(rest, CLOSE, i) == OccursAt(time, CLOSE, i)
      {
        if i + 2 <= |time| {
          assert rest[i..i + 2] == time[i..i + 2];
        } else {
          assert rest[|time|] == CLOSE[0] == ')' && CLOSE[1] == ':';
          assert rest[i..i + 2][1] == rest[i + 1];
        }
      }
    }
    if close == |time| {
      assert rest[..close] == time && rest[close + 2..] == " " + utterance;
      TrimmedIsFixed(time);
      TrimPadded(utterance);
    }
  }

  lemma ParensReadBackIff(t: Parsed)
    requires Printable(t)
    ensures var content := t.speaker + OPEN + (t.time + CLOSE + " " + t.utterance);
            SplitWithParens(content) == t <==> Index(content, OPEN) == |t.speaker| && Index(t.time, CLOSE) == -1
  {
    hide IsSpace, TrimSpace, IsSpeaker, AfterOpen;
    var rest := t.time + CLOSE + " " + t.utterance;
    var content := t.speaker + OPEN + rest;
    var idx := Index(content, OPEN);
    assert OccursAt(content, OPEN, |t.speaker|);
    if idx == |t.speaker| {
      assert content[..idx] == t.speaker && content[idx + 2..] == rest;
      TrimmedIsFixed(t.speaker);
      AfterOpenIff(t.speaker, t.time, t.utterance);
    } else {
      AfterOpenKeepsSpeaker(TrimSpace(content[..idx]), content[idx + 2..]);
    }
  }

  lemma AfterOpenKeepsSpeaker(speaker: string, rest: string)
    ensures AfterOpen(speaker, rest).Turn? ==> AfterOpen(speaker, rest).speaker == speaker
  {
    hide TrimSpace;
  }
}
