/** Which printed turns are read back as themselves, as conditions on the speaker, the time and the utterance alone. */
module TurnRoundTrips {
  import opened Text
  import opened TurnText

  /** The speaker holds the marker, or its end and the start of the marker make up another one. */
  predicate RunsInto(speaker: string, marker: string)
    requires marker != ""
  {
    Index(speaker + marker[..|marker| - 1], marker) != -1
  }

  lemma SliceOfPrefix(s: string, n: nat, i: nat, j: nat)
    requires i <= j <= n <= |s|
    ensures s[..n][i..j] == s[i..j]
  {
  }

  lemma FirstMarkerIff(speaker: string, marker: string, rest: string)
    requires marker != ""
    ensures Index(speaker + marker + rest, marker) == |speaker| <==> !RunsInto(speaker, marker)
  {
    var content, start := speaker + marker + rest, speaker + marker[..|marker| - 1];
    assert OccursAt(content, marker, |speaker|);
    assert start == content[..|start|];
    forall j | 0 <= j < |speaker|
      ensures OccursAt(content, marker, j) <==> OccursAt(start, marker, j)
    {
      SliceOfPrefix(content, |start|, j, j + |marker|);
    }
  }

  // ----- when a branch returns a turn

  /** Past the marker it takes a colon after something else, and an utterance after the last colon. */
  lemma BranchTurnIff(speaker: string, z: string, p: nat, q: nat)
    requires p < q < |z| && !IsSpace(z[p]) && z[q] == ':' && !IsSpace(z[|z| - 1])
    ensures AfterMarker(speaker, TrimSpace(z)).Turn? <==> z[|z| - 1] != ':'
  {
    var r := TrimSpace(z);
    var d := |z| - |r|;
    TrimmedSuffix(z, p);
    hide IsSpace, TrimSpace, LastIndexChar;
    assert r[q - d] == ':' && r[|r| - 1] == z[|z| - 1];
    var sep := LastIndexChar(r, ':');
    if z[|z| - 1] != ':' {
      NonSpaceIsNotBlank(r[..sep], 0);
      NonSpaceIsNotBlank(r[sep + 1..], |r| - sep - 2);
    }
  }

  /** So the branch hangs on the speaker before the marker and on the very last colon. */
  lemma MarkerTurnIff(content: string, marker: string, idx: nat, z: string, p: nat, q: nat)
    requires Index(content, marker) == idx > 0 && content[idx + |marker|..] == z
    requires p < q < |z| && !IsSpace(z[p]) && z[q] == ':' && !IsSpace(z[|z| - 1])
    ensures SplitWithMarker(content, marker).Turn? <==> IsSpeaker(TrimSpace(content[..idx])) && z[|z| - 1] != ':'
  {
    hide Index, IsSpace, TrimSpace, IsSpeaker, AfterMarker;
    BranchTurnIff(TrimSpace(content[..idx]), z, p, q);
  }

  /** The three texts that make up a line, with the marker inside the middle one. */
  lemma MarkerCut(content: string, marker: string, a: string, b: string, c: string, k: nat, p: nat, q: nat)
    requires content == a + b + c && Index(content, marker) == |a| + k > 0
    requires k + |marker| <= |b| && k + |marker| <= p < q < |b| + |c| && c != "" && !IsSpace(c[|c| - 1])
    requires !IsSpace((b + c)[p]) && (b + c)[q] == ':'
    ensures SplitWithMarker(content, marker).Turn? <==> IsSpeaker(TrimSpace(a + b[..k])) && c[|c| - 1] != ':'
  {
    hide Index, IsSpace, TrimSpace, IsSpeaker, SplitWithMarker;
    var m := k + |marker|;
    assert content[..|a| + k] == a + b[..k];
    assert content[|a| + m..] == (b + c)[m..];
    MarkerTurnIff(content, marker, |a| + k, (b + c)[m..], p - m, q - m);
  }

  /** The same with nothing before the middle one. */
  lemma FirstCut(marker: string, b: string, c: string, k: nat, p: nat, q: nat)
    requires Index(b + c, marker) == k > 0
    requires k + |marker| <= |b| && k + |marker| <= p < q < |b| + |c| && c != "" && !IsSpace(c[|c| - 1])
    requires !IsSpace((b + c)[p]) && (b + c)[q] == ':'
    ensures SplitWithMarker(b + c, marker).Turn? <==> IsSpeaker(TrimSpace(b[..k])) && c[|c| - 1] != ':'
  {
    hide Index, IsSpace, TrimSpace, IsSpeaker, SplitWithMarker;
    assert "" + b + c == b + c && "" + b[..k] == b[..k];
    MarkerCut(b + c, marker, "", b, c, k, p, q);
  }

  lemma NotASpeaker(content: string, i: nat, j: nat)
    requires 0 < j < i <= |content| && !IsSpace(content[0]) && !IsSpace(content[j]) && !IsSpeakerChar(content[j])
    ensures !IsSpeaker(TrimSpace(content[..i]))
  {
    hide IsSpace, TrimSpace, IsSpeakerChar;
    TrimmedPrefix(content[..i], j);
  }

  lemma PartOfSpeaker(speaker: string, i: nat)
    requires IsSpeaker(speaker) && 0 < i <= |speaker|
    ensures IsSpeaker(TrimSpace(speaker[..i]))
  {
    assert !IsSpace(speaker[0]);
    hide IsSpace, TrimSpace, IsSpeakerChar, IsLetter;
    TrimmedPrefix(speaker[..i], 0);
  }

  lemma OccurrenceChars(s: string, sub: string, j: int)
    ensures OccursAt(s, sub, j) ==> forall p | j <= p < j + |sub| :: s[p] == sub[p - j]
  {
    if OccursAt(s, sub, j) {
      assert forall p | j <= p < j + |sub| :: s[p] == s[j..j + |sub|][p - j];
    }
  }

  // ----- "S said at T: U"

  predicate SaidIsPlain(t: Parsed)
    requires t.Turn?
  {
    !RunsInto(t.speaker, SAID) && ':' !in t.utterance
  }

  /** Read back if and only if this holds; what the tag reader may still make of it is a matter of its own. */
  lemma SaidReadsBackIff(t: Parsed, annotated: string -> Parsed)
    requires Printable(t)
    ensures SaidIsPlain(t) ==> Parse(PrintSaid(t), annotated) == t
    ensures !SaidIsPlain(t) && annotated(PrintSaid(t)) != t ==> Parse(PrintSaid(t), annotated) != t
  {
    hide IsSpeaker, Index, SplitWithMarker, SplitWithParens, RunsInto;
    var content := t.speaker + SAID + (t.time + ": " + t.utterance);
    Untouched(t.speaker, SAID + (t.time + ": "), t.utterance);
    assert t.speaker + (SAID + (t.time + ": ")) + t.utterance == content;
    hide TrimSpace;
    FirstMarkerIff(t.speaker, SAID, t.time + ": " + t.utterance);
    MarkerReadsBackIff(t, SAID);
    OtherMarker(content, t.speaker, AT);
    OtherThanParens(content, t.speaker);
  }

  // ----- "S at T: U"

  predicate EndsInSaid(speaker: string) {
    |speaker| >= 5 && speaker[|speaker| - 5..] == " said"
  }

  /** The time holds " said at ", or begins with it, and what comes before passes for a speaker. */
  predicate TimeSplits(speaker: string, time: string) {
    var k := Index(" " + time, SAID);
    k >= 0 && IsSpeaker(TrimSpace(speaker + " at" + (" " + time)[..k]))
  }

  predicate AtIsPlain(t: Parsed)
    requires t.Turn?
  {
    !RunsInto(t.speaker, AT) && ':' !in t.utterance && !EndsInSaid(t.speaker) && !TimeSplits(t.speaker, t.time)
  }

  /** Before the time, the first marker can only be made up of a speaker's own " said" and the " at " that follows it. */
  lemma SaidBeforeTime(speaker: string, rest: string, j: nat)
    requires !RunsInto(speaker, AT) && j < |speaker| + 3
    ensures OccursAt(speaker + AT + rest, SAID, j) <==> EndsInSaid(speaker) && j == |speaker| - 5
  {
    var content, n := speaker + AT + rest, |speaker|;
    FirstMarkerIff(speaker, AT, rest);
    hide RunsInto, Index;
    assert content[n] == ' ' && content[n + 1] == 'a' && content[n + 2] == 't' && content[n + 3] == ' ';
    assert SAID == " said" + AT;
    if OccursAt(content, SAID, j) {
      assert forall i | 0 <= i < 9 :: content[j + i] == SAID[i] by {
        assert forall i | 0 <= i < 9 :: content[j..j + 9][i] == SAID[i];
      }
      assert OccursAt(content, AT, j + 5) by {
        assert content[j + 5..j + 9] == AT;
      }
      assert j + 5 >= n;
      assert SAID[1] == 's' && SAID[2] == 'a' && SAID[3] == 'i' && SAID[4] == 'd' && SAID[0] == ' ';
      assert j == n - 5;
      assert speaker[n - 5..] == " said" by {
        assert speaker[n - 5..] == content[j..j + 5];
      }
    }
    if EndsInSaid(speaker) && j == n - 5 {
      assert content[j..j + 9] == speaker[n - 5..] + AT;
    }
  }

  /** From the space before the time on, a marker lies in the time or beyond its colon. */
  lemma SaidFromTime(w: string, rest: string, j: nat)
    ensures j <= |w| ==> (OccursAt(w + ": " + rest, SAID, j) <==> OccursAt(w, SAID, j))
  {
    var content := w + ": " + rest;
    if j + 9 <= |w| {
      assert content[j..j + 9] == w[j..j + 9];
    } else if j <= |w| && OccursAt(content, SAID, j) {
      assert content[|w|] == ':' && content[j..j + 9][|w| - j] == ':';
      assert forall i | 0 <= i < 9 :: SAID[i] != ':';
    }
  }

  lemma ShiftedOccurrence(a: string, b: string, sub: string, j: nat)
    ensures OccursAt(a + b, sub, |a| + j) <==> OccursAt(b, sub, j)
  {
    if j + |sub| <= |b| {
      assert (a + b)[|a| + j..|a| + j + |sub|] == b[j..j + |sub|];
    }
  }

  /** Up to the colon after the time a marker lies just where the time has it, when the speaker makes up none. */
  lemma SaidPlaces(speaker: string, time: string, u: string, j: nat)
    requires !RunsInto(speaker, AT) && !EndsInSaid(speaker) && j <= |speaker| + 4 + |time|
    ensures OccursAt(speaker + AT + (time + ": " + u), SAID, j)
            <==> j >= |speaker| + 3 && OccursAt(" " + time, SAID, j - |speaker| - 3)
  {
    var a, w := speaker + " at", " " + time;
    if j < |a| {
      SaidBeforeTime(speaker, time + ": " + u, j);
    } else {
      hide RunsInto, EndsInSaid, OccursAt;
      AtSplits(speaker, time, u);
      SaidFromTime(w, u, j - |a|);
      ShiftedOccurrence(a, w + ": " + u, SAID, j - |a|);
    }
  }

  lemma AtSplits(speaker: string, time: string, u: string)
    ensures speaker + AT + (time + ": " + u) == (speaker + " at") + ((" " + time) + ": " + u)
  {
  }

  /** The first place in a string that agrees, up to a bound, with one further on in another. */
  lemma FirstPlaces(content: string, w: string, sub: string, d: nat, bound: nat)
    requires forall j | 0 <= j <= bound :: OccursAt(content, sub, j) <==> j >= d && OccursAt(w, sub, j - d)
    requires forall k | OccursAt(w, sub, k) :: k + d <= bound
    ensures var idx, k := Index(content, sub), Index(w, sub); if k >= 0 then idx == d + k else idx == -1 || idx > bound
  {
    hide OccursAt;
    var idx, k := Index(content, sub), Index(w, sub);
    if k >= 0 {
      assert OccursAt(content, sub, k + d);
    }
    if 0 <= idx <= bound {
      assert OccursAt(w, sub, idx - d);
    }
  }

  /** Where the first marker is when the speaker makes up none: where the time has it, else beyond the colon. */
  lemma SaidInTime(speaker: string, time: string, u: string)
    requires !RunsInto(speaker, AT) && !EndsInSaid(speaker)
    ensures var idx, k := Index(speaker + AT + (time + ": " + u), SAID), Index(" " + time, SAID);
            if k >= 0 then idx == |speaker| + 3 + k else idx == -1 || idx > |speaker| + 4 + |time|
  {
    var content, w, bound := speaker + AT + (time + ": " + u), " " + time, |speaker| + 4 + |time|;
    forall j | 0 <= j <= bound
      ensures OccursAt(content, SAID, j) <==> j >= |speaker| + 3 && OccursAt(w, SAID, j - |speaker| - 3)
    {
      hide *;
      SaidPlaces(speaker, time, u, j);
    }
    assert forall k | OccursAt(w, SAID, k) :: k + |speaker| + 3 <= bound;
    hide RunsInto, EndsInSaid, OccursAt, Index;
    FirstPlaces(content, w, SAID, |speaker| + 3, bound);
  }

  lemma SaidEndsSpeaker(speaker: string, rest: string)
    requires !RunsInto(speaker, AT) && EndsInSaid(speaker)
    ensures Index(speaker + AT + rest, SAID) == |speaker| - 5
  {
    var idx := Index(speaker + AT + rest, SAID);
    SaidBeforeTime(speaker, rest, |speaker| - 5);
    if 0 <= idx < |speaker| - 5 {
      SaidBeforeTime(speaker, rest, idx);
    }
  }

  /** What the parser for " said at " finds in the other form. */
  lemma SaidInAtIff(t: Parsed)
    requires Printable(t) && !RunsInto(t.speaker, AT) && ':' !in t.utterance
    ensures var content := t.speaker + AT + (t.time + ": " + t.utterance);
            SplitWithMarker(content, SAID).Turn? <==> EndsInSaid(t.speaker) || TimeSplits(t.speaker, t.time)
  {
    hide RunsInto, EndsInSaid, OccursAt, IsSpeaker, SplitWithMarker, TrimSpace;
    var content, k := t.speaker + AT + (t.time + ": " + t.utterance), Index(" " + t.time, SAID);
    if EndsInSaid(t.speaker) {
      SaidEndsSpeaker(t.speaker, t.time + ": " + t.utterance);
      SpeakerCutShort(t);
    } else {
      SaidInTime(t.speaker, t.time, t.utterance);
      var idx := Index(content, SAID);
      hide Index;
      if k >= 0 {
        TimeCut(t, k);
      } else if idx >= 0 {
        BeyondColon(t, idx);
      } else {
        NothingFound(content, SAID);
      }
    }
  }

  lemma NothingFound(content: string, marker: string)
    requires Index(content, marker) == -1
    ensures !SplitWithMarker(content, marker).Turn?
  {
  }

  lemma SpeakerCutShort(t: Parsed)
    requires Printable(t) && ':' !in t.utterance && EndsInSaid(t.speaker)
    requires Index(t.speaker + AT + (t.time + ": " + t.utterance), SAID) == |t.speaker| - 5
    ensures SplitWithMarker(t.speaker + AT + (t.time + ": " + t.utterance), SAID).Turn?
  {
    var n, b, u := |t.speaker|, t.speaker + AT, t.utterance;
    var c := t.time + ": " + u;
    SaidCutOff(t.speaker);
    AtTail(b, t.time, u);
    hide Index, IsSpace, TrimSpace, SplitWithMarker, IsSpeaker, EndsInSaid;
    assert b[..n - 5] == t.speaker[..n - 5];
    FirstCut(SAID, b, c, n - 5, |b| + |t.time| - 1, |b| + |t.time|);
  }

  lemma SaidCutOff(speaker: string)
    requires IsSpeaker(speaker) && EndsInSaid(speaker)
    ensures |speaker| > 5 && IsSpeaker(TrimSpace(speaker[..|speaker| - 5]))
  {
    var n := |speaker|;
    assert speaker[n - 5..][0] == speaker[n - 5] == ' ';
    hide TrimSpace;
    PartOfSpeaker(speaker, n - 5);
  }

  lemma AtTail(b: string, time: string, u: string)
    requires time != "" && u != ""
    ensures var c := time + ": " + u;
            (b + c)[|b| + |time| - 1] == time[|time| - 1] && (b + c)[|b| + |time|] == ':' && c[|c| - 1] == u[|u| - 1]
  {
  }

  /** The time past a marker in it still ends with something that is no space. */
  lemma TimeGoesOn(time: string, k: nat)
    requires Trimmed(time) && OccursAt(" " + time, SAID, k)
    ensures k + 9 < |time| + 1
  {
    var w := " " + time;
    assert w[k..k + 9][8] == ' ' && w[|w| - 1] == time[|time| - 1];
    assert IsSpace(' ');
  }

  lemma TimeCut(t: Parsed, k: nat)
    requires Printable(t) && ':' !in t.utterance && OccursAt(" " + t.time, SAID, k)
    requires Index(t.speaker + AT + (t.time + ": " + t.utterance), SAID) == |t.speaker| + 3 + k
    ensures SplitWithMarker(t.speaker + AT + (t.time + ": " + t.utterance), SAID).Turn?
            <==> IsSpeaker(TrimSpace(t.speaker + " at" + (" " + t.time)[..k]))
  {
    var w, u := " " + t.time, t.utterance;
    TimeGoesOn(t.time, k);
    TimeTail(t.time, u);
    hide Index, TrimSpace, IsSpeaker, IsSpace, SplitWithMarker, OccursAt;
    assert t.speaker + AT + (t.time + ": " + u) == (t.speaker + " at") + w + (": " + u);
    MarkerCut(t.speaker + AT + (t.time + ": " + u), SAID, t.speaker + " at", w, ": " + u, k, |w| - 1, |w|);
  }

  lemma TimeTail(time: string, u: string)
    requires time != "" && u != ""
    ensures var w, c := " " + time, ": " + u;
            (w + c)[|w| - 1] == time[|time| - 1] && (w + c)[|w|] == ':' && c[|c| - 1] == u[|u| - 1]
  {
  }

  lemma BeyondColon(t: Parsed, idx: nat)
    requires Printable(t) && idx > |t.speaker| + 4 + |t.time|
    requires Index(t.speaker + AT + (t.time + ": " + t.utterance), SAID) == idx
    ensures !SplitWithMarker(t.speaker + AT + (t.time + ": " + t.utterance), SAID).Turn?
  {
    var content := t.speaker + AT + (t.time + ": " + t.utterance);
    var colon := |t.speaker| + 4 + |t.time|;
    assert content[colon] == ':' && content[0] == t.speaker[0] && !IsSpace(':');
    NotASpeaker(content, idx, colon);
  }

  /** Read back if and only if this holds. */
  lemma AtReadsBackIff(t: Parsed, annotated: string -> Parsed)
    requires Printable(t)
    ensures AtIsPlain(t) ==> Parse(PrintAt(t), annotated) == t
    ensures !AtIsPlain(t) && annotated(PrintAt(t)) != t ==> Parse(PrintAt(t), annotated) != t
  {
    hide IsSpeaker, Index, SplitWithMarker, SplitWithParens, RunsInto, EndsInSaid, TimeSplits;
    var content := t.speaker + AT + (t.time + ": " + t.utterance);
    Untouched(t.speaker, AT + (t.time + ": "), t.utterance);
    assert t.speaker + (AT + (t.time + ": ")) + t.utterance == content;
    hide TrimSpace;
    FirstMarkerIff(t.speaker, AT, t.time + ": " + t.utterance);
    MarkerReadsBackIff(t, AT);
    if !RunsInto(t.speaker, AT) && ':' !in t.utterance {
      SaidInAtIff(t);
    }
    OtherMarker(content, t.speaker, SAID);
    OtherThanParens(content, t.speaker);
  }

  /** Two turns, one text: a time that holds the marker tried first is read as part of the speaker. */
  lemma TimeIsMisread(s: string, a: string, b: string, u: string, annotated: string -> Parsed)
    requires var t := Turn(s + AT + a, b, u); Printable(t) && SaidIsPlain(t)
    ensures Parse(PrintAt(Turn(s, a + SAID + b, u)), annotated) == Turn(s + AT + a, b, u)
  {
    hide RunsInto, SplitWithMarker, SplitWithParens, TrimSpace, Parse;
    SaidReadsBackIff(Turn(s + AT + a, b, u), annotated);
    assert s + AT + ((a + SAID + b) + ": " + u) == (s + AT + a) + SAID + (b + ": " + u);
  }

  lemma ExampleIsPrintable()
    ensures Printable(Turn("A at b", "c", "d")) && Printable(Turn("A", "b said at c", "d"))
  {
  }

  lemma FirstTwoDiffer(s: string, sub: string)
    requires |s| >= |sub| >= 2 && forall j | 0 <= j <= |s| - |sub| :: s[j] != sub[0] || s[j + 1] != sub[1]
    ensures Index(s, sub) == -1
  {
    FirstTwoAgree(s, sub, Index(s, sub));
  }

  lemma FirstTwoAgree(s: string, sub: string, j: int)
    requires |sub| >= 2
    ensures OccursAt(s, sub, j) ==> s[j] == sub[0] && s[j + 1] == sub[1]
  {
    OccurrenceChars(s, sub, j);
  }

  lemma ExampleIsPlain()
    ensures SaidIsPlain(Turn("A at b", "c", "d"))
  {
    var start := "A at b said at";
    assert "A at b" + SAID[..|SAID| - 1] == start;
    assert forall j | 0 <= j <= 5 :: start[j] != SAID[0] || start[j + 1] != SAID[1];
    FirstTwoDiffer(start, SAID);
  }

  /** So no colon in the utterance and no marker in the speaker is not enough. */
  lemma TimeMayHoldAMarker(annotated: string -> Parsed)
    ensures var t := Turn("A", "b said at c", "d");
            Printable(t) && ':' !in t.utterance && Parse(PrintAt(t), annotated) == Turn("A at b", "c", "d")
  {
    hide Printable, SaidIsPlain, PrintAt, Parse;
    ExampleIsPrintable();
    ExampleIsPlain();
    assert "A" + AT + "b" == "A at b" && "b" + SAID + "c" == "b said at c";
    TimeIsMisread("A", "b", "c", "d", annotated);
  }

  // ----- "S (T): U"

  /** No " at " lies in the speaker and the space after it, or the utterance ends with a colon; and no "):" is in the time. */
  predicate ParensArePlain(t: Parsed)
    requires t.Turn? && t.utterance != ""
  {
    (Index(t.speaker + " ", AT) == -1 || t.utterance[|t.utterance| - 1] == ':') && Index(t.time, CLOSE) == -1
  }

  /** Up to the parenthesis a marker occurs where it does in the speaker and the space after it. */
  lemma MarkerBeforeParens(speaker: string, rest: string, marker: string, j: nat)
    requires marker == SAID || marker == AT
    ensures j <= |speaker| + 1 ==> (OccursAt(speaker + OPEN + rest, marker, j) <==> OccursAt(speaker + " ", marker, j))
  {
    var content, n := speaker + OPEN + rest, |speaker|;
    assert content[n + 1] == '(' && forall i | 0 <= i < |marker| :: marker[i] != '(';
    OccurrenceChars(content, marker, j);
    if j + |marker| <= n + 1 {
      assert content[j..j + |marker|] == (speaker + " ")[j..j + |marker|];
    }
  }

  /** What a marker's branch finds in the parenthesis form. */
  lemma MarkerInParensIff(t: Parsed, marker: string)
    requires Printable(t) && (marker == SAID || marker == AT)
    ensures var content := t.speaker + OPEN + (t.time + CLOSE + " " + t.utterance);
            SplitWithMarker(content, marker).Turn?
            <==> Index(t.speaker + " ", marker) != -1 && t.utterance[|t.utterance| - 1] != ':'
  {
    var rest := t.time + CLOSE + " " + t.utterance;
    var content := t.speaker + OPEN + rest;
    var idx, k := Index(content, marker), Index(t.speaker + " ", marker);
    if k >= 0 {
      MarkerBeforeParens(t.speaker, rest, marker, k);
    }
    if 0 <= idx <= |t.speaker| + 1 {
      MarkerBeforeParens(t.speaker, rest, marker, idx);
    }
    hide Index, IsSpeaker, SplitWithMarker;
    if k >= 0 {
      SpeakerCut(t, marker, k);
    } else if idx >= 0 {
      BeyondParens(t, marker, idx);
    } else {
      NothingFound(content, marker);
    }
  }

  lemma SpeakerCut(t: Parsed, marker: string, k: nat)
    requires Printable(t) && (marker == SAID || marker == AT) && OccursAt(t.speaker + " ", marker, k)
    requires Index(t.speaker + OPEN + (t.time + CLOSE + " " + t.utterance), marker) == k
    ensures SplitWithMarker(t.speaker + OPEN + (t.time + CLOSE + " " + t.utterance), marker).Turn?
            <==> t.utterance[|t.utterance| - 1] != ':'
  {
    var rest := t.time + CLOSE + " " + t.utterance;
    MarkerCutOff(t.speaker, marker, k);
    ParensTail(t.speaker + " ", t.time, t.utterance);
    assert !IsSpace('(');
    OpenSplits(t.speaker, rest);
    CutInSpeaker(marker, t.speaker + " ", "(" + rest, k, |t.time| + 2);
  }

  lemma CutInSpeaker(marker: string, s: string, c: string, k: nat, q: nat)
    requires Index(s + c, marker) == k > 0 && k + |marker| <= |s| && IsSpeaker(TrimSpace(s[..k]))
    requires 0 < q < |c| && c[0] == '(' && c[q] == ':' && !IsSpace(c[|c| - 1])
    ensures SplitWithMarker(s + c, marker).Turn? <==> c[|c| - 1] != ':'
  {
    assert !IsSpace('(');
    hide Index, IsSpace, TrimSpace, SplitWithMarker, IsSpeaker;
    FirstCut(marker, s, c, k, |s|, |s| + q);
  }

  lemma MarkerCutOff(speaker: string, marker: string, k: nat)
    requires IsSpeaker(speaker) && (marker == SAID || marker == AT) && OccursAt(speaker + " ", marker, k)
    ensures 0 < k <= |speaker| && k + |marker| <= |speaker| + 1 && IsSpeaker(TrimSpace((speaker + " ")[..k]))
  {
    OccurrenceChars(speaker + " ", marker, k);
    assert (speaker + " ")[k] == marker[0] == ' ';
    hide TrimSpace;
    PartOfSpeaker(speaker, k);
    assert (speaker + " ")[..k] == speaker[..k];
  }

  lemma OpenSplits(speaker: string, rest: string)
    ensures speaker + OPEN + rest == (speaker + " ") + ("(" + rest)
  {
  }

  lemma ParensTail(s: string, time: string, u: string)
    requires u != ""
    ensures var c := "(" + (time + CLOSE + " " + u);
            c[0] == '(' && |c| > |time| + 2 && c[|time| + 2] == ':' && c[|c| - 1] == u[|u| - 1]
  {
  }

  lemma BeyondParens(t: Parsed, marker: string, idx: nat)
    requires Printable(t) && idx > |t.speaker| + 1
    requires Index(t.speaker + OPEN + (t.time + CLOSE + " " + t.utterance), marker) == idx
    ensures !SplitWithMarker(t.speaker + OPEN + (t.time + CLOSE + " " + t.utterance), marker).Turn?
  {
    var content, n := t.speaker + OPEN + (t.time + CLOSE + " " + t.utterance), |t.speaker|;
    assert content[n + 1] == '(' && content[0] == t.speaker[0] && !IsSpace('(');
    NotASpeaker(content, idx, n + 1);
  }

  lemma SaidHoldsAt(s: string)
    requires Index(s, SAID) != -1
    ensures Index(s, AT) != -1
  {
    var k := Index(s, SAID);
    assert s[k + 5..k + 9] == s[k..k + 9][5..] == AT;
    assert OccursAt(s, AT, k + 5);
  }

  /** A speaker holds no parenthesis, so the first " (" is the one after it. */
  lemma OpensAfterSpeaker(speaker: string, rest: string)
    requires IsSpeaker(speaker)
    ensures Index(speaker + OPEN + rest, OPEN) == |speaker|
  {
    var content := speaker + OPEN + rest;
    assert OccursAt(content, OPEN, |speaker|);
    forall j | 0 <= j < |speaker|
      ensures !OccursAt(content, OPEN, j)
    {
      assert content[j..j + 2][1] == content[j + 1] && OPEN[1] == '(';
      assert j + 1 < |speaker| ==> content[j + 1] == speaker[j + 1];
    }
  }

  /** Read back if and only if this holds. */
  lemma ParensFormReadsBackIff(t: Parsed, annotated: string -> Parsed)
    requires Printable(t)
    ensures ParensArePlain(t) ==> Parse(PrintParens(t), annotated) == t
    ensures !ParensArePlain(t) && annotated(PrintParens(t)) != t ==> Parse(PrintParens(t), annotated) != t
  {
    hide IsSpeaker, Index, SplitWithMarker, SplitWithParens;
    var content := t.speaker + OPEN + (t.time + CLOSE + " " + t.utterance);
    Untouched(t.speaker, OPEN + (t.time + CLOSE + " "), t.utterance);
    assert t.speaker + (OPEN + (t.time + CLOSE + " ")) + t.utterance == content;
    hide TrimSpace;
    OpensAfterSpeaker(t.speaker, t.time + CLOSE + " " + t.utterance);
    ParensReadBackIff(t);
    MarkerInParensIff(t, SAID);
    MarkerInParensIff(t, AT);
    if Index(t.speaker + " ", SAID) != -1 {
      SaidHoldsAt(t.speaker + " ");
    }
    OtherMarker(content, t.speaker, SAID);
    OtherMarker(content, t.speaker, AT);
  }
}
