/**
 The Markdown code-span printer, and a reader that follows the rule for code spans of
 CommonMark 0.31.2, section 6.1.
 */
module CodeSpan {
  import opened Prelude

  const TICK := '`'

  /** Both `\r\n` and `\n` become a space; a carriage return on its own stays. */
  function UnbreakLines(s: string): string {
    if s == [] then []
    else if "\r\n" <= s then " " + UnbreakLines(s[2..])
    else if s[0] == '\n' then " " + UnbreakLines(s[1..])
    else [s[0]] + UnbreakLines(s[1..])
  }

  function LeadingTicks(s: string): (n: nat)
    ensures n <= |s|
    ensures forall i :: 0 <= i < n ==> s[i] == TICK
    ensures n < |s| ==> s[n] != TICK
  {
    if s != [] && s[0] == TICK then 1 + LeadingTicks(s[1..]) else 0
  }

  /** The length of the longest match of the pattern for one or more backticks. */
  function LongestRun(s: string): nat {
    if s == [] then 0
    else if s[0] == TICK then Max(LeadingTicks(s), LongestRun(s[LeadingTicks(s)..]))
    else LongestRun(s[1..])
  }

  predicate TickAtAnEnd(s: string) {
    s != [] && (s[0] == TICK || s[|s| - 1] == TICK)
  }

  function Padded(content: string): string {
    if TickAtAnEnd(content) then " " + content + " " else content
  }

  function Fence(content: string): string {
    Repeat(TICK, LongestRun(content) + 1)
  }

  function MarkdownCodeSpan(value: string): string {
    var content := UnbreakLines(value);
    Fence(content) + Padded(content) + Fence(content)
  }

  // ---- the reader ----

  datatype Span = Span(content: string, rest: string)

  /** Where the first backtick string of length `n` starts. */
  function FindClosing(s: string, n: nat): (r: Option<nat>)
    ensures r.Some? ==> r.value + n <= |s|
  {
    if s == [] then None
    else if s[0] == TICK && LeadingTicks(s) == n then Some(0)
    else
      var skip := if s[0] == TICK then LeadingTicks(s) else 1;
      match FindClosing(s[skip..], n)
      case None => None
      case Some(i) => Some(skip + i)
  }

  /** Every line ending, a lone carriage return included, becomes a space. */
  function LineEndingsToSpaces(s: string): string {
    if s == [] then []
    else if "\r\n" <= s then " " + LineEndingsToSpaces(s[2..])
    else if s[0] == '\n' || s[0] == '\r' then " " + LineEndingsToSpaces(s[1..])
    else [s[0]] + LineEndingsToSpaces(s[1..])
  }

  predicate AllSpaces(s: string) {
    forall i :: 0 <= i < |s| ==> s[i] == ' '
  }

  /** Both ends are spaces and something in between is not. */
  predicate Strippable(s: string) {
    s != [] && s[0] == ' ' && s[|s| - 1] == ' ' && !AllSpaces(s)
  }

  function StripOneSpace(s: string): string {
    if Strippable(s) then s[1..|s| - 1] else s
  }

  /** The code span that starts with the backtick string at the start of `text`, if it is closed. */
  function ReadCodeSpan(text: string): Option<Span> {
    var n := LeadingTicks(text);
    if n == 0 then None
    else
      match FindClosing(text[n..], n)
      case None => None
      case Some(i) =>
        Some(Span(StripOneSpace(LineEndingsToSpaces(text[n..n + i])), text[n + i + n..]))
  }

  // ---- what printing a value and reading it back gives ----

  lemma {:induction false} LeadingTicksOf(n: nat, s: string)
    requires s == [] || s[0] != TICK
    ensures LeadingTicks(Repeat(TICK, n) + s) == n
  {
    if n > 0 {
      assert (Repeat(TICK, n) + s)[1..] == Repeat(TICK, n - 1) + s;
      LeadingTicksOf(n - 1, s);
    } else {
      assert Repeat(TICK, n) + s == s;
    }
  }

  lemma {:induction false} LeadingTicksInside(w: string, tail: string)
    requires LeadingTicks(w) < |w|
    ensures LeadingTicks(w + tail) == LeadingTicks(w)
  {
    if w[0] == TICK {
      Behind(w, tail, 1);
      LeadingTicksInside(w[1..], tail);
    }
  }

  lemma Behind<T>(w: seq<T>, tail: seq<T>, k: nat)
    requires k <= |w|
    ensures (w + tail)[k..] == w[k..] + tail
  {
  }

  /** A fence longer than every run of backticks in `w` is found right behind `w`. */
  lemma {:induction false} FenceCloses(w: string, n: nat, rest: string)
    requires n > LongestRun(w)
    requires w == [] || w[|w| - 1] != TICK
    requires rest == [] || rest[0] != TICK
    ensures FindClosing(w + (Repeat(TICK, n) + rest), n) == Some(|w|)
  {
    var tail := Repeat(TICK, n) + rest;
    if w == [] {
      LeadingTicksOf(n, rest);
      assert w + tail == tail;
    } else {
      var skip := if w[0] == TICK then LeadingTicks(w) else 1;
      if w[0] == TICK {
        LeadingTicksInside(w, tail);
      }
      Behind(w, tail, skip);
      FenceCloses(w[skip..], n, rest);
    }
  }

  lemma {:induction false} SpaceAddsNoRun(s: string)
    ensures LongestRun(s + " ") == LongestRun(s)
  {
    if s == [] {
      assert (s + " ")[1..] == [];
    } else {
      var skip := if s[0] == TICK then LeadingTicks(s) else 1;
      Behind(s, " ", skip);
      SpaceAddsNoRun(s[skip..]);
      assert s[0] == TICK ==> LeadingTicks(s + " ") == skip by {
        assert (s + " ")[|s|] == ' ';
        assert forall i :: 0 <= i < |s| ==> (s + " ")[i] == s[i];
      }
    }
  }

  lemma PaddingAddsNoRun(c: string)
    ensures LongestRun(Padded(c)) == LongestRun(c)
  {
    SpaceAddsNoRun(c);
    assert (" " + c + " ")[1..] == c + " ";
  }

  lemma FencedParts(f: string, w: string, rest: string)
    ensures f + w + f + rest == f + (w + (f + rest))
    ensures (f + (w + (f + rest)))[|f|..] == w + (f + rest)
    ensures (f + (w + (f + rest)))[|f|..|f| + |w|] == w
    ensures (f + (w + (f + rest)))[|f| + |w| + |f|..] == rest
  {
  }

  lemma StartsWith(w: string, tail: string)
    requires w != []
    ensures w + tail != [] && (w + tail)[0] == w[0]
  {
  }

  lemma ReadsBetween(text: string, n: nat, w: string, rest: string)
    requires LeadingTicks(text) == n > 0
    requires FindClosing(text[n..], n) == Some(|w|)
    requires text[n..n + |w|] == w && text[n + |w| + n..] == rest
    ensures ReadCodeSpan(text) == Some(Span(StripOneSpace(LineEndingsToSpaces(w)), rest))
  {
    hide LeadingTicks, FindClosing, StripOneSpace, LineEndingsToSpaces;
  }

  /** The reader finds exactly what a long enough fence encloses. */
  lemma ReadsFenced(n: nat, w: string, rest: string)
    requires n > LongestRun(w)
    requires w != [] && w[0] != TICK && w[|w| - 1] != TICK
    requires rest == [] || rest[0] != TICK
    ensures var f := Repeat(TICK, n);
            ReadCodeSpan(f + w + f + rest) == Some(Span(StripOneSpace(LineEndingsToSpaces(w)), rest))
  {
    var f := Repeat(TICK, n);
    FencedParts(f, w, rest);
    hide *;
    StartsWith(w, f + rest);
    LeadingTicksOf(n, w + (f + rest));
    FenceCloses(w, n, rest);
    ReadsBetween(f + w + f + rest, n, w, rest);
  }

  lemma ReadsThePaddedContent(value: string, rest: string)
    requires UnbreakLines(value) != []
    requires rest == [] || rest[0] != TICK
    ensures ReadCodeSpan(MarkdownCodeSpan(value) + rest)
         == Some(Span(StripOneSpace(LineEndingsToSpaces(Padded(UnbreakLines(value)))), rest))
  {
    var c := UnbreakLines(value);
    PaddingAddsNoRun(c);
    hide UnbreakLines, LongestRun, ReadCodeSpan, StripOneSpace, LineEndingsToSpaces;
    ReadsFenced(LongestRun(c) + 1, Padded(c), rest);
  }

  lemma {:induction false} NoFeeds(s: string)
    ensures '\n' !in UnbreakLines(s)
  {
    if s == [] {
    } else {
      NoFeeds(s[if "\r\n" <= s then 2 else 1..]);
    }
  }

  lemma {:induction false} NothingToUnbreak(s: string)
    requires '\n' !in s
    ensures UnbreakLines(s) == s
  {
    if s == [] {
    } else {
      assert forall i :: 0 <= i < |s| ==> s[i] != '\n';
      NothingToUnbreak(s[1..]);
      assert s == [s[0]] + s[1..];
    }
  }

  lemma {:induction false} SpacesHoldNoReturn(s: string)
    ensures '\r' !in LineEndingsToSpaces(s)
    ensures '\n' !in s && '\r' !in s ==> LineEndingsToSpaces(s) == s
  {
    if s == [] {
    } else {
      SpacesHoldNoReturn(s[if "\r\n" <= s then 2 else 1..]);
      assert s == [s[0]] + s[1..];
    }
  }

  lemma PaddedCharacters(c: string, x: char)
    requires x != ' '
    ensures x in Padded(c) <==> x in c
  {
  }

  lemma StripKeeps(s: string, x: char)
    requires x !in s
    ensures x !in StripOneSpace(s)
  {
  }

  lemma PaddingIsStripped(c: string)
    requires TickAtAnEnd(c)
    ensures StripOneSpace(Padded(c)) == c
  {
    var p := " " + c + " ";
    assert p[1] == c[0] && p[|p| - 2] == c[|c| - 1];
    assert p[1..|p| - 1] == c;
  }

  /** An empty value prints a pair of backticks, which never reads as an empty span. */
  lemma EmptyIsNeverRead(text: string)
    ensures ReadCodeSpan(text).Some? ==> ReadCodeSpan(text).value.content != []
  {
    var n := LeadingTicks(text);
    if n > 0 && n < |text| {
      var body := text[n..];
      assert body[0] != TICK;
      match FindClosing(body, n)
      case None =>
      case Some(i) =>
        assert i > 0;
        SpacesNonempty(body[..i]);
        assert text[n..n + i] == body[..i];
    }
  }

  lemma SpacesNonempty(s: string)
    requires s != []
    ensures LineEndingsToSpaces(s) != []
    ensures StripOneSpace(LineEndingsToSpaces(s)) != []
  {
    var t := LineEndingsToSpaces(s);
    if Strippable(t) && |t| <= 2 {
      assert AllSpaces(t);
    }
  }

  /**
   A printed value reads back as its content, with the text behind it left over, if and only
   if the content is not empty, holds no lone carriage return, and is not both edged with
   spaces and more than spaces.
   */
  lemma CodeSpanReadsBack(value: string, rest: string)
    requires rest == [] || rest[0] != TICK
    ensures var c := UnbreakLines(value);
            ReadCodeSpan(MarkdownCodeSpan(value) + rest) == Some(Span(c, rest))
            <==> c != [] && '\r' !in c && !Strippable(c)
  {
    var c := UnbreakLines(value);
    if c == [] {
      EmptyIsNeverRead(MarkdownCodeSpan(value) + rest);
    } else {
      ReadsThePaddedContent(value, rest);
      NoFeeds(value);
      SpacesHoldNoReturn(Padded(c));
      PaddedCharacters(c, '\n');
      PaddedCharacters(c, '\r');
      if '\r' in c {
        StripKeeps(LineEndingsToSpaces(Padded(c)), '\r');
      } else if TickAtAnEnd(c) {
        PaddingIsStripped(c);
      }
    }
  }

  /** On text without line breaks the printer loses nothing else. */
  lemma SingleLineReadsBack(value: string, rest: string)
    requires rest == [] || rest[0] != TICK
    requires '\r' !in value && '\n' !in value
    ensures ReadCodeSpan(MarkdownCodeSpan(value) + rest) == Some(Span(value, rest))
            <==> value != [] && !Strippable(value)
  {
    NothingToUnbreak(value);
    CodeSpanReadsBack(value, rest);
  }

  // ---- what is printed, without naming the printer's steps ----

  lemma {:induction false} SameText(s: string)
    ensures LineEndingsToSpaces(UnbreakLines(s)) == LineEndingsToSpaces(s)
    ensures s != [] && s[0] != '\n' ==> UnbreakLines(s) != [] && UnbreakLines(s)[0] == if "\r\n" <= s then ' ' else s[0]
  {
    if s == [] {
    } else if "\r\n" <= s {
      SameText(s[2..]);
      Unfold(' ', UnbreakLines(s[2..]));
    } else if s[0] == '\n' {
      SameText(s[1..]);
      Unfold(' ', UnbreakLines(s[1..]));
    } else {
      SameText(s[1..]);
      NoFeeds(s[1..]);
      Unfold(s[0], UnbreakLines(s[1..]));
    }
  }

  /** In a text without line feeds a first character is converted on its own. */
  lemma Unfold(c: char, t: string)
    requires c != '\n' && (c == '\r' ==> t == [] || t[0] != '\n')
    ensures LineEndingsToSpaces([c] + t) == [if c == '\r' then ' ' else c] + LineEndingsToSpaces(t)
  {
    var s := [c] + t;
    assert s[1..] == t;
    assert t != [] ==> |s| > 1 && s[1] == t[0];
  }

  lemma {:induction false} WithoutFeeds(s: string)
    requires '\n' !in s
    ensures |LineEndingsToSpaces(s)| == |s|
    ensures forall i :: 0 <= i < |s| ==> LineEndingsToSpaces(s)[i] == if s[i] == '\r' then ' ' else s[i]
  {
    if s != [] {
      var t := s[1..];
      WithoutFeeds(t);
      assert forall i :: 0 <= i < |t| ==> t[i] == s[i + 1];
      assert s == [s[0]] + t && (t != [] ==> t[0] in s);
      Unfold(s[0], t);
    }
  }

  lemma TextOfEnds(c: string)
    requires '\n' !in c && TickAtAnEnd(c)
    ensures var t := LineEndingsToSpaces(c); |t| == |c| && (t[0] == TICK || t[|t| - 1] == TICK)
  {
    WithoutFeeds(c);
    hide LineEndingsToSpaces;
  }

  lemma TextOfPadded(c: string)
    requires '\n' !in c && c != []
    ensures LineEndingsToSpaces(" " + c + " ") == " " + LineEndingsToSpaces(c) + " "
  {
    var p := " " + c + " ";
    assert '\n' !in p;
    WithoutFeeds(c);
    WithoutFeeds(p);
    hide LineEndingsToSpaces;
  }

  lemma PaddedTextStrips(t: string)
    requires t != [] && (t[0] == TICK || t[|t| - 1] == TICK)
    ensures StripOneSpace(" " + t + " ") == t && !Strippable(t)
  {
    var p := " " + t + " ";
    assert p[1] == t[0] && p[|p| - 2] == t[|t| - 1];
    assert p[1..|p| - 1] == t;
  }

  lemma PaddedIsStrippedToText(c: string)
    requires '\n' !in c && TickAtAnEnd(c)
    ensures StripOneSpace(LineEndingsToSpaces(Padded(c))) == LineEndingsToSpaces(c) && !Strippable(LineEndingsToSpaces(c))
  {
    TextOfEnds(c);
    TextOfPadded(c);
    PaddedTextStrips(LineEndingsToSpaces(c));
    hide LineEndingsToSpaces, StripOneSpace, Strippable;
  }

  /**
   A printed value reads back as the text it stands for, every kind of line ending a space, if and only
   if it is not empty and that text is not both edged with spaces and more than spaces.
   */
  lemma CodeSpanReadsAsText(value: string, rest: string)
    requires rest == [] || rest[0] != TICK
    ensures ReadCodeSpan(MarkdownCodeSpan(value) + rest) == Some(Span(LineEndingsToSpaces(value), rest))
            <==> value != [] && !Strippable(LineEndingsToSpaces(value))
  {
    var c := UnbreakLines(value);
    SameText(value);
    NoFeeds(value);
    if value == [] {
      EmptyIsNeverRead(MarkdownCodeSpan(value) + rest);
    } else {
      NonemptyText(value);
      ReadsThePaddedContent(value, rest);
      hide ReadCodeSpan, MarkdownCodeSpan, UnbreakLines, LineEndingsToSpaces;
      if TickAtAnEnd(c) {
        PaddedIsStrippedToText(c);
      } else {
        StripChanges(LineEndingsToSpaces(c));
      }
    }
  }

  lemma NonemptyText(value: string)
    requires value != []
    ensures UnbreakLines(value) != []
  {
  }

  lemma StripChanges(t: string)
    ensures StripOneSpace(t) == t <==> !Strippable(t)
  {
    if Strippable(t) {
      assert |StripOneSpace(t)| != |t|;
    }
  }

  /** `n` backticks in a row from position `i` on. */
  ghost predicate TicksFrom(s: string, i: nat, n: nat) {
    i + n <= |s| && forall j :: i <= j < i + n ==> s[j] == TICK
  }

  ghost predicate HasRun(s: string, n: nat) {
    exists i: nat :: TicksFrom(s, i, n)
  }

  lemma TicksBehind(s: string, k: nat, i: nat, n: nat)
    requires k <= |s|
    ensures TicksFrom(s[k..], i, n) <==> TicksFrom(s, k + i, n)
  {
    var t := s[k..];
    assert forall j :: 0 <= j < |t| ==> t[j] == s[k + j];
    if TicksFrom(t, i, n) {
      forall j | k + i <= j < k + i + n ensures s[j] == TICK {
        assert t[j - k] == s[j];
      }
    }
  }

  lemma {:induction false} RunAtMost(s: string, i: nat, n: nat)
    requires TicksFrom(s, i, n)
    ensures n <= LongestRun(s)
  {
    if n > 0 {
      var m := LeadingTicks(s);
      if s[0] != TICK {
        assert i > 0;
        TicksBehind(s, 1, i - 1, n);
        RunAtMost(s[1..], i - 1, n);
      } else if i >= m {
        TicksBehind(s, m, i - m, n);
        RunAtMost(s[m..], i - m, n);
      } else {
        assert m < |s| ==> s[m] != TICK;
      }
    }
  }

  lemma {:induction false} RunExists(s: string) returns (i: nat)
    ensures TicksFrom(s, i, LongestRun(s))
  {
    if s == [] || (s[0] == TICK && LeadingTicks(s) == LongestRun(s)) {
      i := 0;
    } else {
      var skip := if s[0] == TICK then LeadingTicks(s) else 1;
      var j := RunExists(s[skip..]);
      TicksBehind(s, skip, j, LongestRun(s));
      i := skip + j;
    }
  }

  /** The fence is one backtick longer than the longest run inside, and so the shortest that no run can close. */
  lemma FenceIsOneLonger(content: string)
    ensures var fence := Fence(content);
            && |fence| >= 1 && (forall i :: 0 <= i < |fence| ==> fence[i] == '`')
            && HasRun(content, |fence| - 1) && !HasRun(content, |fence|)
  {
    var at := RunExists(content);
    assert TicksFrom(content, at, |Fence(content)| - 1);
    if HasRun(content, |Fence(content)|) {
      var i: nat :| TicksFrom(content, i, |Fence(content)|);
      RunAtMost(content, i, |Fence(content)|);
    }
  }
}
