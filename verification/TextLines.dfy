/**
 Splitting text into lines: the way `str.splitlines` does with the whole text at hand, and the way
 `_lines` does it from chunks. The line breaks are a parameter, because a text file is iterated by
 fewer of them; "\r\n" is one break wherever '\r' and '\n' are breaks.
 */
module TextLines {
  import opened Chunks

  type Breaks = b: set<char> | '\r' in b && '\n' in b witness {'\r', '\n'}

  /** The breaks of `str.splitlines`. */
  const SPLITLINES: Breaks :=
    {'\n', '\r', '\U{0b}', '\U{0c}', '\U{1c}', '\U{1d}', '\U{1e}', '\U{85}', '\U{2028}', '\U{2029}'}

  /** How many characters the first line has before its break. */
  function Content(breaks: Breaks, s: string): (n: nat)
    ensures n <= |s|
    ensures forall i :: 0 <= i < n ==> s[i] !in breaks
    ensures n < |s| ==> s[n] in breaks
  {
    if s == "" || s[0] in breaks then 0 else 1 + Content(breaks, s[1..])
  }

  /** How many characters the first line has with its break. */
  function Extent(breaks: Breaks, s: string): (n: nat)
    ensures Content(breaks, s) <= n <= |s|
    ensures s != "" ==> n > 0
  {
    var c := Content(breaks, s);
    if c == |s| then c
    else if s[c] == '\r' && c + 1 < |s| && s[c + 1] == '\n' then c + 2
    else c + 1
  }

  /** `s.splitlines()`. */
  function SplitLines(breaks: Breaks, s: string): seq<string> {
    if s == "" then []
    else [s[..Content(breaks, s)]] + SplitLines(breaks, s[Extent(breaks, s)..])
  }

  /** `s.splitlines(keepends=True)`. */
  function SplitKeep(breaks: Breaks, s: string): (lines: seq<string>)
    ensures s != "" ==> lines != []
  {
    if s == "" then []
    else [s[..Extent(breaks, s)]] + SplitKeep(breaks, s[Extent(breaks, s)..])
  }

  /** `s.rstrip(...)` of the break characters. */
  function StripBreaks(breaks: Breaks, s: string): string {
    if s != "" && s[|s| - 1] in breaks then StripBreaks(breaks, s[..|s| - 1]) else s
  }

  function StripAll(breaks: Breaks, lines: seq<string>): seq<string> {
    if lines == [] then [] else [StripBreaks(breaks, lines[0])] + StripAll(breaks, lines[1..])
  }

  /** Stripping the breaks of a kept line gives the line: its own break is all there is to strip. */
  lemma StripFirst(breaks: Breaks, s: string)
    ensures StripBreaks(breaks, s[..Extent(breaks, s)]) == s[..Content(breaks, s)]
  {
    var c, n := Content(breaks, s), Extent(breaks, s);
    assert s[..n][..c] == s[..c];
    assert StripBreaks(breaks, s[..c]) == s[..c];
    if n > c {
      assert s[..c + 1][..c] == s[..c];
      assert StripBreaks(breaks, s[..c + 1]) == s[..c];
      if n == c + 2 {
        assert s[..n][..c + 1] == s[..c + 1];
      }
    }
  }

  lemma {:induction false} StripKept(breaks: Breaks, s: string)
    ensures StripAll(breaks, SplitKeep(breaks, s)) == SplitLines(breaks, s)
  {
    if s != "" {
      StripFirst(breaks, s);
      StripKept(breaks, s[Extent(breaks, s)..]);
    }
  }

  /** A first line that ends before the text at hand ends is not changed by more text. */
  lemma {:induction false} ContentExtends(breaks: Breaks, s: string, t: string)
    requires Content(breaks, s) < |s|
    ensures Content(breaks, s + t) == Content(breaks, s)
  {
    if s[0] !in breaks {
      assert (s + t)[1..] == s[1..] + t;
      ContentExtends(breaks, s[1..], t);
    }
  }

  lemma OneLine(breaks: Breaks, s: string)
    requires s != "" && Extent(breaks, s) == |s|
    ensures SplitKeep(breaks, s) == [s]
  {
    assert s[..|s|] == s;
    assert SplitKeep(breaks, s[|s|..]) == [];
  }

  /** All kept lines but the last are lines of every longer text; the last one goes on. */
  lemma {:induction false} LastLineGoesOn(breaks: Breaks, s: string, t: string)
    requires s != ""
    ensures var kept := SplitKeep(breaks, s);
      && var last := |kept| - 1;
      && SplitKeep(breaks, kept[last]) == [kept[last]]
      && SplitLines(breaks, s + t) == StripAll(breaks, kept[..last]) + SplitLines(breaks, kept[last] + t)
  {
    var n := Extent(breaks, s);
    var kept := SplitKeep(breaks, s);
    if n < |s| {
      LastLineGoesOn(breaks, s[n..], t);
      FirstLineStays(breaks, s, t);
      var rest := SplitKeep(breaks, s[n..]);
      var last := rest[|rest| - 1];
      StripInit(breaks, s[..n], rest);
      Associative([s[..Content(breaks, s)]], StripAll(breaks, rest[..|rest| - 1]), SplitLines(breaks, last + t));
    } else {
      OneLine(breaks, s);
    }
  }

  lemma StripInit(breaks: Breaks, first: string, rest: seq<string>)
    requires rest != []
    ensures var kept := [first] + rest;
      StripAll(breaks, kept[..|kept| - 1]) == [StripBreaks(breaks, first)] + StripAll(breaks, rest[..|rest| - 1])
  {
    var init := ([first] + rest)[..|rest|];
    assert init[1..] == rest[..|rest| - 1];
  }

  lemma SplitIs(breaks: Breaks, s: string, line: string, rest: string)
    requires s != "" && line == s[..Content(breaks, s)] && rest == s[Extent(breaks, s)..]
    ensures SplitLines(breaks, s) == [line] + SplitLines(breaks, rest)
  {
  }

  lemma FirstLineStays(breaks: Breaks, s: string, t: string)
    requires Extent(breaks, s) < |s|
    ensures SplitLines(breaks, s + t) == [s[..Content(breaks, s)]] + SplitLines(breaks, s[Extent(breaks, s)..] + t)
    ensures StripBreaks(breaks, s[..Extent(breaks, s)]) == s[..Content(breaks, s)]
  {
    var n := Extent(breaks, s);
    ContentExtends(breaks, s, t);
    StripFirst(breaks, s);
    assert (s + t)[n..] == s[n..] + t;
    assert (s + t)[..Content(breaks, s)] == s[..Content(breaks, s)];
    SplitIs(breaks, s + t, s[..Content(breaks, s)], s[n..] + t);
  }

  // ----- what a split is

  predicate FreeOf(breaks: Breaks, s: string) {
    forall i :: 0 <= i < |s| ==> s[i] !in breaks
  }

  predicate IsBreak(breaks: Breaks, end: string) {
    end == "\r\n" || (|end| == 1 && end[0] in breaks)
  }

  /** Lines and their ends, one after the other. */
  function Joined(lines: seq<string>, ends: seq<string>): string
    requires |lines| == |ends|
  {
    if lines == [] then "" else (lines[0] + ends[0]) + Joined(lines[1..], ends[1..])
  }

  /** A line that holds no break and ends with one; the last line may end with the text. */
  predicate IsLine(breaks: Breaks, line: string, end: string, last: bool) {
    FreeOf(breaks, line) && (IsBreak(breaks, end) || (last && end == "" && line != ""))
  }

  /** A '\r' and the '\n' right after it are one break. */
  predicate CutsABreak(end: string, next: string) {
    end == "\r" && next != "" && next[0] == '\n'
  }

  /** The lines with their ends make up the text, and no "\r\n" is taken apart. */
  predicate IsSplit(breaks: Breaks, lines: seq<string>, ends: seq<string>, text: string) {
    && |lines| == |ends| && Joined(lines, ends) == text
    && (forall i :: 0 <= i < |lines| ==> IsLine(breaks, lines[i], ends[i], i == |lines| - 1))
    && (forall i :: 0 < i < |lines| ==> !CutsABreak(ends[i - 1], lines[i] + ends[i]))
  }

  /** The text from a line's end on tells where the line ends. */
  lemma LineIsFirst(breaks: Breaks, line: string, end: string, rest: string)
    requires IsLine(breaks, line, end, rest == "") && !CutsABreak(end, rest)
    ensures var s := (line + end) + rest;
      && s != "" && Content(breaks, s) == |line| && Extent(breaks, s) == |line| + |end|
      && s[..|line|] == line && s[|line|..|line| + |end|] == end && s[|line| + |end|..] == rest
  {
    var s := (line + end) + rest;
    var n := |line|;
    assert s == line + (end + rest);
    assert forall i :: 0 <= i < n ==> s[i] == line[i];
    if end == "" {
      assert s == line;
    } else {
      assert s[n] == end[0] && s[n] in breaks;
      assert Content(breaks, s) == n;
      if |end| == 1 && end[0] == '\r' && rest != "" {
        assert s[n + 1] == rest[0] && end == "\r" && rest == [rest[0]] + rest[1..];
      } else if |end| == 2 {
        assert s[n + 1] == '\n';
      }
    }
  }

  lemma SplitOfRest(breaks: Breaks, lines: seq<string>, ends: seq<string>, text: string)
    requires lines != [] && IsSplit(breaks, lines, ends, text)
    ensures var rest := Joined(lines[1..], ends[1..]);
      && IsSplit(breaks, lines[1..], ends[1..], rest) && text == (lines[0] + ends[0]) + rest
      && IsLine(breaks, lines[0], ends[0], rest == "") && !CutsABreak(ends[0], rest)
  {
    var more, moreEnds := lines[1..], ends[1..];
    var rest := Joined(more, moreEnds);
    assert forall i :: 0 <= i < |more| ==> more[i] == lines[i + 1] && moreEnds[i] == ends[i + 1];
    assert IsLine(breaks, lines[0], ends[0], 0 == |lines| - 1);
    if more != [] {
      var first := more[0] + moreEnds[0];
      assert IsLine(breaks, lines[1], ends[1], 1 == |lines| - 1);
      assert first != "" && rest == first + Joined(more[1..], moreEnds[1..]);
      assert !CutsABreak(ends[1 - 1], lines[1] + ends[1]);
      assert rest[0] == first[0];
    }
  }

  lemma FirstSplitOff(breaks: Breaks, line: string, end: string, rest: string, text: string)
    requires IsLine(breaks, line, end, rest == "") && !CutsABreak(end, rest) && text == (line + end) + rest
    ensures SplitLines(breaks, text) == [line] + SplitLines(breaks, rest)
    ensures SplitEnds(breaks, text) == [end] + SplitEnds(breaks, rest)
  {
    LineIsFirst(breaks, line, end, rest);
  }

  /** A text has one split only. */
  lemma {:induction false} OnlyOneSplit(breaks: Breaks, lines: seq<string>, ends: seq<string>, text: string)
    requires IsSplit(breaks, lines, ends, text)
    ensures lines == SplitLines(breaks, text) && ends == SplitEnds(breaks, text)
    decreases |lines|
  {
    if lines != [] {
      var line, end, more, moreEnds := lines[0], ends[0], lines[1..], ends[1..];
      assert lines == [line] + more && ends == [end] + moreEnds;
      SplitOfRest(breaks, lines, ends, text);
      var rest := Joined(more, moreEnds);
      FirstSplitOff(breaks, line, end, rest, text);
      OnlyOneSplit(breaks, more, moreEnds, rest);
    }
  }

  /** The breaks at the ends of the lines of `SplitLines`. */
  function SplitEnds(breaks: Breaks, s: string): seq<string> {
    if s == "" then []
    else [s[Content(breaks, s)..Extent(breaks, s)]] + SplitEnds(breaks, s[Extent(breaks, s)..])
  }

  lemma FirstLineIsOne(breaks: Breaks, s: string)
    requires s != ""
    ensures var c, n := Content(breaks, s), Extent(breaks, s);
      && IsLine(breaks, s[..c], s[c..n], n == |s|) && s == (s[..c] + s[c..n]) + s[n..]
      && !CutsABreak(s[c..n], s[n..])
  {
    var c, n := Content(breaks, s), Extent(breaks, s);
    TakenApart(s, c, n);
    assert forall i :: 0 <= i < c ==> s[..c][i] == s[i];
    BreakAt(breaks, s, c, n);
  }

  lemma BreakAt(breaks: Breaks, s: string, c: nat, n: nat)
    requires s != "" && c == Content(breaks, s) && n == Extent(breaks, s)
    ensures c < |s| ==> IsBreak(breaks, s[c..n])
    ensures !CutsABreak(s[c..n], s[n..])
  {
    var end := s[c..n];
    if n == c + 2 {
      assert end == "\r\n";
    } else if c < |s| {
      assert |end| == 1 && end[0] == s[c];
    }
  }

  lemma TakenApart(s: string, c: nat, n: nat)
    requires c <= n <= |s|
    ensures s == (s[..c] + s[c..n]) + s[n..]
  {
  }

  lemma FirstLineFits(breaks: Breaks, line: string, end: string, more: seq<string>, ends: seq<string>, rest: string)
    requires IsLine(breaks, line, end, rest == "") && !CutsABreak(end, rest)
    requires IsSplit(breaks, more, ends, rest)
    ensures IsSplit(breaks, [line] + more, [end] + ends, (line + end) + rest)
  {
    var lines, all := [line] + more, [end] + ends;
    assert lines[1..] == more && all[1..] == ends;
    if more != [] {
      SplitOfRest(breaks, more, ends, rest);
      var first := more[0] + ends[0];
      assert first != "" && rest[0] == first[0];
    }
  }

  lemma {:induction false} SplitLinesSplit(breaks: Breaks, s: string)
    ensures IsSplit(breaks, SplitLines(breaks, s), SplitEnds(breaks, s), s)
  {
    if s != "" {
      var c, n := Content(breaks, s), Extent(breaks, s);
      FirstLineIsOne(breaks, s);
      SplitLinesSplit(breaks, s[n..]);
      FirstLineFits(breaks, s[..c], s[c..n], SplitLines(breaks, s[n..]), SplitEnds(breaks, s[n..]), s[n..]);
    }
  }

  /** The lines of `s.splitlines()` are those of the one split there is. */
  lemma SplitExactlyWhen(breaks: Breaks, lines: seq<string>, s: string)
    ensures lines == SplitLines(breaks, s) <==> exists ends :: IsSplit(breaks, lines, ends, s)
  {
    SplitLinesSplit(breaks, s);
    forall ends | IsSplit(breaks, lines, ends, s)
      ensures lines == SplitLines(breaks, s)
    {
      OnlyOneSplit(breaks, lines, ends, s);
    }
  }

  /** The lines a chunk completes, given the text that waited for it. */
  function Completed(kept: seq<string>): seq<string> {
    if kept == [] then [] else kept[..|kept| - 1]
  }

  function Waiting(kept: seq<string>): string {
    if kept == [] then "" else kept[|kept| - 1]
  }

  lemma ChunkStep(breaks: Breaks, pending: string, chunks: seq<string>)
    requires chunks != []
    ensures var kept := SplitKeep(breaks, pending + chunks[0]);
      && SplitLines(breaks, pending + Join(chunks))
         == StripAll(breaks, Completed(kept)) + SplitLines(breaks, Waiting(kept) + Join(chunks[1..]))
      && (Waiting(kept) != "" ==> SplitKeep(breaks, Waiting(kept)) == [Waiting(kept)])
  {
    JoinUnfold(pending, chunks);
    var text := pending + chunks[0];
    if text == "" {
      assert text + Join(chunks[1..]) == Waiting([]) + Join(chunks[1..]);
    } else {
      LastLineGoesOn(breaks, text, Join(chunks[1..]));
    }
  }

  lemma LastLine(breaks: Breaks, pending: string)
    requires pending != "" ==> SplitKeep(breaks, pending) == [pending]
    ensures SplitLines(breaks, pending) == if pending == "" then [] else [StripBreaks(breaks, pending)]
  {
    StripKept(breaks, pending);
  }

  /** `_lines`: the lines of the whole text, from its chunks. */
  method Lines(chunks: seq<string>) returns (lines: seq<string>)
    ensures exists ends :: IsSplit(SPLITLINES, lines, ends, Join(chunks))
    ensures lines == SplitLines(SPLITLINES, Join(chunks))
  {
    lines := LinesBrokenAt(SPLITLINES, chunks);
    SplitExactlyWhen(SPLITLINES, lines, Join(chunks));
  }

  method LinesBrokenAt(breaks: Breaks, chunks: seq<string>) returns (lines: seq<string>)
    ensures lines == SplitLines(breaks, Join(chunks))
  {
    lines := [];
    var pending := "";
    var left := chunks;
    assert "" + Join(left) == Join(left);
    while left != []
      invariant pending != "" ==> SplitKeep(breaks, pending) == [pending]
      invariant lines + SplitLines(breaks, pending + Join(left)) == SplitLines(breaks, Join(chunks))
    {
      ChunkStep(breaks, pending, left);
      var kept := SplitKeep(breaks, pending + left[0]);
      // A line is only known to be over once something follows it.
      left := left[1..];
      Associative(lines, StripAll(breaks, Completed(kept)), SplitLines(breaks, Waiting(kept) + Join(left)));
      lines := lines + StripAll(breaks, Completed(kept));
      pending := Waiting(kept);
    }
    assert pending + Join(left) == pending;
    LastLine(breaks, pending);
    if pending != "" {
      lines := lines + [StripBreaks(breaks, pending)];
    }
  }
}
