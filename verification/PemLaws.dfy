/** What NormalizePEM and canonBase64 keep of a text, place by place. */
module PemLaws {
  import opened Text
  import opened Pem

  // ---- the escapes --------------------------------------------------------------------------

  /** strings.Join(parts, sep) */
  function Joined(parts: seq<string>, sep: string): string
    requires parts != []
  {
    if |parts| == 1 then parts[0] else parts[0] + sep + Joined(parts[1..], sep)
  }

  predicate PairFree(parts: seq<string>, a: char, b: char) {
    forall i | 0 <= i < |parts| :: NoPair(parts[i], a, b)
  }

  lemma ConsAppends(part: string, sep: string, tail: string)
    requires part != ""
    ensures part + sep + tail == [part[0]] + (part[1..] + sep + tail)
  {
  }

  lemma {:induction false} ReplacesNext(part: string, rest: string, a: char, b: char)
    requires NoPair(part, a, b) && a != b
    ensures ReplacePair(part + [a, b] + rest, a, b) == part + "\n" + ReplacePair(rest, a, b)
  {
    var s := part + [a, b] + rest;
    if part == "" {
      assert s[2..] == rest;
    } else {
      PieceHasNoPair(part, 1, |part|, a, b);
      assert part[1..|part|] == part[1..];
      ReplacesNext(part[1..], rest, a, b);
      ConsAppends(part, [a, b], rest);
      ConsAppends(part, "\n", ReplacePair(rest, a, b));
      assert s[1] == if |part| > 1 then part[1] else a;
      KeepsFirst(s, a, b);
    }
  }

  lemma KeepsFirst(s: string, a: char, b: char)
    requires |s| >= 2 && !(s[0] == a && s[1] == b)
    ensures ReplacePair(s, a, b) == [s[0]] + ReplacePair(s[1..], a, b)
  {
  }

  /** Every occurrence is replaced and nothing else changes: parts without the pair that were
      joined by it come out joined by newlines. */
  lemma {:induction false} ReplacesJoined(parts: seq<string>, a: char, b: char)
    requires parts != [] && PairFree(parts, a, b) && a != b
    ensures ReplacePair(Joined(parts, [a, b]), a, b) == Unlines(parts)
  {
    if |parts| == 1 {
      ReplaceFixes(parts[0], a, b);
    } else {
      ReplacesJoined(parts[1..], a, b);
      ReplacesNext(parts[0], Joined(parts[1..], [a, b]), a, b);
    }
  }

  /** Every text is such a join. */
  lemma {:induction false} SplitsAtPairs(s: string, a: char, b: char) returns (parts: seq<string>)
    ensures parts != [] && PairFree(parts, a, b) && Joined(parts, [a, b]) == s
  {
    if |s| < 2 {
      parts := [s];
    } else if s[0] == a && s[1] == b {
      var rest := SplitsAtPairs(s[2..], a, b);
      parts := [""] + rest;
      assert parts[1..] == rest;
      assert "" + [a, b] + s[2..] == s;
    } else {
      var rest := SplitsAtPairs(s[1..], a, b);
      parts := LongerFirst(s[0], rest, a, b);
      assert [s[0]] + s[1..] == s;
    }
  }

  lemma LongerFirst(c: char, parts: seq<string>, a: char, b: char) returns (longer: seq<string>)
    requires parts != [] && PairFree(parts, a, b)
    requires Joined(parts, [a, b]) != "" && !(c == a && Joined(parts, [a, b])[0] == b)
    ensures longer != [] && PairFree(longer, a, b) && Joined(longer, [a, b]) == [c] + Joined(parts, [a, b])
  {
    longer := [[c] + parts[0]] + parts[1..];
    ConsHasNoPair(c, parts[0], a, b);
    assert longer[1..] == parts[1..];
    if |parts| > 1 {
      var rest := Joined(parts[1..], [a, b]);
      assert [c] + parts[0] + [a, b] + rest == [c] + (parts[0] + [a, b] + rest);
    }
  }

  /** Any value is parts joined by the literal backslash-n, none with one inside; reading the escapes
      joins the same parts by newlines. */
  lemma UnescapeExactly(value: string) returns (parts: seq<string>)
    ensures parts != [] && PairFree(parts, '\\', 'n') && value == Joined(parts, "\\n")
    ensures Unescape(value) == Unlines(parts)
  {
    parts := SplitsAtPairs(value, '\\', 'n');
    ReplacesJoined(parts, '\\', 'n');
    assert ['\\', 'n'] == "\\n";
  }

  /** The one-line form of a text, its lines joined by the literal escape, is normalised to the same
      and reduced to the base64 text of those lines. */
  lemma EscapedLinesAreLines(lines: seq<string>)
    requires lines != [] && PairFree(lines, '\\', 'n') && NoNewline(lines)
    ensures Normalized(Joined(lines, "\\n")) == Normalized(Unlines(lines))
    ensures Canon(Normalized(Joined(lines, "\\n"))) == CanonLines(lines)
  {
    var value := Joined(lines, "\\n");
    assert ['\\', 'n'] == "\\n";
    ReplacesJoined(lines, '\\', 'n');
    UnlinesHasNoPair(lines, '\\', 'n');
    ReplaceFixes(Unlines(lines), '\\', 'n');
    CanonIgnoresLayout(value);
    LinesOfUnlines(lines);
  }

  // ---- what is kept for base64 --------------------------------------------------------------

  ghost predicate Increasing(at: seq<nat>) {
    forall i, j | 0 <= i < j < |at| :: at[i] < at[j]
  }

  ghost predicate Picks(s: string, at: seq<nat>, kept: string) {
    && Increasing(at) && |at| == |kept|
    && forall k | 0 <= k < |at| :: at[k] < |s| && kept[k] == s[at[k]]
  }

  lemma {:induction false} KeepPicksBase64(line: string) returns (at: seq<nat>)
    ensures Picks(line, at, Keep(line))
    ensures forall c: nat | c < |line| :: c in at <==> IsBase64(line[c])
  {
    at := [];
    if line != "" {
      var last := |line| - 1;
      at := KeepPicksBase64(line[..last]);
      assert forall c: nat | c < last :: line[..last][c] == line[c];
      if IsBase64(line[last]) {
        at := PicksOneMore(line, at, Keep(line[..last]));
      }
    }
  }

  lemma PicksOneMore(s: string, at: seq<nat>, kept: string) returns (more: seq<nat>)
    requires s != "" && Picks(s[..|s| - 1], at, kept)
    ensures Picks(s, more, kept + [s[|s| - 1]])
    ensures forall c: nat :: c in more <==> c in at || c == |s| - 1
  {
    more := at + [|s| - 1];
  }

  /** Exactly the characters of the base64 alphabet are kept, in their order. */
  lemma KeepPicks(line: string) returns (at: seq<nat>)
    ensures Picks(line, at, Keep(line))
    ensures forall c: nat | c < |line| :: c in at <==>
      || 'A' <= line[c] <= 'Z' || 'a' <= line[c] <= 'z' || '0' <= line[c] <= '9'
      || line[c] == '+' || line[c] == '/' || line[c] == '='
  {
    at := KeepPicksBase64(line);
    forall c: nat | c < |line| ensures c in at <==> IsBase64(line[c]) {}
  }

  lemma {:induction false} KeepJoins(a: string, b: string)
    ensures Keep(a + b) == Keep(a) + Keep(b)
  {
    if b == "" {
      assert a + b == a;
    } else {
      KeepJoins(a, b[..|b| - 1]);
      assert (a + b)[..|a + b| - 1] == a + b[..|b| - 1];
    }
  }

  lemma SpaceAlone(c: char)
    requires IsSpace(c)
    ensures Keep([c]) == ""
  {
    assert [c][..0] == "";
  }

  lemma SpaceIsNotKept(s: string, c: char)
    requires IsSpace(c)
    ensures Keep([c] + s) == Keep(s) && Keep(s + [c]) == Keep(s)
  {
    KeepJoins([c], s);
    KeepJoins(s, [c]);
    SpaceAlone(c);
  }

  lemma TrimmingKeeps(line: string)
    ensures Keep(Trim(line)) == Keep(line)
  {
    forall c, rest | IsSpace(c) ensures Keep([c] + rest) == Keep(rest) { SpaceIsNotKept(rest, c); }
    forall front, c | IsSpace(c) ensures Keep(front + [c]) == Keep(front) { SpaceIsNotKept(front, c); }
    IgnoresTrimLeft(Keep, line);
    IgnoresTrimRight(Keep, TrimLeft(line));
  }

  /** A character by its line and its place in the line. */
  datatype Place = Place(line: nat, column: nat)

  predicate Precedes(p: Place, q: Place) {
    p.line < q.line || (p.line == q.line && p.column < q.column)
  }

  ghost predicate InReadingOrder(at: seq<Place>) {
    forall i, j | 0 <= i < j < |at| :: Precedes(at[i], at[j])
  }

  /** Where the reduced text of some lines comes from: the lines whose first visible characters are
      not five dashes, and there the characters of the base64 alphabet. */
  predicate IsKept(lines: seq<string>, p: Place)
    requires p.line < |lines| && p.column < |lines[p.line]|
  {
    var c, trimmed := lines[p.line][p.column], Trim(lines[p.line]);
    && !(|trimmed| >= 5 && trimmed[..5] == "-----")
    && (|| 'A' <= c <= 'Z' || 'a' <= c <= 'z' || '0' <= c <= '9' || c == '+' || c == '/' || c == '=')
  }

  predicate InText(lines: seq<string>, p: Place) {
    p.line < |lines| && p.column < |lines[p.line]|
  }

  /** `text` is made of the characters at these places, in reading order. */
  ghost predicate Reads(lines: seq<string>, at: seq<Place>, text: string) {
    && InReadingOrder(at) && |at| == |text|
    && forall k | 0 <= k < |at| :: InText(lines, at[k]) && text[k] == lines[at[k].line][at[k].column]
  }

  /** The reduced text is made of exactly the characters that are kept. */
  lemma {:induction false} CanonPicks(lines: seq<string>) returns (at: seq<Place>)
    ensures Reads(lines, at, CanonLines(lines))
    ensures forall p | InText(lines, p) :: p in at <==> IsKept(lines, p)
  {
    at := [];
    if lines != [] {
      var n := |lines| - 1;
      var front := CanonPicks(lines[..n]);
      var last := LinePicks(lines, n);
      ReadsOn(lines, front, CanonLines(lines[..n]), last, CanonLine(lines[n]));
      at := front + last;
      forall p | InText(lines, p) ensures p in at <==> IsKept(lines, p) {
        OneMoreLinePicks(lines, front, last, p);
      }
    }
  }

  lemma ReadsOn(lines: seq<string>, front: seq<Place>, frontText: string, last: seq<Place>, lastText: string)
    requires lines != [] && Reads(lines[..|lines| - 1], front, frontText) && Reads(lines, last, lastText)
    requires forall k | 0 <= k < |last| :: last[k].line == |lines| - 1
    ensures Reads(lines, front + last, frontText + lastText)
  {
    forall k | 0 <= k < |front| ensures InText(lines, front[k]) && front[k].line < |lines| - 1 {
      assert InText(lines[..|lines| - 1], front[k]);
    }
  }

  lemma OneMoreLinePicks(lines: seq<string>, front: seq<Place>, last: seq<Place>, p: Place)
    requires lines != [] && InText(lines, p)
    requires forall k | 0 <= k < |front| :: InText(lines[..|lines| - 1], front[k])
    requires forall k | 0 <= k < |last| :: last[k].line == |lines| - 1
    requires forall q | InText(lines[..|lines| - 1], q) :: q in front <==> IsKept(lines[..|lines| - 1], q)
    requires forall q | InText(lines, q) && q.line == |lines| - 1 :: q in last <==> IsKept(lines, q)
    ensures p in front + last <==> IsKept(lines, p)
  {
    var n := |lines| - 1;
    if p.line < n {
      assert InText(lines[..n], p) && lines[..n][p.line] == lines[p.line];
      assert p !in last;
    } else {
      assert p !in front;
    }
  }

  lemma LinePicks(lines: seq<string>, n: nat) returns (at: seq<Place>)
    requires n < |lines|
    ensures Reads(lines, at, CanonLine(lines[n])) && forall k | 0 <= k < |at| :: at[k].line == n
    ensures forall p | InText(lines, p) && p.line == n :: p in at <==> IsKept(lines, p)
  {
    at := [];
    if !IsMarker(Trim(lines[n])) {
      TrimmingKeeps(lines[n]);
      var columns := KeepPicks(lines[n]);
      at := seq(|columns|, k requires 0 <= k < |columns| => Place(n, columns[k]));
      forall p | InText(lines, p) && p.line == n ensures p in at <==> p.column in columns {
        if p.column in columns {
          var k :| 0 <= k < |columns| && columns[k] == p.column;
          assert at[k] == p;
        }
      }
    }
  }

  // ---- what NormalizePEM shows --------------------------------------------------------------

  predicate Visible(lines: seq<string>, i: nat) {
    i < |lines| && Trim(lines[i]) != ""
  }

  /** The loop keeps the visible lines, and of each run of blank ones the first. */
  predicate Collapsed(lines: seq<string>, lastBlank: bool, i: nat) {
    i < |lines| && (Visible(lines, i) || if i == 0 then !lastBlank else Visible(lines, i - 1))
  }

  /** `picked` are the trimmed lines at these places. */
  ghost predicate PicksLines(lines: seq<string>, at: seq<nat>, picked: seq<string>) {
    && Increasing(at) && |at| == |picked|
    && forall k | 0 <= k < |at| :: at[k] < |lines| && picked[k] == Trim(lines[at[k]])
  }

  lemma {:induction false} CollapsePicks(lines: seq<string>, lastBlank: bool) returns (at: seq<nat>)
    ensures PicksLines(lines, at, Collapse(lines, lastBlank))
    ensures forall i: nat :: i in at <==> Collapsed(lines, lastBlank, i)
  {
    at := [];
    if lines != [] {
      at := CollapsePicks(lines[1..], Trim(lines[0]) == "");
      at := CollapsePicksOneMore(lines, lastBlank, at);
    }
  }

  lemma CollapsePicksOneMore(lines: seq<string>, lastBlank: bool, rest: seq<nat>) returns (at: seq<nat>)
    requires lines != [] && PicksLines(lines[1..], rest, Collapse(lines[1..], Trim(lines[0]) == ""))
    requires forall i: nat :: i in rest <==> Collapsed(lines[1..], Trim(lines[0]) == "", i)
    ensures PicksLines(lines, at, Collapse(lines, lastBlank))
    ensures forall i: nat :: i in at <==> Collapsed(lines, lastBlank, i)
  {
    var blank := Trim(lines[0]) == "";
    at := PicksBehind(lines, rest, Collapse(lines[1..], blank), !blank || !lastBlank);
    forall i: nat ensures i in at <==> Collapsed(lines, lastBlank, i) {
      CollapsedBehind(lines, lastBlank, i);
    }
    CollapsesFirst(lines, lastBlank);
  }

  lemma CollapsesFirst(lines: seq<string>, lastBlank: bool)
    requires lines != []
    ensures var blank := Trim(lines[0]) == "";
      Collapse(lines, lastBlank)
      == if !blank || !lastBlank then [Trim(lines[0])] + Collapse(lines[1..], blank) else Collapse(lines[1..], blank)
  {
  }

  lemma CollapsedBehind(lines: seq<string>, lastBlank: bool, i: nat)
    requires lines != []
    ensures Collapsed(lines, lastBlank, i) <==>
      if i == 0 then Trim(lines[0]) != "" || !lastBlank else Collapsed(lines[1..], Trim(lines[0]) == "", i - 1)
  {
  }

  lemma PicksBehind(lines: seq<string>, rest: seq<nat>, picked: seq<string>, first: bool) returns (at: seq<nat>)
    requires lines != [] && PicksLines(lines[1..], rest, picked)
    ensures PicksLines(lines, at, if first then [Trim(lines[0])] + picked else picked)
    ensures forall i: nat :: i in at <==> if i == 0 then first else i - 1 in rest
  {
    at := PicksShifted(lines, rest, picked);
    if first {
      PicksCons(lines, at, picked);
      at := [0] + at;
    }
  }

  lemma PicksShifted(lines: seq<string>, rest: seq<nat>, picked: seq<string>) returns (at: seq<nat>)
    requires lines != [] && PicksLines(lines[1..], rest, picked)
    ensures PicksLines(lines, at, picked)
    ensures forall i: nat :: i in at <==> i > 0 && i - 1 in rest
  {
    at := seq(|rest|, k requires 0 <= k < |rest| => rest[k] + 1);
    assert forall k | 0 <= k < |rest| :: lines[1..][rest[k]] == lines[at[k]];
    forall i: nat ensures i in at <==> i > 0 && i - 1 in rest {
      if i > 0 && i - 1 in rest {
        var k :| 0 <= k < |rest| && rest[k] == i - 1;
        assert at[k] == i;
      }
    }
  }

  lemma PicksCons(lines: seq<string>, at: seq<nat>, picked: seq<string>)
    requires lines != [] && PicksLines(lines, at, picked) && 0 !in at
    ensures PicksLines(lines, [0] + at, [Trim(lines[0])] + picked)
  {
    assert forall k | 0 <= k < |at| :: at[k] in at;
  }

  /** One blank line taken off each end. */
  function Stripped(lines: seq<string>): seq<string> {
    WithoutLastBlank(WithoutFirstBlank(lines))
  }

  function WithoutFirstBlank(lines: seq<string>): seq<string> {
    if lines != [] && lines[0] == "" then lines[1..] else lines
  }

  function WithoutLastBlank(lines: seq<string>): seq<string> {
    if lines != [] && lines[|lines| - 1] == "" then lines[..|lines| - 1] else lines
  }

  function ShownLines(text: string): seq<string> {
    Stripped(Collapse(Lines(text), false))
  }

  lemma {:induction false} SameTrimmedSameCollapse(a: seq<string>, b: seq<string>, lastBlank: bool)
    requires |a| == |b| && forall i | 0 <= i < |a| :: Trim(a[i]) == Trim(b[i])
    ensures Collapse(a, lastBlank) == Collapse(b, lastBlank)
  {
    if a != [] { SameTrimmedSameCollapse(a[1..], b[1..], Trim(a[0]) == ""); }
  }

  lemma BlankInFront(lines: seq<string>)
    requires lines != []
    ensures Stripped(Collapse([""] + lines, false)) == Stripped(Collapse(lines, false))
  {
    var behind := Collapse(lines, true);
    assert ([""] + lines)[1..] == lines;
    CollapsesFirst([""] + lines, false);
    CollapsesFirst(lines, true);
    CollapsesFirst(lines, false);
    if Trim(lines[0]) != "" { StrippingCons(behind); }
  }

  lemma StrippingCons(tidy: seq<string>)
    requires tidy != [] && tidy[0] != ""
    ensures Stripped([""] + tidy) == Stripped(tidy)
  {
    assert ([""] + tidy)[1..] == tidy;
  }

  lemma {:induction false} CollapseSnocBlank(lines: seq<string>, lastBlank: bool)
    requires lines != []
    ensures Collapse(lines + [""], lastBlank)
         == Collapse(lines, lastBlank) + if Trim(lines[|lines| - 1]) == "" then [] else [""]
  {
    assert (lines + [""])[1..] == lines[1..] + [""];
    if |lines| == 1 {
      assert lines[1..] + [""] == [""] && [""][1..] == [];
    } else {
      CollapseSnocBlank(lines[1..], Trim(lines[0]) == "");
    }
  }

  lemma BlankBehind(lines: seq<string>)
    requires lines != []
    ensures Stripped(Collapse(lines + [""], false)) == Stripped(Collapse(lines, false))
  {
    var tidy := Collapse(lines, false);
    CollapseSnocBlank(lines, false);
    if Trim(lines[|lines| - 1]) != "" {
      CollapseEnds(lines, false);
      StrippingSnoc(tidy);
    } else {
      assert tidy + [] == tidy;
    }
  }

  lemma StrippingSnoc(tidy: seq<string>)
    requires tidy != [] && tidy[|tidy| - 1] != ""
    ensures Stripped(tidy + [""]) == Stripped(tidy)
  {
    var front := WithoutFirstBlank(tidy);
    assert WithoutFirstBlank(tidy + [""]) == front + [""];
    assert (front + [""])[..|front|] == front;
  }

  lemma SpaceInFrontIsNotShown(s: string, c: char)
    requires IsSpace(c)
    ensures ShownLines([c] + s) == ShownLines(s)
  {
    LinesCons(c, s);
    if c == '\n' {
      BlankInFront(Lines(s));
    } else {
      TrimIgnoresEnds(Lines(s)[0], c);
      SameTrimmedSameCollapse(Before(c, Lines(s)), Lines(s), false);
    }
  }

  lemma SpaceBehindIsNotShown(s: string, c: char)
    requires IsSpace(c)
    ensures ShownLines(s + [c]) == ShownLines(s)
  {
    LinesSnoc(s, c);
    if c == '\n' {
      BlankBehind(Lines(s));
    } else {
      TrimIgnoresEnds(Lines(s)[|Lines(s)| - 1], c);
      SameTrimmedSameCollapse(Behind(Lines(s), c), Lines(s), false);
    }
  }

  lemma TrimmingShowsTheSame(s: string)
    ensures ShownLines(Trim(s)) == ShownLines(s)
  {
    forall c, rest | IsSpace(c) ensures ShownLines([c] + rest) == ShownLines(rest) { SpaceInFrontIsNotShown(rest, c); }
    forall front, c | IsSpace(c) ensures ShownLines(front + [c]) == ShownLines(front) { SpaceBehindIsNotShown(front, c); }
    IgnoresTrimLeft(ShownLines, s);
    IgnoresTrimRight(ShownLines, TrimLeft(s));
  }

  lemma ReturnsAreNotShown(s: string)
    ensures ShownLines(DropReturns(s)) == ShownLines(s)
  {
    DropReturnsLines(s);
    var a, b := Lines(s), Lines(DropReturns(s));
    forall i | 0 <= i < |a| ensures Trim(a[i]) == Trim(b[i]) {
      TrimIgnoresEnds(b[i], '\r');
    }
    SameTrimmedSameCollapse(a, b, false);
  }

  lemma NormalizedShows(value: string)
    ensures var shown := ShownLines(Unescape(value));
      Normalized(value) == if shown == [] then "" else Unlines(shown)
  {
    var cleaned := DropReturns(Unescape(value));
    var i, j := TrimCuts(cleaned);
    ReturnsAreNotShown(Unescape(value));
    TrimmingShowsTheSame(cleaned);
    ResultLines(value);
    if Trim(cleaned) == "" {
      assert Collapse([""], false) == [""];
    } else {
      BodyEnds(Trim(cleaned));
    }
  }

  /** Visible lines are shown, and a blank line is if it follows a visible one and another visible
      one comes later. */
  predicate Shown(lines: seq<string>, i: nat) {
    || Visible(lines, i)
    || (0 < i < |lines| && Visible(lines, i - 1) && exists k | i < k < |lines| :: Visible(lines, k))
  }

  lemma StrippedPicks(lines: seq<string>) returns (at: seq<nat>)
    requires lines != []
    ensures PicksLines(lines, at, Stripped(Collapse(lines, false)))
    ensures forall i: nat :: i in at <==> Shown(lines, i)
  {
    var all := CollapsePicks(lines, false);
    var tidy := Collapse(lines, false);
    assert Collapsed(lines, false, 0);
    FirstIsLeast(all, 0);
    at := if Visible(lines, 0) then all else all[1..];
    tidy := WithoutFirstBlank(tidy);
    assert PicksLines(lines, at, tidy);
    forall i: nat ensures i in at <==> Near(lines, i) {
      assert i in all <==> Collapsed(lines, false, i);
      assert all == [0] + all[1..];
    }
    at := LastBlankIsHidden(lines, at, tidy);
  }

  lemma FirstIsLeast(at: seq<nat>, i: nat)
    requires Increasing(at) && i in at && forall j | j in at :: i <= j
    ensures at[0] == i && i !in at[1..]
  {
    var k :| 0 <= k < |at| && at[k] == i;
    assert at[0] in at;
  }

  /** A line that is visible or follows a visible one. */
  predicate Near(lines: seq<string>, i: nat) {
    Visible(lines, i) || (0 < i < |lines| && Visible(lines, i - 1))
  }

  lemma LastBlankIsHidden(lines: seq<string>, at: seq<nat>, tidy: seq<string>) returns (shown: seq<nat>)
    requires PicksLines(lines, at, tidy) && forall i: nat :: i in at <==> Near(lines, i)
    ensures PicksLines(lines, shown, WithoutLastBlank(tidy))
    ensures forall i: nat :: i in shown <==> Shown(lines, i)
  {
    shown := at;
    if tidy != [] && tidy[|tidy| - 1] == "" {
      shown := at[..|at| - 1];
    }
    forall i: nat ensures i in shown <==> Shown(lines, i) {
      if at != [] {
        LastIsGreatest(at);
        ShownExactly(lines, at, i);
      } else {
        assert !Near(lines, i);
      }
    }
  }

  lemma LastIsGreatest(at: seq<nat>)
    requires Increasing(at) && at != []
    ensures forall j | j in at :: j <= at[|at| - 1]
    ensures forall j :: j in at[..|at| - 1] <==> j in at && j != at[|at| - 1]
  {
    assert at == at[..|at| - 1] + [at[|at| - 1]];
  }

  /** Of the lines that are visible or follow a visible one, only the last can be blank with nothing
      visible behind it. */
  lemma ShownExactly(lines: seq<string>, at: seq<nat>, i: nat)
    requires at != [] && Increasing(at) && forall k: nat :: k in at <==> Near(lines, k)
    ensures Shown(lines, i) <==> i in at && (i == at[|at| - 1] ==> Visible(lines, i))
  {
    var last := at[|at| - 1];
    LastIsGreatest(at);
    assert i in at <==> Near(lines, i);
    assert last in at && Near(lines, last);
    if i in at && !Visible(lines, i) {
      if i == last {
        forall k: nat | last < k < |lines| ensures !Visible(lines, k) { assert !Near(lines, k); }
      } else if Visible(lines, last) {
        assert i < last < |lines|;
      } else {
        assert i < last - 1 && Visible(lines, last - 1);
      }
    }
  }

  /** The result of NormalizePEM has, trimmed and in their order, exactly the visible lines of the
      value whose escapes were read, with one blank line between two of them if there was any. */
  lemma NormalizedExactly(value: string) returns (at: seq<nat>)
    ensures var lines := Lines(Unescape(value));
      && Increasing(at) && (forall k | 0 <= k < |at| :: at[k] < |lines|)
      && (forall i: nat :: i in at <==> Shown(lines, i))
      && Normalized(value)
         == if at == [] then "" else Unlines(seq(|at|, k requires 0 <= k < |at| => Trim(lines[at[k]])))
  {
    var lines := Lines(Unescape(value));
    NormalizedShows(value);
    at := StrippedPicks(lines);
    PickedAre(lines, at, ShownLines(Unescape(value)));
  }

  lemma PickedAre(lines: seq<string>, at: seq<nat>, picked: seq<string>)
    requires PicksLines(lines, at, picked)
    ensures picked == seq(|at|, k requires 0 <= k < |at| => Trim(lines[at[k]]))
  {
  }
}
