/** NormalizePEM, and the base64 text that a certificate is reduced to. */
module Pem {
  import opened Text

  /** strings.ReplaceAll(s, ab, "\n") for a text of two characters. */
  function ReplacePair(s: string, a: char, b: char): string {
    if |s| < 2 then s
    else if s[0] == a && s[1] == b then ['\n'] + ReplacePair(s[2..], a, b)
    else [s[0]] + ReplacePair(s[1..], a, b)
  }

  /** The literal backslash-n read as a newline. */
  function Unescape(s: string): string {
    ReplacePair(s, '\\', 'n')
  }

  function DropReturns(s: string): string {
    ReplacePair(s, '\r', '\n')
  }

  /** The lines trimmed, and of adjacent blank ones the first only. */
  function Collapse(lines: seq<string>, lastBlank: bool): seq<string> {
    if lines == [] then []
    else
      var line := Trim(lines[0]);
      if line == "" then (if lastBlank then [] else [""]) + Collapse(lines[1..], true)
      else [line] + Collapse(lines[1..], false)
  }

  lemma CollapseKeepsOne(lines: seq<string>)
    requires lines != []
    ensures Collapse(lines, false) != []
  {
  }

  function Body(value: string): seq<string> {
    Collapse(Lines(Trim(DropReturns(Unescape(value)))), false)
  }

  function Normalized(value: string): string {
    CollapseKeepsOne(Lines(Trim(DropReturns(Unescape(value)))));
    Trim(Unlines(Body(value)))
  }

  method NormalizePEM(value: string) returns (r: string)
    ensures r == Normalized(value)
  {
    var trimmed := Trim(DropReturns(Unescape(value)));
    var normalized := CollapseLines(Lines(trimmed));
    CollapseKeepsOne(Lines(trimmed));
    r := Trim(Unlines(normalized));
  }

  /** The loop of NormalizePEM. */
  method CollapseLines(lines: seq<string>) returns (normalized: seq<string>)
    ensures normalized == Collapse(lines, false)
  {
    normalized := [];
    var lastBlank := false;
    for i := 0 to |lines|
      invariant CollapseOnto(normalized, lines[i..], lastBlank) == CollapseOnto([], lines, false)
    {
      var line := Trim(lines[i]);
      assert lines[i..][1..] == lines[i + 1..];
      if line == "" {
        if !lastBlank {
          normalized := normalized + [""];
        }
        lastBlank := true;
      } else {
        normalized := normalized + [line];
        lastBlank := false;
      }
    }
    CollapseOntoAppends([], lines, false);
  }

  /** The loop from a state in the middle: lines already kept, lines still to come. */
  ghost function CollapseOnto(kept: seq<string>, lines: seq<string>, lastBlank: bool): seq<string>
    decreases |lines|
  {
    if lines == [] then kept
    else
      var line := Trim(lines[0]);
      if line == "" then CollapseOnto(if lastBlank then kept else kept + [""], lines[1..], true)
      else CollapseOnto(kept + [line], lines[1..], false)
  }

  lemma {:induction false} CollapseOntoAppends(kept: seq<string>, lines: seq<string>, lastBlank: bool)
    ensures CollapseOnto(kept, lines, lastBlank) == kept + Collapse(lines, lastBlank)
    decreases |lines|
  {
    if lines != [] {
      var line, rest := Trim(lines[0]), lines[1..];
      var next := if line == "" && lastBlank then kept else kept + [line];
      CollapseOntoAppends(next, rest, line == "");
      assert kept + [line] + Collapse(rest, line == "") == kept + ([line] + Collapse(rest, line == ""));
    }
  }

  // ---- the normal form ----------------------------------------------------------------------

  predicate NoAdjacentBlanks(lines: seq<string>) {
    forall i | 0 <= i < |lines| - 1 :: !(lines[i] == "" && lines[i + 1] == "")
  }

  predicate AllTrimmed(lines: seq<string>) {
    forall i | 0 <= i < |lines| :: Trimmed(lines[i])
  }

  /** No literal backslash-n, no CR before a newline, every line trimmed, no two adjacent blank
      lines, and neither the first nor the last line of a non-empty text blank. */
  predicate NormalForm(s: string) {
    var lines := Lines(s);
    && NoPair(s, '\\', 'n') && NoPair(s, '\r', '\n')
    && AllTrimmed(lines) && NoAdjacentBlanks(lines)
    && (s != "" ==> lines[0] != "" && lines[|lines| - 1] != "")
  }

  lemma {:induction false} UnescapedHasNoEscape(s: string)
    ensures NoPair(Unescape(s), '\\', 'n')
    ensures Unescape(s) != "" ==> Unescape(s)[0] == s[0] || Unescape(s)[0] == '\n'
  {
    if |s| >= 2 {
      if s[0] == '\\' && s[1] == 'n' {
        UnescapedHasNoEscape(s[2..]);
        ConsHasNoPair('\n', Unescape(s[2..]), '\\', 'n');
      } else {
        UnescapedHasNoEscape(s[1..]);
        ConsHasNoPair(s[0], Unescape(s[1..]), '\\', 'n');
      }
    }
  }

  lemma ConsHasNoPair(c: char, s: string, a: char, b: char)
    requires NoPair(s, a, b) && !(c == a && s != "" && s[0] == b)
    ensures NoPair([c] + s, a, b)
  {
    forall i | 0 <= i < |s| ensures !(([c] + s)[i] == a && ([c] + s)[i + 1] == b) {
      assert i > 0 ==> !(s[i - 1] == a && s[i] == b);
    }
  }

  lemma {:induction false} DropReturnsKeepsNoEscape(s: string)
    requires NoPair(s, '\\', 'n')
    ensures NoPair(DropReturns(s), '\\', 'n')
    ensures DropReturns(s) != "" ==> DropReturns(s)[0] == s[0] || DropReturns(s)[0] == '\n'
  {
    if |s| >= 2 {
      var cut := if s[0] == '\r' && s[1] == '\n' then 2 else 1;
      PieceHasNoPair(s, cut, |s|, '\\', 'n');
      assert s[cut..|s|] == s[cut..];
      DropReturnsKeepsNoEscape(s[cut..]);
      assert !(s[0] == '\\' && s[1] == 'n');
      ConsHasNoPair(if cut == 2 then '\n' else s[0], DropReturns(s[cut..]), '\\', 'n');
    }
  }

  /** What the loop leaves: trimmed lines, no two adjacent ones blank. */
  lemma {:induction false} CollapseIsTidy(lines: seq<string>, lastBlank: bool)
    ensures var tidy := Collapse(lines, lastBlank);
      AllTrimmed(tidy) && NoAdjacentBlanks(tidy) && (lastBlank && tidy != [] ==> tidy[0] != "")
  {
    if lines != [] {
      var line := Trim(lines[0]);
      CollapseIsTidy(lines[1..], line == "");
      var i, j := TrimCuts(lines[0]);
      ConsIsTidy(line, Collapse(lines[1..], line == ""));
    }
  }

  lemma ConsIsTidy(line: string, tidy: seq<string>)
    requires Trimmed(line) && AllTrimmed(tidy) && NoAdjacentBlanks(tidy)
    requires line == "" && tidy != [] ==> tidy[0] != ""
    ensures AllTrimmed([line] + tidy) && NoAdjacentBlanks([line] + tidy)
  {
    var longer := [line] + tidy;
    forall i | 0 <= i < |longer| - 1 ensures !(longer[i] == "" && longer[i + 1] == "") {
      assert i > 0 ==> !(tidy[i - 1] == "" && tidy[i] == "");
    }
  }

  /** What is left of a line is a piece of it. */
  lemma {:induction false} CollapseKeepsPieces(lines: seq<string>, lastBlank: bool, a: char, b: char)
    requires NoNewline(lines) && forall i | 0 <= i < |lines| :: NoPair(lines[i], a, b)
    ensures var tidy := Collapse(lines, lastBlank);
      NoNewline(tidy) && forall i | 0 <= i < |tidy| :: NoPair(tidy[i], a, b)
  {
    if lines != [] {
      var line := Trim(lines[0]);
      CollapseKeepsPieces(lines[1..], line == "", a, b);
      var i, j := TrimCuts(lines[0]);
      TrimHasNoPair(lines[0], a, b);
      var tidy := Collapse(lines[1..], line == "");
      assert Collapse(lines, lastBlank) == tidy || Collapse(lines, lastBlank) == [line] + tidy;
    }
  }

  lemma {:induction false} UnlinesHasNoPair(lines: seq<string>, a: char, b: char)
    requires lines != [] && a != '\n' && forall i | 0 <= i < |lines| :: NoPair(lines[i], a, b)
    requires b == '\n' ==> forall i | 0 <= i < |lines| :: lines[i] == "" || lines[i][|lines[i]| - 1] != a
    ensures NoPair(Unlines(lines), a, b)
  {
    if |lines| > 1 {
      UnlinesHasNoPair(lines[1..], a, b);
      var rest := Unlines(lines[1..]);
      ConsHasNoPair('\n', rest, a, b);
      PairAcross(lines[0], ['\n'] + rest, a, b);
      assert lines[0] + "\n" + rest == lines[0] + (['\n'] + rest);
    }
  }

  lemma PairAcross(s: string, t: string, a: char, b: char)
    requires NoPair(s, a, b) && NoPair(t, a, b)
    requires s == "" || t == "" || s[|s| - 1] != a || t[0] != b
    ensures NoPair(s + t, a, b)
  {
    forall i | 0 <= i < |s + t| - 1 ensures !((s + t)[i] == a && (s + t)[i + 1] == b) {
      if i + 1 < |s| {
        assert !(s[i] == a && s[i + 1] == b);
      } else if i >= |s| {
        assert !(t[i - |s|] == a && t[i - |s| + 1] == b);
      }
    }
  }

  lemma {:induction false} CollapseEnds(lines: seq<string>, lastBlank: bool)
    requires lines != [] && Trim(lines[|lines| - 1]) != ""
    ensures var tidy := Collapse(lines, lastBlank);
      tidy != [] && tidy[|tidy| - 1] == Trim(lines[|lines| - 1])
  {
    if |lines| > 1 { CollapseEnds(lines[1..], Trim(lines[0]) == ""); }
  }

  /** Trimming the whole text first leaves no blank line at either end. */
  lemma BodyEnds(text: string)
    requires Trimmed(text) && text != ""
    ensures var tidy := Collapse(Lines(text), false);
      tidy != [] && tidy[0] != "" && tidy[|tidy| - 1] != ""
  {
    var lines := Lines(text);
    FirstLineStarts(text);
    LastLineEnds(text);
    TrimKeeps(lines[0]);
    TrimKeeps(lines[|lines| - 1]);
    CollapseEnds(lines, false);
  }

  lemma {:induction false} UnlinesEnds(lines: seq<string>)
    requires lines != [] && lines[|lines| - 1] != ""
    ensures var s, last := Unlines(lines), lines[|lines| - 1];
      s != "" && s[|s| - 1] == last[|last| - 1]
  {
    if |lines| > 1 {
      UnlinesEnds(lines[1..]);
    }
  }

  lemma UnlinesIsTrimmed(lines: seq<string>)
    requires lines != [] && AllTrimmed(lines) && lines[0] != "" && lines[|lines| - 1] != ""
    ensures Trimmed(Unlines(lines)) && Unlines(lines) != ""
  {
    UnlinesEnds(lines);
    assert Unlines(lines)[0] == lines[0][0];
  }

  /** Tidy lines with nothing blank at the ends. */
  predicate Framed(lines: seq<string>) {
    && lines != [] && AllTrimmed(lines) && NoNewline(lines)
    && (lines == [""] || (lines[0] != "" && lines[|lines| - 1] != ""))
  }

  /** Such lines are joined to a text that needs no trimming and splits into them again. */
  lemma FramedLinesStay(lines: seq<string>)
    requires Framed(lines)
    ensures Trim(Unlines(lines)) == Unlines(lines) && Lines(Unlines(lines)) == lines
  {
    if lines != [""] { UnlinesIsTrimmed(lines); }
    TrimmedStays(Unlines(lines));
    LinesOfUnlines(lines);
  }

  lemma CollapseIsFramed(text: string)
    requires Trimmed(text)
    ensures var tidy := Collapse(Lines(text), false); Framed(tidy) && NoAdjacentBlanks(tidy)
  {
    LinesHaveNoNewline(text);
    CollapseIsTidy(Lines(text), false);
    CollapseHasNoNewline(Lines(text), false);
    if text == "" {
      assert Collapse([""], false) == [""];
    } else {
      BodyEnds(text);
    }
  }

  /** The last TrimSpace finds nothing left to trim; the result has exactly the collapsed lines. */
  lemma ResultLines(value: string)
    ensures Body(value) != [] && Normalized(value) == Unlines(Body(value)) && Lines(Normalized(value)) == Body(value)
    ensures Framed(Body(value)) && NoAdjacentBlanks(Body(value))
  {
    var i, j := TrimCuts(DropReturns(Unescape(value)));
    CollapseIsFramed(Trim(DropReturns(Unescape(value))));
    FramedLinesStay(Body(value));
  }

  lemma {:induction false} CollapseHasNoNewline(lines: seq<string>, lastBlank: bool)
    requires NoNewline(lines)
    ensures NoNewline(Collapse(lines, lastBlank))
  {
    if lines != [] {
      CollapseHasNoNewline(lines[1..], Trim(lines[0]) == "");
      var i, j := TrimCuts(lines[0]);
    }
  }

  lemma NormalizedIsNormal(value: string)
    ensures NormalForm(Normalized(value))
  {
    var text := Trim(DropReturns(Unescape(value)));
    UnescapedHasNoEscape(value);
    DropReturnsKeepsNoEscape(Unescape(value));
    TrimHasNoPair(DropReturns(Unescape(value)), '\\', 'n');
    LinesHaveNoPair(text, '\\', 'n');
    LinesHaveNoNewline(text);
    CollapseKeepsPieces(Lines(text), false, '\\', 'n');
    ResultLines(value);
    UnlinesHasNoPair(Body(value), '\\', 'n');
    NoReturnBeforeNewline(Body(value));
  }

  lemma NoReturnBeforeNewline(lines: seq<string>)
    requires lines != [] && AllTrimmed(lines) && NoNewline(lines)
    ensures NoPair(Unlines(lines), '\r', '\n')
  {
    UnlinesHasNoPair(lines, '\r', '\n');
  }

  lemma {:induction false} ReplaceFixes(s: string, a: char, b: char)
    requires NoPair(s, a, b)
    ensures ReplacePair(s, a, b) == s
  {
    if |s| >= 2 {
      PieceHasNoPair(s, 1, |s|, a, b);
      assert s[1..|s|] == s[1..];
      ReplaceFixes(s[1..], a, b);
      assert !(s[0] == a && s[1] == b);
    }
  }

  lemma {:induction false} CollapseFixes(lines: seq<string>, lastBlank: bool)
    requires AllTrimmed(lines) && NoAdjacentBlanks(lines) && (lastBlank && lines != [] ==> lines[0] != "")
    ensures Collapse(lines, lastBlank) == lines
  {
    if lines != [] {
      TrimmedStays(lines[0]);
      forall i | 0 <= i < |lines[1..]| - 1 ensures !(lines[1..][i] == "" && lines[1..][i + 1] == "") {
        assert !(lines[i + 1] == "" && lines[i + 2] == "");
      }
      CollapseFixes(lines[1..], lines[0] == "");
    }
  }

  /** Normalising changes nothing exactly if the text is in normal form. */
  lemma NormalFormsAreTheFixedPoints(s: string)
    ensures Normalized(s) == s <==> NormalForm(s)
  {
    NormalizedIsNormal(s);
    if NormalForm(s) {
      ReplaceFixes(s, '\\', 'n');
      ReplaceFixes(s, '\r', '\n');
      UnlinesOfLines(s);
      if s != "" { UnlinesIsTrimmed(Lines(s)); }
      TrimmedStays(s);
      CollapseFixes(Lines(s), false);
    }
  }

  lemma NormalizingTwice(value: string)
    ensures Normalized(Normalized(value)) == Normalized(value)
  {
    NormalizedIsNormal(value);
    NormalFormsAreTheFixedPoints(Normalized(value));
  }

  // ---- reduction to base64 ------------------------------------------------------------------

  /** The alphabet of section 4 of RFC 4648, and the padding character. */
  predicate IsBase64(c: char) {
    'A' <= c <= 'Z' || 'a' <= c <= 'z' || '0' <= c <= '9' || c == '+' || c == '/' || c == '='
  }

  function Keep(line: string): string {
    if line == "" then ""
    else if IsBase64(line[|line| - 1]) then Keep(line[..|line| - 1]) + [line[|line| - 1]]
    else Keep(line[..|line| - 1])
  }

  predicate IsMarker(line: string) {
    |line| >= 5 && line[..5] == "-----"
  }

  function CanonLine(line: string): string {
    if IsMarker(Trim(line)) then "" else Keep(Trim(line))
  }

  function CanonLines(lines: seq<string>): string {
    if lines == [] then "" else CanonLines(lines[..|lines| - 1]) + CanonLine(lines[|lines| - 1])
  }

  function Canon(pem: string): string {
    CanonLines(Lines(pem))
  }

  /** canonBase64 */
  method CanonBase64(pem: string) returns (r: string)
    ensures r == Canon(pem)
  {
    var lines := Lines(pem);
    r := "";
    for i := 0 to |lines|
      invariant r == CanonLines(lines[..i])
    {
      assert lines[..i + 1][..i] == lines[..i];
      var line := Trim(lines[i]);
      if !IsMarker(line) {
        r := AppendKept(r, line);
      }
    }
    assert lines[..|lines|] == lines;
  }

  method AppendKept(built: string, line: string) returns (r: string)
    ensures r == built + Keep(line)
  {
    r := built;
    for i := 0 to |line|
      invariant r == built + Keep(line[..i])
    {
      assert line[..i + 1][..i] == line[..i];
      if IsBase64(line[i]) {
        assert built + (Keep(line[..i]) + [line[i]]) == built + Keep(line[..i]) + [line[i]];
        r := r + [line[i]];
      }
    }
    assert line[..|line|] == line;
  }

  lemma {:induction false} CanonIsBase64(lines: seq<string>)
    ensures forall c | c in CanonLines(lines) :: IsBase64(c)
  {
    if lines != [] {
      CanonIsBase64(lines[..|lines| - 1]);
      KeepIsBase64(Trim(lines[|lines| - 1]));
    }
  }

  lemma {:induction false} KeepIsBase64(line: string)
    ensures forall c | c in Keep(line) :: IsBase64(c)
  {
    if line != "" { KeepIsBase64(line[..|line| - 1]); }
  }

  // ---- layout makes no difference -----------------------------------------------------------

  lemma CanonLast(lines: seq<string>, line: string)
    ensures CanonLines(lines + [line]) == CanonLines(lines) + CanonLine(line)
  {
    assert (lines + [line])[..|lines|] == lines;
  }

  lemma {:induction false} CanonFirst(line: string, rest: seq<string>)
    ensures CanonLines([line] + rest) == CanonLine(line) + CanonLines(rest)
  {
    if rest == [] {
      CanonLast([], line);
      assert [line] + rest == [] + [line];
    } else {
      var front, last := rest[..|rest| - 1], rest[|rest| - 1];
      CanonFirst(line, front);
      CanonFirstStep(line, front, last);
      assert rest == front + [last];
    }
  }

  lemma CanonFirstStep(line: string, front: seq<string>, last: string)
    requires CanonLines([line] + front) == CanonLine(line) + CanonLines(front)
    ensures CanonLines([line] + (front + [last])) == CanonLine(line) + CanonLines(front + [last])
  {
    CanonLast([line] + front, last);
    CanonLast(front, last);
    assert [line] + (front + [last]) == [line] + front + [last];
    Associates(CanonLine(line), CanonLines(front), CanonLine(last));
  }

  lemma Associates(a: string, b: string, c: string)
    ensures a + b + c == a + (b + c)
  {
  }

  lemma BlankLineIsNothing(lines: seq<string>)
    ensures CanonLines([""] + lines) == CanonLines(lines) && CanonLines(lines + [""]) == CanonLines(lines)
    ensures CanonLine("") == ""
  {
    CanonFirst("", lines);
    assert (lines + [""])[..|lines|] == lines;
  }

  /** Lines that trim to the same reduce to the same. */
  lemma {:induction false} SameTrimmedSameCanon(a: seq<string>, b: seq<string>)
    requires |a| == |b| && forall i | 0 <= i < |a| :: Trim(a[i]) == Trim(b[i])
    ensures CanonLines(a) == CanonLines(b)
  {
    if a != [] { SameTrimmedSameCanon(a[..|a| - 1], b[..|b| - 1]); }
  }

  /** Two texts whose lines differ only in a CR at the end. */
  predicate SameButReturns(a: seq<string>, b: seq<string>) {
    |a| == |b| && forall i | 0 <= i < |a| :: SameButReturn(a[i], b[i])
  }

  predicate SameButReturn(a: string, b: string) {
    a == b || a == b + "\r"
  }

  lemma LinesCons(c: char, s: string)
    ensures Lines([c] + s) == Before(c, Lines(s))
  {
    assert ([c] + s)[1..] == s;
  }

  lemma {:induction false} DropReturnsLines(s: string)
    ensures SameButReturns(Lines(s), Lines(DropReturns(s)))
  {
    if |s| >= 2 {
      if s[0] == '\r' && s[1] == '\n' {
        DropReturnsLines(s[2..]);
        ReturnLines(s[2..], DropReturns(s[2..]));
        assert s == ['\r'] + (['\n'] + s[2..]);
      } else {
        DropReturnsLines(s[1..]);
        LinesCons(s[0], DropReturns(s[1..]));
        BeforeKeepsSame(s[0], Lines(s[1..]), Lines(DropReturns(s[1..])));
      }
    }
  }

  lemma ReturnLines(a: string, b: string)
    requires SameButReturns(Lines(a), Lines(b))
    ensures SameButReturns(Lines(['\r'] + (['\n'] + a)), Lines(['\n'] + b))
  {
    LinesCons('\n', a);
    LinesCons('\n', b);
    LinesCons('\r', ['\n'] + a);
    assert ([""] + Lines(a))[1..] == Lines(a) && ['\r'] + "" == "\r";
    assert Lines(['\r'] + (['\n'] + a)) == ["\r"] + Lines(a);
    assert SameButReturn("\r", "");
  }

  lemma BeforeKeepsSame(c: char, a: seq<string>, b: seq<string>)
    requires SameButReturns(a, b) && a != []
    ensures SameButReturns(Before(c, a), Before(c, b))
  {
    assert SameButReturn(a[0], b[0]);
    Associates([c], b[0], "\r");
    assert SameButReturn([c] + a[0], [c] + b[0]);
    assert c == '\n' ==> SameButReturn("", "");
  }

  lemma CanonIgnoresReturns(s: string)
    ensures Canon(DropReturns(s)) == Canon(s)
  {
    DropReturnsLines(s);
    var a, b := Lines(s), Lines(DropReturns(s));
    forall i | 0 <= i < |a| ensures Trim(a[i]) == Trim(b[i]) {
      TrimIgnoresEnds(b[i], '\r');
    }
    SameTrimmedSameCanon(a, b);
  }

  lemma SpaceInFront(lines: seq<string>, c: char)
    requires lines != [] && IsSpace(c) && c != '\n'
    ensures CanonLines(Before(c, lines)) == CanonLines(lines)
  {
    TrimIgnoresEnds(lines[0], c);
    SameTrimmedSameCanon(Before(c, lines), lines);
  }

  lemma SpaceBehind(lines: seq<string>, c: char)
    requires lines != [] && IsSpace(c) && c != '\n'
    ensures CanonLines(Behind(lines, c)) == CanonLines(lines)
  {
    TrimIgnoresEnds(lines[|lines| - 1], c);
    SameTrimmedSameCanon(Behind(lines, c), lines);
  }

  /** A space in front of the text makes no difference. */
  lemma CanonIgnoresSpaceInFront(s: string, c: char)
    requires IsSpace(c)
    ensures Canon([c] + s) == Canon(s)
  {
    assert ([c] + s)[1..] == s;
    assert Lines([c] + s) == Before(c, Lines(s));
    if c == '\n' { BlankLineIsNothing(Lines(s)); } else { SpaceInFront(Lines(s), c); }
  }

  lemma CanonIgnoresSpaceBehind(s: string, c: char)
    requires IsSpace(c)
    ensures Canon(s + [c]) == Canon(s)
  {
    LinesSnoc(s, c);
    if c == '\n' { BlankLineIsNothing(Lines(s)); } else { SpaceBehind(Lines(s), c); }
  }

  /** Whatever ignores one more space in front ignores TrimLeft; so at the other end. */
  lemma {:induction false} IgnoresTrimLeft<T(!new)>(f: string -> T, s: string)
    requires forall c, rest :: IsSpace(c) ==> f([c] + rest) == f(rest)
    ensures f(TrimLeft(s)) == f(s)
  {
    if s != "" && IsSpace(s[0]) {
      IgnoresTrimLeft(f, s[1..]);
      assert [s[0]] + s[1..] == s;
    }
  }

  lemma {:induction false} IgnoresTrimRight<T(!new)>(f: string -> T, s: string)
    requires forall front, c :: IsSpace(c) ==> f(front + [c]) == f(front)
    ensures f(TrimRight(s)) == f(s)
  {
    if s != "" && IsSpace(s[|s| - 1]) {
      IgnoresTrimRight(f, s[..|s| - 1]);
      assert s[..|s| - 1] + [s[|s| - 1]] == s;
    }
  }

  lemma CanonIgnoresTrim(s: string)
    ensures Canon(Trim(s)) == Canon(s)
  {
    forall c, rest | IsSpace(c) ensures Canon([c] + rest) == Canon(rest) {
      CanonIgnoresSpaceInFront(rest, c);
    }
    forall front, c | IsSpace(c) ensures Canon(front + [c]) == Canon(front) {
      CanonIgnoresSpaceBehind(front, c);
    }
    IgnoresTrimLeft(Canon, s);
    IgnoresTrimRight(Canon, TrimLeft(s));
  }

  lemma {:induction false} CanonIgnoresBlanks(lines: seq<string>, lastBlank: bool)
    ensures CanonLines(Collapse(lines, lastBlank)) == CanonLines(lines)
  {
    if lines != [] {
      var line, rest := Trim(lines[0]), lines[1..];
      assert lines == [lines[0]] + rest;
      CanonFirst(lines[0], rest);
      CanonOfTrimmed(lines[0]);
      CanonIgnoresBlanks(rest, line == "");
      var tidy := Collapse(rest, line == "");
      if line != "" {
        CanonFirst(line, tidy);
      } else if lastBlank {
        assert Collapse(lines, lastBlank) == tidy;
      } else {
        CanonFirst("", tidy);
      }
    }
  }

  lemma CanonOfTrimmed(line: string)
    ensures CanonLine(Trim(line)) == CanonLine(line)
    ensures CanonLine("") == ""
  {
    TrimTwice(line);
  }

  /** Line endings, indentation and blank lines make no difference to the reduced text: it is that
      of the raw value with each literal backslash-n read as a newline. */
  lemma CanonIgnoresLayout(value: string)
    ensures Canon(Normalized(value)) == Canon(Unescape(value))
  {
    var cleaned := DropReturns(Unescape(value));
    ResultLines(value);
    CanonIgnoresBlanks(Lines(Trim(cleaned)), false);
    CanonIgnoresTrim(cleaned);
    CanonIgnoresReturns(Unescape(value));
  }
}
