/** strings.TrimSpace, strings.Split and strings.Join on newlines, and pairs of characters. */
module Text {
  /** unicode.IsSpace */
  predicate IsSpace(c: char) {
    c in {'\t', '\n', '\U{0B}', '\U{0C}', '\r', ' ', '\U{85}', '\U{A0}', '\U{1680}', '\U{2028}', '\U{2029}',
          '\U{202F}', '\U{205F}', '\U{3000}'}
    || '\U{2000}' <= c <= '\U{200A}'
  }

  // ---- trimming -----------------------------------------------------------------------------

  function TrimLeft(s: string): string {
    if s != "" && IsSpace(s[0]) then TrimLeft(s[1..]) else s
  }

  function TrimRight(s: string): string {
    if s != "" && IsSpace(s[|s| - 1]) then TrimRight(s[..|s| - 1]) else s
  }

  function Trim(s: string): string {
    TrimRight(TrimLeft(s))
  }

  predicate Trimmed(s: string) {
    s == "" || (!IsSpace(s[0]) && !IsSpace(s[|s| - 1]))
  }

  lemma {:induction false} TrimLeftCuts(s: string) returns (i: nat)
    ensures i <= |s| && TrimLeft(s) == s[i..]
    ensures TrimLeft(s) == "" || !IsSpace(TrimLeft(s)[0])
  {
    i := 0;
    if s != "" && IsSpace(s[0]) {
      var j := TrimLeftCuts(s[1..]);
      i := j + 1;
    }
  }

  lemma {:induction false} TrimRightCuts(s: string) returns (i: nat)
    ensures i <= |s| && TrimRight(s) == s[..i]
    ensures TrimRight(s) == "" || !IsSpace(TrimRight(s)[|TrimRight(s)| - 1])
  {
    i := |s|;
    if s != "" && IsSpace(s[|s| - 1]) {
      i := TrimRightCuts(s[..|s| - 1]);
      assert s[..|s| - 1][..i] == s[..i];
    }
  }

  /** Trimming cuts a piece out of the text, and the piece is trimmed. */
  lemma TrimCuts(s: string) returns (i: nat, j: nat)
    ensures i <= j <= |s| && Trim(s) == s[i..j] && Trimmed(Trim(s))
  {
    i := TrimLeftCuts(s);
    var n := TrimRightCuts(s[i..]);
    j := i + n;
    assert s[i..][..n] == s[i..j];
  }

  lemma TrimmedStays(s: string)
    requires Trimmed(s)
    ensures Trim(s) == s
  {
  }

  lemma {:induction false} TrimRightKeeps(s: string)
    requires s != "" && !IsSpace(s[0])
    ensures TrimRight(s) != ""
  {
    if IsSpace(s[|s| - 1]) { TrimRightKeeps(s[..|s| - 1]); }
  }

  lemma {:induction false} TrimLeftKeeps(s: string)
    requires s != "" && !IsSpace(s[|s| - 1])
    ensures TrimLeft(s) != "" && !IsSpace(TrimLeft(s)[|TrimLeft(s)| - 1])
  {
    if IsSpace(s[0]) { TrimLeftKeeps(s[1..]); }
  }

  /** A text that starts or ends with something visible does not trim to nothing. */
  lemma TrimKeeps(s: string)
    requires s != "" && (!IsSpace(s[0]) || !IsSpace(s[|s| - 1]))
    ensures Trim(s) != ""
  {
    if !IsSpace(s[0]) { TrimRightKeeps(s); } else { TrimLeftKeeps(s); }
  }

  lemma TrimTwice(s: string)
    ensures Trim(Trim(s)) == Trim(s)
  {
    var i, j := TrimCuts(s);
    TrimmedStays(Trim(s));
  }

  /** A space at either end makes no difference. */
  lemma TrimIgnoresEnds(s: string, c: char)
    requires IsSpace(c)
    ensures Trim([c] + s) == Trim(s) && Trim(s + [c]) == Trim(s)
  {
    assert ([c] + s)[1..] == s;
    TrimLeftSnoc(s, c);
    if TrimLeft(s) != "" {
      assert (TrimLeft(s) + [c])[..|TrimLeft(s)|] == TrimLeft(s);
    }
  }

  lemma {:induction false} TrimLeftSnoc(s: string, c: char)
    requires IsSpace(c)
    ensures TrimLeft(s + [c]) == if TrimLeft(s) == "" then "" else TrimLeft(s) + [c]
  {
    if s == "" {
      assert s + [c] == [c] && [c][1..] == "";
    } else if IsSpace(s[0]) {
      TrimLeftSnoc(s[1..], c);
      assert (s + [c])[1..] == s[1..] + [c];
    }
  }

  // ---- lines --------------------------------------------------------------------------------

  /** strings.Split(s, "\n") */
  function Lines(s: string): (lines: seq<string>)
    ensures lines != []
  {
    if s == "" then [""] else Before(s[0], Lines(s[1..]))
  }

  /** The lines of a text with one more character in front. */
  function Before(c: char, lines: seq<string>): (r: seq<string>)
    requires lines != []
    ensures r != []
  {
    if c == '\n' then [""] + lines else [[c] + lines[0]] + lines[1..]
  }

  /** The lines of a text with one more character at the end. */
  function Behind(lines: seq<string>, c: char): (r: seq<string>)
    requires lines != []
    ensures r != []
  {
    if c == '\n' then lines + [""] else lines[..|lines| - 1] + [lines[|lines| - 1] + [c]]
  }

  lemma BeforeAndBehind(c: char, lines: seq<string>, d: char)
    requires lines != []
    ensures Before(c, Behind(lines, d)) == Behind(Before(c, lines), d)
  {
    if c != '\n' && d != '\n' && |lines| == 1 {
      assert [c] + (lines[0] + [d]) == [c] + lines[0] + [d];
    }
    var left, right := Before(c, Behind(lines, d)), Behind(Before(c, lines), d);
    assert |left| == |right|;
    forall i | 0 <= i < |left| ensures left[i] == right[i] {}
  }

  /** strings.Join(lines, "\n") */
  function Unlines(lines: seq<string>): string
    requires lines != []
  {
    if |lines| == 1 then lines[0] else lines[0] + "\n" + Unlines(lines[1..])
  }

  predicate NoNewline(lines: seq<string>) {
    forall i | 0 <= i < |lines| :: '\n' !in lines[i]
  }

  lemma {:induction false} LinesHaveNoNewline(s: string)
    ensures NoNewline(Lines(s))
  {
    if s != "" { LinesHaveNoNewline(s[1..]); }
  }

  lemma {:induction false} UnlinesOfLines(s: string)
    ensures Unlines(Lines(s)) == s
  {
    if s != "" {
      var rest := Lines(s[1..]);
      UnlinesOfLines(s[1..]);
      if s[0] == '\n' {
        assert Lines(s)[1..] == rest;
        assert "" + "\n" + s[1..] == s;
      } else {
        UnlinesPrepends(s[0], rest);
      }
    }
  }

  lemma UnlinesPrepends(c: char, lines: seq<string>)
    requires lines != []
    ensures Unlines([[c] + lines[0]] + lines[1..]) == [c] + Unlines(lines)
  {
    var longer := [[c] + lines[0]] + lines[1..];
    assert longer[1..] == lines[1..];
    if |lines| > 1 {
      assert [c] + lines[0] + "\n" + Unlines(lines[1..]) == [c] + (lines[0] + "\n" + Unlines(lines[1..]));
    }
  }

  lemma {:induction false} LinesOfUnlines(lines: seq<string>)
    requires lines != [] && NoNewline(lines)
    ensures Lines(Unlines(lines)) == lines
    decreases |lines|, |lines[0]|
  {
    var s := Unlines(lines);
    if lines[0] == "" {
      if |lines| > 1 {
        LinesOfUnlines(lines[1..]);
        assert s == ['\n'] + Unlines(lines[1..]);
        assert s[1..] == Unlines(lines[1..]);
      }
    } else {
      var c, shorter := lines[0][0], [lines[0][1..]] + lines[1..];
      assert [c] + lines[0][1..] == lines[0] && shorter[1..] == lines[1..];
      assert lines == [[c] + shorter[0]] + shorter[1..];
      UnlinesPrepends(c, shorter);
      assert s[1..] == Unlines(shorter);
      LinesOfUnlines(shorter);
    }
  }

  lemma {:induction false} LinesSnoc(s: string, c: char)
    ensures Lines(s + [c]) == Behind(Lines(s), c)
  {
    if s == "" {
      assert s + [c] == [c] && [c][1..] == "" && [c] + "" == "" + [c];
      assert Lines([c]) == Before(c, Lines(""));
      assert Before(c, [""]) == Behind([""], c);
    } else {
      LinesSnoc(s[1..], c);
      assert (s + [c])[1..] == s[1..] + [c];
      BeforeAndBehind(s[0], Lines(s[1..]), c);
    }
  }

  // ---- pairs of characters ------------------------------------------------------------------

  /** `a` is nowhere followed by `b`. */
  predicate NoPair(s: string, a: char, b: char) {
    forall i | 0 <= i < |s| - 1 :: !(s[i] == a && s[i + 1] == b)
  }

  lemma PieceHasNoPair(s: string, i: nat, j: nat, a: char, b: char)
    requires i <= j <= |s| && NoPair(s, a, b)
    ensures NoPair(s[i..j], a, b)
  {
    forall k | 0 <= k < |s[i..j]| - 1 ensures !(s[i..j][k] == a && s[i..j][k + 1] == b) {
      assert !(s[i + k] == a && s[i + k + 1] == b);
    }
  }

  lemma TrimHasNoPair(s: string, a: char, b: char)
    requires NoPair(s, a, b)
    ensures NoPair(Trim(s), a, b)
  {
    var i, j := TrimCuts(s);
    PieceHasNoPair(s, i, j, a, b);
  }

  lemma {:induction false} LinesHaveNoPair(s: string, a: char, b: char)
    requires NoPair(s, a, b) && a != '\n' && b != '\n'
    ensures forall i | 0 <= i < |Lines(s)| :: NoPair(Lines(s)[i], a, b)
  {
    if s != "" {
      PieceHasNoPair(s, 1, |s|, a, b);
      assert s[1..|s|] == s[1..];
      LinesHaveNoPair(s[1..], a, b);
      FirstLineStarts(s[1..]);
    }
  }

  /** The first line starts as the text does. */
  lemma FirstLineStarts(s: string)
    ensures s != "" && s[0] != '\n' ==> Lines(s)[0] != "" && Lines(s)[0][0] == s[0]
    ensures s == "" || s[0] == '\n' ==> Lines(s)[0] == ""
  {
  }

  /** The last line ends as the text does. */
  lemma LastLineEnds(s: string)
    requires s != "" && s[|s| - 1] != '\n'
    ensures var lines := Lines(s);
      var last := lines[|lines| - 1];
      last != "" && last[|last| - 1] == s[|s| - 1]
  {
    LinesSnoc(s[..|s| - 1], s[|s| - 1]);
    assert s[..|s| - 1] + [s[|s| - 1]] == s;
  }
}
