/** Greedy word wrap, and why no other wrap of the same words is shorter. */
module Wrap {
  import opened WhiteSpace

  // text.split(/\s+/): a run of white space ends a word, so only the first and the last can be empty.
  function Words(text: string): (ws: seq<string>)
    ensures |ws| > 0
  {
    if text == "" then [""]
    else
      var rest := Words(text[1..]);
      if !IsSpace(text[0]) then [[text[0]] + rest[0]] + rest[1..]
      else if |text| > 1 && IsSpace(text[1]) then rest
      else [""] + rest
  }

  lemma {:induction false} FirstWord(text: string)
    ensures Words(text)[0] == "" <==> text == "" || IsSpace(text[0])
  {
    if text != "" { FirstWord(text[1..]); }
  }

  lemma {:induction false} LastWord(text: string)
    ensures |Words(text)| > 1 && Words(text)[|Words(text)| - 1] == "" ==> IsSpace(text[|text| - 1])
  {
    if text != "" { LastWord(text[1..]); }
  }

  lemma {:induction false} InnerWords(text: string)
    ensures forall i | 0 < i < |Words(text)| - 1 :: Words(text)[i] != ""
  {
    if text != "" {
      InnerWords(text[1..]);
      FirstWord(text[1..]);
    }
  }

  lemma WordsShape(text: string)
    ensures forall i | 0 < i < |Words(text)| - 1 :: Words(text)[i] != ""
    ensures Words(text)[0] == "" <==> text == "" || IsSpace(text[0])
    ensures |Words(text)| > 1 && Words(text)[|Words(text)| - 1] == "" ==> IsSpace(text[|text| - 1])
  {
    InnerWords(text);
    FirstWord(text);
    LastWord(text);
  }

  /** Text that does not begin or end in white space splits into non-empty words. */
  lemma TrimmedWords(text: string)
    requires text != "" && !IsSpace(text[0]) && !IsSpace(text[|text| - 1])
    ensures forall w | w in Words(text) :: w != ""
  {
    WordsShape(text);
    var ws := Words(text);
    forall i | 0 <= i < |ws| ensures ws[i] != "" {
      if 0 < i < |ws| - 1 { assert Words(text)[i] != ""; }
    }
  }

  ghost predicate Solid(s: string) { forall i | 0 <= i < |s| :: !IsSpace(s[i]) }

  // Words with the given gaps between them.
  function Woven(ws: seq<string>, gaps: seq<string>): string
    requires |ws| == |gaps| + 1
  {
    if gaps == [] then ws[0] else ws[0] + gaps[0] + Woven(ws[1..], gaps[1..])
  }

  /** The words are the text's own: with the runs of white space between them they spell the text, and no word
      holds any white space itself. */
  lemma {:induction false} WordsSpellTheText(text: string) returns (gaps: seq<string>)
    ensures |Words(text)| == |gaps| + 1 && Woven(Words(text), gaps) == text
    ensures forall i | 0 <= i < |Words(text)| :: Solid(Words(text)[i])
    ensures forall i | 0 <= i < |gaps| :: gaps[i] != "" && Blank(gaps[i])
  {
    WordsAreSolid(text);
    if text == "" {
      gaps := [];
    } else {
      var rest := Words(text[1..]);
      gaps := WordsSpellTheText(text[1..]);
      if !IsSpace(text[0]) {
        WovenOntoWord(text[0], rest, gaps);
      } else if |text| > 1 && IsSpace(text[1]) {
        WordsShape(text[1..]);
        gaps := WovenOntoGap(text[0], rest, gaps, text[1..]);
      } else {
        WovenBehindGap(text[0], rest, gaps);
        gaps := [[text[0]]] + gaps;
      }
    }
  }

  lemma {:induction false} WordsAreSolid(text: string)
    ensures forall i | 0 <= i < |Words(text)| :: Solid(Words(text)[i])
  {
    if text != "" { WordsAreSolid(text[1..]); }
  }

  lemma WovenBehindGap(c: char, ws: seq<string>, gaps: seq<string>)
    requires |ws| == |gaps| + 1
    ensures Woven([""] + ws, [[c]] + gaps) == [c] + Woven(ws, gaps)
  {
    assert ([""] + ws)[1..] == ws && ([[c]] + gaps)[1..] == gaps;
    assert "" + [c] + Woven(ws, gaps) == [c] + Woven(ws, gaps);
  }

  lemma WovenOntoWord(c: char, ws: seq<string>, gaps: seq<string>)
    requires |ws| == |gaps| + 1
    ensures Woven([[c] + ws[0]] + ws[1..], gaps) == [c] + Woven(ws, gaps)
  {
    var longer := [[c] + ws[0]] + ws[1..];
    assert longer[1..] == ws[1..];
    if gaps != [] {
      assert ([c] + ws[0]) + gaps[0] + Woven(ws[1..], gaps[1..]) == [c] + (ws[0] + gaps[0] + Woven(ws[1..], gaps[1..]));
    }
  }

  // One more blank in front of text that begins with one.
  lemma WovenOntoGap(c: char, ws: seq<string>, gaps: seq<string>, text: string) returns (longer: seq<string>)
    requires |ws| == |gaps| + 1 && Woven(ws, gaps) == text && ws[0] == "" && text != "" && IsSpace(c)
    requires forall i | 0 <= i < |gaps| :: gaps[i] != "" && Blank(gaps[i])
    ensures |longer| == |gaps| && Woven(ws, longer) == [c] + text
    ensures forall i | 0 <= i < |longer| :: longer[i] != "" && Blank(longer[i])
  {
    longer := [[c] + gaps[0]] + gaps[1..];
    assert longer[1..] == gaps[1..];
    assert "" + ([c] + gaps[0]) + Woven(ws[1..], gaps[1..]) == [c] + ("" + gaps[0] + Woven(ws[1..], gaps[1..]));
  }

  // The loop's two variables, after the given words.
  datatype Progress = Progress(lines: seq<string>, current: string)

  function Step(p: Progress, word: string, width: int): Progress {
    if |p.current| == 0 then Progress(p.lines, word)
    else if |p.current| + 1 + |word| <= width then Progress(p.lines, p.current + " " + word)
    else Progress(p.lines + [p.current], word)
  }

  function After(words: seq<string>, width: int): Progress {
    if words == [] then Progress([], "") else Step(After(words[..|words| - 1], width), words[|words| - 1], width)
  }

  function Lines(words: seq<string>, width: int): seq<string> {
    var p := After(words, width);
    if |p.current| > 0 then p.lines + [p.current] else p.lines
  }

  method WrapToWidth(text: string, width: int) returns (lines: seq<string>)
    ensures lines == Lines(Words(text), width)
  {
    lines := [];
    var current := "";
    var words := Words(text);
    for i := 0 to |words|
      invariant Progress(lines, current) == After(words[..i], width)
    {
      assert words[..i + 1][..i] == words[..i];
      var word := words[i];
      if |current| == 0 {
        current := word;
      } else if |current| + 1 + |word| <= width {
        current := current + " " + word;
      } else {
        lines := lines + [current];
        current := word;
      }
    }
    assert words[..|words|] == words;
    if |current| > 0 { lines := lines + [current]; }
  }

  function Measure(terminal: int, indent: string): int {
    var room := terminal - |indent| - 1;
    var capped := if room < 76 then room else 76;
    if capped < 32 then 32 else capped
  }

  /** The measure leaves the last column free, is never above 76, and never below 32, whatever the terminal. */
  lemma MeasureFits(terminal: int, indent: string)
    ensures 32 <= Measure(terminal, indent) <= 76
    ensures terminal >= |indent| + 33 ==> |indent| + Measure(terminal, indent) < terminal
    ensures |indent| + 33 <= terminal <= |indent| + 77 ==> |indent| + Measure(terminal, indent) + 1 == terminal
  {}

  function Indented(lines: seq<string>, indent: string): seq<string> {
    seq(|lines|, i requires 0 <= i < |lines| => indent + lines[i])
  }

  // The same wrap to the block's measure, every line behind the indent.
  method WrapParagraph(text: string, indent: string, terminal: int) returns (lines: seq<string>)
    ensures lines == Indented(Lines(Words(text), Measure(terminal, indent)), indent)
  {
    var measure := Measure(terminal, indent);
    lines := [];
    var current := "";
    var words := Words(text);
    for i := 0 to |words|
      invariant lines == Indented(After(words[..i], measure).lines, indent)
      invariant current == After(words[..i], measure).current
    {
      assert words[..i + 1][..i] == words[..i];
      var word := words[i];
      if current == "" {
        current := word;
      } else if |current| + 1 + |word| <= measure {
        current := current + " " + word;
      } else {
        lines := lines + [indent + current];
        current := word;
      }
    }
    assert words[..|words|] == words;
    if current != "" { lines := lines + [indent + current]; }
  }

  /** Lines as consecutive groups of words: group k runs from break k to break k + 1. */

  function Join(words: seq<string>): string {
    if words == [] then ""
    else if |words| == 1 then words[0]
    else Join(words[..|words| - 1]) + " " + words[|words| - 1]
  }

  ghost predicate IsBreaks(b: seq<nat>, n: nat) {
    && b != [] && b[0] == 0 && b[|b| - 1] == n
    && forall i, j | 0 <= i < j < |b| :: b[i] < b[j]
  }

  // A line fits, or is a single word.
  ghost predicate FitsAt(words: seq<string>, b: seq<nat>, width: int, k: nat)
    requires IsBreaks(b, |words|) && k + 1 < |b|
  {
    |Join(words[b[k]..b[k + 1]])| <= width || b[k + 1] == b[k] + 1
  }

  ghost predicate IsWrap(words: seq<string>, b: seq<nat>, width: int) {
    && IsBreaks(b, |words|)
    && forall k: nat {:trigger FitsAt(words, b, width, k)} | k + 1 < |b| :: FitsAt(words, b, width, k)
  }

  // The word after the line would not have fitted on it.
  ghost predicate FullAt(words: seq<string>, b: seq<nat>, width: int, k: nat)
    requires IsBreaks(b, |words|) && k + 2 < |b|
  {
    b[k + 1] < b[k + 2] && |Join(words[b[k]..b[k + 1] + 1])| > width
  }

  ghost predicate IsGreedy(words: seq<string>, b: seq<nat>, width: int) {
    && IsWrap(words, b, width)
    && forall k: nat {:trigger FullAt(words, b, width, k)} | k + 2 < |b| :: FullAt(words, b, width, k)
  }

  ghost predicate LinesOf(words: seq<string>, b: seq<nat>, lines: seq<string>) {
    && IsBreaks(b, |words|) && |lines| == |b| - 1
    && forall k | 0 <= k < |lines| :: lines[k] == Join(words[b[k]..b[k + 1]])
  }

  lemma JoinSnoc(words: seq<string>, w: string)
    requires words != []
    ensures Join(words + [w]) == Join(words) + " " + w
  {
    assert (words + [w])[..|words|] == words;
  }

  lemma LastOfSlice(words: seq<string>, m: nat, n: nat)
    requires m < n <= |words|
    ensures words[m..n] == words[m..n - 1] + [words[n - 1]]
  {}

  lemma FirstOfSlice(words: seq<string>, m: nat, n: nat)
    requires m < n <= |words|
    ensures words[m..n] == [words[m]] + words[m + 1..n]
  {}

  lemma {:induction false} JoinIsLonger(words: seq<string>, i: nat, j: nat, m: nat, n: nat)
    requires m <= i < j <= n <= |words|
    ensures |Join(words[i..j])| <= |Join(words[m..n])|
    decreases (i - m) + (n - j)
  {
    if j < n {
      JoinIsLonger(words, i, j, m, n - 1);
      LastOfSlice(words, m, n);
      JoinSnoc(words[m..n - 1], words[n - 1]);
    } else if m < i {
      JoinIsLonger(words, i, j, m + 1, n);
      JoinCons(words[m], words[m + 1..n]);
      FirstOfSlice(words, m, n);
    }
  }

  lemma {:induction false} JoinCons(w: string, words: seq<string>)
    requires words != []
    ensures |Join([w] + words)| == |w| + 1 + |Join(words)|
  {
    if |words| == 1 {
      JoinSnoc([w], words[0]);
      assert [w] + words == [w] + [words[0]];
    } else {
      var init, last := words[..|words| - 1], words[|words| - 1];
      JoinCons(w, init);
      assert [w] + words == ([w] + init) + [last] && words == init + [last];
      JoinSnoc([w] + init, last);
      JoinSnoc(init, last);
    }
  }

  // The breaks the loop chooses: a new line adds one, a longer line moves the last.
  ghost function NextBreaks(b: seq<nat>, p: Progress, n: nat, w: string, width: int): seq<nat>
    requires b != []
  {
    if |p.current| == 0 || |p.current| + 1 + |w| > width then b + [n] else b[..|b| - 1] + [n]
  }

  ghost function Breaks(words: seq<string>, width: int): (b: seq<nat>)
    ensures b != []
  {
    if words == [] then [0]
    else
      var init := words[..|words| - 1];
      NextBreaks(Breaks(init, width), After(init, width), |words|, words[|words| - 1], width)
  }

  ghost predicate Invariant(words: seq<string>, width: int, b: seq<nat>, p: Progress) {
    && IsGreedy(words, b, width)
    && (words == [] ==> p == Progress([], "") && b == [0])
    && (words != [] ==> |b| > 1 && |p.current| > 0 && LinesOf(words, b, p.lines + [p.current]))
  }

  // A break list over more words says the same about the lines it already had.
  lemma SlicesStay(words: seq<string>, w: string, i: nat, j: nat)
    requires i <= j <= |words|
    ensures (words + [w])[i..j] == words[i..j]
  {}

  lemma {:induction false} LoopIsGreedy(words: seq<string>, width: int)
    requires forall w | w in words :: w != ""
    ensures Invariant(words, width, Breaks(words, width), After(words, width))
  {
    if words != [] {
      var init, w := words[..|words| - 1], words[|words| - 1];
      assert words == init + [w] && w in words && forall x | x in init :: x in words;
      LoopIsGreedy(init, width);
      OneMoreWord(init, w, width, Breaks(init, width), After(init, width));
    }
  }

  lemma OneMoreWord(init: seq<string>, w: string, width: int, b: seq<nat>, p: Progress)
    requires w != "" && b != [] && Invariant(init, width, b, p)
    ensures Invariant(init + [w], width, NextBreaks(b, p, |init| + 1, w, width), Step(p, w, width))
  {
    if init == [] {
      assert init + [w] == [w] && [w][0..1] == [w];
    } else if |p.current| + 1 + |w| > width {
      NewLine(init, w, width, b, p);
    } else {
      SameLine(init, w, width, b, p);
    }
  }

  lemma NewLine(init: seq<string>, w: string, width: int, b: seq<nat>, p: Progress)
    requires init != [] && w != "" && Invariant(init, width, b, p)
    requires |p.current| + 1 + |w| > width
    ensures Invariant(init + [w], width, b + [|init| + 1], Step(p, w, width))
  {
    var words, b' := init + [w], b + [|init| + 1];
    var lines, lines' := p.lines + [p.current], p.lines + [p.current] + [w];
    forall k | 0 <= k < |lines'| ensures lines'[k] == Join(words[b'[k]..b'[k + 1]]) {
      if k < |lines| {
        SlicesStay(init, w, b[k], b[k + 1]);
        assert lines'[k] == lines[k];
      } else {
        assert words[b'[k]..b'[k + 1]] == [w];
      }
    }
    NewLineFits(init, w, width, b);
    NewLineIsFull(init, w, width, b, p);
  }

  lemma NewLineFits(init: seq<string>, w: string, width: int, b: seq<nat>)
    requires IsWrap(init, b, width)
    ensures IsWrap(init + [w], b + [|init| + 1], width)
  {
    var words, b' := init + [w], b + [|init| + 1];
    forall k: nat | k + 1 < |b'| ensures FitsAt(words, b', width, k) {
      if k + 1 < |b| {
        assert FitsAt(init, b, width, k);
        SlicesStay(init, w, b[k], b[k + 1]);
      }
    }
  }

  lemma NewLineIsFull(init: seq<string>, w: string, width: int, b: seq<nat>, p: Progress)
    requires init != [] && Invariant(init, width, b, p) && |p.current| + 1 + |w| > width
    requires IsBreaks(b + [|init| + 1], |init + [w]|)
    ensures forall k: nat {:trigger FullAt(init + [w], b + [|init| + 1], width, k)} | k + 1 < |b| ::
      FullAt(init + [w], b + [|init| + 1], width, k)
  {
    var words, b' := init + [w], b + [|init| + 1];
    forall k: nat | k + 2 < |b'| ensures FullAt(words, b', width, k) {
      if k + 2 < |b| {
        assert FullAt(init, b, width, k);
        SlicesStay(init, w, b[k], b[k + 1] + 1);
      } else {
        var lines := p.lines + [p.current];
        assert p.current == lines[k] == Join(init[b[k]..b[k + 1]]);
        assert words[b[k]..b[k + 1] + 1] == init[b[k]..b[k + 1]] + [w];
        JoinSnoc(init[b[k]..b[k + 1]], w);
      }
    }
  }

  // A word that joins the last line moves the last break by one.
  function Longer(b: seq<nat>, n: nat): seq<nat>
    requires b != []
  {
    b[..|b| - 1] + [n + 1]
  }

  lemma LongerBreaks(b: seq<nat>, n: nat)
    requires IsBreaks(b, n) && |b| > 1
    ensures IsBreaks(Longer(b, n), n + 1) && |Longer(b, n)| == |b|
    ensures forall k :: 0 <= k < |b| - 1 ==> Longer(b, n)[k] == b[k]
  {}

  lemma LastSlice(init: seq<string>, w: string, i: nat)
    requires i <= |init|
    ensures (init + [w])[i..|init| + 1] == init[i..] + [w]
  {}

  // The last line, with the word joined to it.
  lemma LastLineGrows(init: seq<string>, w: string, i: nat)
    requires i < |init|
    ensures Join((init + [w])[i..|init| + 1]) == Join(init[i..|init|]) + " " + w
  {
    LastSlice(init, w, i);
    assert init[i..] == init[i..|init|];
    JoinSnoc(init[i..], w);
  }

  lemma SameLineLines(init: seq<string>, w: string, b: seq<nat>, p: Progress)
    requires init != [] && IsBreaks(b, |init|) && |b| > 1 && LinesOf(init, b, p.lines + [p.current])
    ensures |p.lines| == |b| - 2 && p.current == Join(init[b[|b| - 2]..|init|])
    ensures LinesOf(init + [w], Longer(b, |init|), p.lines + [p.current + " " + w])
  {
    var words, b', lines := init + [w], Longer(b, |init|), p.lines + [p.current];
    var lines' := p.lines + [p.current + " " + w];
    LongerBreaks(b, |init|);
    assert lines[|p.lines|] == p.current;
    LastLineGrows(init, w, b[|b| - 2]);
    forall k | 0 <= k < |lines'| ensures lines'[k] == Join(words[b'[k]..b'[k + 1]]) {
      if k < |p.lines| {
        SlicesStay(init, w, b[k], b[k + 1]);
        assert lines'[k] == lines[k];
      }
    }
  }

  lemma SameLineFits(init: seq<string>, w: string, width: int, b: seq<nat>)
    requires IsGreedy(init, b, width) && |b| > 1 && |Join(init[b[|b| - 2]..|init|])| + 1 + |w| <= width
    ensures IsWrap(init + [w], Longer(b, |init|), width)
  {
    var words, b' := init + [w], Longer(b, |init|);
    LongerBreaks(b, |init|);
    forall k: nat | k + 1 < |b'| ensures FitsAt(words, b', width, k) {
      if k + 2 < |b'| {
        assert FitsAt(init, b, width, k);
        SlicesStay(init, w, b[k], b[k + 1]);
      } else {
        LastLineGrows(init, w, b[k]);
      }
    }
  }

  lemma SameLineFull(init: seq<string>, w: string, width: int, b: seq<nat>)
    requires IsGreedy(init, b, width) && |b| > 1 && IsWrap(init + [w], Longer(b, |init|), width)
    ensures IsGreedy(init + [w], Longer(b, |init|), width)
  {
    var words, b' := init + [w], Longer(b, |init|);
    LongerBreaks(b, |init|);
    forall k: nat | k + 2 < |b'| ensures FullAt(words, b', width, k) {
      assert FullAt(init, b, width, k);
      SlicesStay(init, w, b[k], b[k + 1] + 1);
    }
  }

  lemma SameLine(init: seq<string>, w: string, width: int, b: seq<nat>, p: Progress)
    requires init != [] && w != "" && Invariant(init, width, b, p)
    requires |p.current| + 1 + |w| <= width
    ensures Invariant(init + [w], width, Longer(b, |init|), Step(p, w, width))
  {
    SameLineLines(init, w, b, p);
    SameLineFits(init, w, width, b);
    SameLineFull(init, w, width, b);
  }

  // After any number of lines the greedy wrap has used at least as many words as any other.
  lemma {:induction false} GreedyStaysAhead(words: seq<string>, g: seq<nat>, h: seq<nat>, width: int, k: nat)
    requires IsGreedy(words, g, width) && IsWrap(words, h, width)
    requires k < |g| && k < |h|
    ensures h[k] <= g[k]
  {
    if k > 0 {
      GreedyStaysAhead(words, g, h, width, k - 1);
      if k + 1 < |g| && g[k] < h[k] {
        assert FullAt(words, g, width, k - 1) && FitsAt(words, h, width, k - 1);
        assert h[k - 1] <= g[k - 1] < g[k];
        JoinIsLonger(words, g[k - 1], g[k] + 1, h[k - 1], h[k]);
        assert false;
      }
    }
  }

  lemma NoWrapIsShorter(words: seq<string>, g: seq<nat>, h: seq<nat>, width: int)
    requires IsGreedy(words, g, width) && IsWrap(words, h, width)
    ensures |g| <= |h|
  {
    if |h| < |g| {
      GreedyStaysAhead(words, g, h, width, |h| - 1);
    }
  }

  /** For non-empty words the lines are the words in order, each line fits or is a single word, and no
      consecutive grouping with that property has fewer lines. */
  lemma GreedyIsOptimal(words: seq<string>, width: int)
    requires forall w | w in words :: w != ""
    ensures LinesOf(words, Breaks(words, width), Lines(words, width))
    ensures IsWrap(words, Breaks(words, width), width)
    ensures forall h :: IsWrap(words, h, width) ==> |Lines(words, width)| <= |h| - 1
  {
    LoopIsGreedy(words, width);
    forall h | IsWrap(words, h, width) ensures |Lines(words, width)| <= |h| - 1 {
      NoWrapIsShorter(words, Breaks(words, width), h, width);
    }
  }

  /** A wrapped paragraph is the greedy lines, each behind the indent; where the terminal has room for the smallest
      measure every line leaves its last column free, unless it is one word. */
  lemma ParagraphFits(words: seq<string>, indent: string, terminal: int, k: nat)
    requires (forall w | w in words :: w != "") && k < |Lines(words, Measure(terminal, indent))|
    ensures var lines := Lines(words, Measure(terminal, indent));
      var shown := Indented(lines, indent);
      && |shown| == |lines| && |shown[k]| == |indent| + |lines[k]|
      && shown[k][..|indent|] == indent && shown[k][|indent|..] == lines[k]
      && (terminal >= |indent| + 33 ==> |shown[k]| < terminal || lines[k] in words)
  {
    var width := Measure(terminal, indent);
    var b := Breaks(words, width);
    GreedyIsOptimal(words, width);
    assert FitsAt(words, b, width, k);
    assert b[k] < b[k + 1] <= |words| by { if k + 1 < |b| - 1 { assert b[k + 1] < b[|b| - 1]; } }
    if b[k + 1] == b[k] + 1 {
      assert words[b[k]..b[k + 1]] == [words[b[k]]];
      assert words[b[k]] in words;
    }
  }

  /** Leading white space changes nothing. */
  lemma {:induction false} LeadingSpace(words: seq<string>, width: int)
    ensures After([""] + words, width) == After(words, width)
  {
    if words == [] {
      assert ([""] + words)[..0] == [];
    } else {
      LeadingSpace(words[..|words| - 1], width);
      assert ([""] + words)[..|words|] == [""] + words[..|words| - 1];
    }
  }

  /** Trailing white space leaves a blank on the end of the last line exactly when it has room for one. */
  lemma TrailingSpace(words: seq<string>, width: int)
    requires words != [] && forall w | w in words :: w != ""
    ensures Lines(words, width) != []
    ensures var lines := Lines(words, width);
      var last := lines[|lines| - 1];
      Lines(words + [""], width) ==
        lines[..|lines| - 1] + [if |last| + 1 <= width then last + " " else last]
  {
    LoopIsGreedy(words, width);
    var p := After(words, width);
    assert (words + [""])[..|words|] == words;
    assert After(words + [""], width) == Step(p, "", width);
    assert Lines(words, width) == p.lines + [p.current];
    assert (p.lines + [p.current])[..|p.lines|] == p.lines;
    assert p.current + " " + "" == p.current + " ";
  }

  // White space alone splits into two empty words.
  lemma {:induction false} BlankWords(space: string)
    requires space != "" && forall i :: 0 <= i < |space| ==> IsSpace(space[i])
    ensures Words(space) == ["", ""]
  {
    if |space| > 1 { BlankWords(space[1..]); }
  }

  // White space after a text that does not end in any adds an empty word.
  lemma {:induction false} SpaceAfter(text: string, space: string)
    requires text != "" && !IsSpace(text[|text| - 1])
    requires space != "" && forall i :: 0 <= i < |space| ==> IsSpace(space[i])
    ensures Words(text + space) == Words(text) + [""]
  {
    assert (text + space)[1..] == text[1..] + space;
    if |text| == 1 {
      BlankWords(space);
      assert text[1..] + space == space;
      assert Words(text) == [[text[0]] + ""];
      assert [text[0]] + "" == [text[0]];
    } else {
      SpaceAfter(text[1..], space);
      var rest := Words(text[1..]);
      assert (rest + [""])[0] == rest[0] && (rest + [""])[1..] == rest[1..] + [""];
    }
  }

  /** Trimmed text followed by white space wraps like the text, with a blank on the end of its last line
      exactly when that line has room for one. */
  lemma PaddedText(text: string, space: string, width: int)
    requires text != "" && !IsSpace(text[0]) && !IsSpace(text[|text| - 1])
    requires space != "" && forall i :: 0 <= i < |space| ==> IsSpace(space[i])
    ensures Lines(Words(text), width) != []
    ensures var lines := Lines(Words(text), width);
      var last := lines[|lines| - 1];
      Lines(Words(text + space), width) == lines[..|lines| - 1] + [if |last| + 1 <= width then last + " " else last]
  {
    TrimmedWords(text);
    SpaceAfter(text, space);
    TrailingSpace(Words(text), width);
  }

  // White space before a text that does not begin with any adds an empty word in front.
  lemma {:induction false} SpaceBefore(space: string, text: string)
    requires text != "" && !IsSpace(text[0])
    requires space != "" && forall i :: 0 <= i < |space| ==> IsSpace(space[i])
    ensures Words(space + text) == [""] + Words(text)
  {
    assert (space + text)[1..] == space[1..] + text;
    if |space| > 1 {
      SpaceBefore(space[1..], text);
    } else {
      assert space[1..] + text == text;
    }
  }

  /** White space before trimmed text changes no line. */
  lemma IndentedText(space: string, text: string, width: int)
    requires text != "" && !IsSpace(text[0])
    requires space != "" && forall i :: 0 <= i < |space| ==> IsSpace(space[i])
    ensures Lines(Words(space + text), width) == Lines(Words(text), width)
  {
    SpaceBefore(space, text);
    LeadingSpace(Words(text), width);
  }
}
