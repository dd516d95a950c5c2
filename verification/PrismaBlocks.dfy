/** Reading a Prisma schema's comments and blocks. */
module PrismaBlocks {
  import opened Wrappers
  import opened Naming
  import opened WhiteSpace

  /** Lines. */

  function Lines(s: string): (lines: seq<string>)
    ensures lines != []
  {
    if s == "" then [""]
    else if s[0] == '\n' then [""] + Lines(s[1..])
    else var more := Lines(s[1..]); [[s[0]] + more[0]] + more[1..]
  }

  function Unlines(lines: seq<string>): string
    requires lines != []
  {
    if |lines| == 1 then lines[0] else lines[0] + "\n" + Unlines(lines[1..])
  }

  predicate Whole(line: string) { '\n' !in line }

  lemma {:induction false} LinesAreWhole(s: string)
    ensures forall i :: 0 <= i < |Lines(s)| ==> Whole(Lines(s)[i])
  {
    if s != "" { LinesAreWhole(s[1..]); }
  }

  lemma {:induction false} WholeLineThenMore(line: string, more: string)
    requires Whole(line)
    ensures Lines(line) == [line]
    ensures Lines(line + "\n" + more) == [line] + Lines(more)
  {
    if line == "" {
      assert line + "\n" + more == "\n" + more && ("\n" + more)[1..] == more;
    } else {
      WholeLineThenMore(line[1..], more);
      assert (line + "\n" + more)[1..] == line[1..] + "\n" + more;
      assert line == [line[0]] + line[1..];
    }
  }

  lemma {:induction false} LinesOfUnlines(lines: seq<string>)
    requires lines != [] && forall i :: 0 <= i < |lines| ==> Whole(lines[i])
    ensures Lines(Unlines(lines)) == lines
  {
    if |lines| == 1 {
      WholeLineThenMore(lines[0], "");
    } else {
      LinesOfUnlines(lines[1..]);
      WholeLineThenMore(lines[0], Unlines(lines[1..]));
    }
  }

  lemma UnlinesOfFirst(c: char, lines: seq<string>)
    requires lines != []
    ensures Unlines([[c] + lines[0]] + lines[1..]) == [c] + Unlines(lines)
  {
    var more := [[c] + lines[0]] + lines[1..];
    assert more[1..] == lines[1..];
    if |lines| > 1 {
      assert ([c] + lines[0]) + "\n" + Unlines(lines[1..]) == [c] + (lines[0] + "\n" + Unlines(lines[1..]));
    }
  }

  lemma {:induction false} UnlinesOfLines(s: string)
    ensures Unlines(Lines(s)) == s
  {
    if s != "" {
      UnlinesOfLines(s[1..]);
      var more := Lines(s[1..]);
      if s[0] == '\n' {
        assert ([""] + more)[1..] == more;
      } else {
        UnlinesOfFirst(s[0], more);
      }
      assert s == [s[0]] + s[1..];
    }
  }

  /** Comments. */

  predicate StartsComment(line: string) { |line| >= 2 && line[0] == '/' && line[1] == '/' }

  function StripLine(line: string, inString: bool): string {
    if line == "" then ""
    else if line[0] == '"' then [line[0]] + StripLine(line[1..], !inString)
    else if !inString && StartsComment(line) then ""
    else [line[0]] + StripLine(line[1..], inString)
  }

  lemma {:induction false} StripKeepsAPrefix(line: string, inString: bool)
    ensures StripLine(line, inString) <= line
  {
    if line != "" {
      StripKeepsAPrefix(line[1..], if line[0] == '"' then !inString else inString);
      assert line == [line[0]] + line[1..];
    }
  }

  function StripAll(lines: seq<string>): seq<string> {
    seq(|lines|, i requires 0 <= i < |lines| => StripLine(lines[i], false))
  }

  function Stripped(src: string): string { Unlines(StripAll(Lines(src))) }

  predicate CommentHere(line: string, i: nat) { i + 1 < |line| && line[i] == '/' && line[i + 1] == '/' }

  // One turn of the character loop: nothing more is kept, or the character is.
  lemma StripOn(line: string, i: nat, inString: bool, res: string)
    requires i < |line|
    ensures !inString && CommentHere(line, i) ==> res + StripLine(line[i..], inString) == res
    ensures inString || !CommentHere(line, i) ==>
      res + StripLine(line[i..], inString)
      == (res + [line[i]]) + StripLine(line[i + 1..], if line[i] == '"' then !inString else inString)
  {
    var rest := line[i..];
    assert rest[0] == line[i] && rest[1..] == line[i + 1..] && (i + 1 < |line| ==> rest[1] == line[i + 1]);
  }

  // The inner loop: one line up to its first comment.
  method StripOneLine(line: string) returns (res: string)
    ensures res == StripLine(line, false)
  {
    var inString, i := false, 0;
    res := "";
    assert line[0..] == line;
    while i < |line|
      invariant i <= |line| && res + StripLine(line[i..], inString) == StripLine(line, false)
    {
      StripOn(line, i, inString, res);
      if line[i] != '"' && !inString && CommentHere(line, i) { return; }
      res := res + [line[i]];
      if line[i] == '"' { inString := !inString; }
      i := i + 1;
    }
  }

  /** `stripComments`. */
  method StripComments(src: string) returns (out: string)
    ensures out == Stripped(src)
  {
    var lines := Lines(src);
    var kept: seq<string> := [];
    for n := 0 to |lines|
      invariant |kept| == n && forall k :: 0 <= k < n ==> kept[k] == StripLine(lines[k], false)
    {
      var res := StripOneLine(lines[n]);
      kept := kept + [res];
    }
    assert kept == StripAll(lines);
    out := Unlines(kept);
  }

  // How many quotes precede position k of a line.
  function Quotes(line: string, k: nat): nat
    requires k <= |line|
  {
    if k == 0 then 0 else Quotes(line, k - 1) + if line[k - 1] == '"' then 1 else 0
  }

  // A comment begins at k: two slashes outside any double-quoted string of the line.
  predicate CommentAt(line: string, k: nat) {
    k <= |line| && StartsComment(line[k..]) && Quotes(line, k) % 2 == 0
  }

  lemma {:induction false} StripFrom(line: string, k: nat)
    requires k <= |line|
    ensures var kept := StripLine(line[k..], Quotes(line, k) % 2 == 1);
      && (forall j :: k <= j < k + |kept| ==> !CommentAt(line, j))
      && (k + |kept| < |line| ==> CommentAt(line, k + |kept|))
    decreases |line| - k
  {
    if k < |line| {
      assert line[k..][1..] == line[k + 1..] && line[k..][0] == line[k];
      StripFrom(line, k + 1);
    } else {
      assert line[k..] == "";
    }
  }

  /** A line is kept up to exactly its first comment. */
  lemma StripsAtTheFirstComment(line: string)
    ensures var kept := StripLine(line, false);
      && kept <= line
      && (forall j :: 0 <= j < |kept| ==> !CommentAt(line, j))
      && (|kept| < |line| ==> CommentAt(line, |kept|))
  {
    assert line[0..] == line;
    StripFrom(line, 0);
    StripKeepsAPrefix(line, false);
  }

  lemma {:induction false} StripLineTwice(line: string, inString: bool)
    ensures StripLine(StripLine(line, inString), inString) == StripLine(line, inString)
  {
    if line != "" {
      if line[0] == '"' {
        StripLineTwice(line[1..], !inString);
      } else if inString || !StartsComment(line) {
        StripLineTwice(line[1..], inString);
        var kept := StripLine(line, inString);
        assert kept[1..] == StripLine(line[1..], inString);
        assert StartsComment(kept) ==> StartsComment(line);
      }
    }
  }

  lemma StrippedLines(src: string)
    ensures Lines(Stripped(src)) == StripAll(Lines(src))
  {
    var lines := Lines(src);
    LinesAreWhole(src);
    forall i | 0 <= i < |lines| ensures Whole(StripAll(lines)[i]) {
      StripKeepsAPrefix(lines[i], false);
      assert Whole(lines[i]);
    }
    LinesOfUnlines(StripAll(lines));
  }

  /** Stripping keeps the number of lines, and stripping again changes nothing. */
  lemma StripIsIdempotent(src: string)
    ensures |Lines(Stripped(src))| == |Lines(src)|
    ensures Stripped(Stripped(src)) == Stripped(src)
  {
    StrippedLines(src);
    var lines := Lines(src);
    forall i | 0 <= i < |lines| ensures StripAll(StripAll(lines))[i] == StripAll(lines)[i] {
      StripLineTwice(lines[i], false);
    }
    assert StripAll(StripAll(lines)) == StripAll(lines);
  }

  // A comment anywhere in a text; a string never runs past its line.
  predicate HasComment(s: string, inString: bool) {
    if s == "" then false
    else if s[0] == '\n' then HasComment(s[1..], false)
    else if s[0] == '"' then HasComment(s[1..], !inString)
    else (!inString && StartsComment(s)) || HasComment(s[1..], inString)
  }

  lemma {:induction false} CommentFreeLines(s: string, inString: bool)
    requires !HasComment(s, inString)
    ensures StripLine(Lines(s)[0], inString) == Lines(s)[0]
    ensures forall i :: 1 <= i < |Lines(s)| ==> StripLine(Lines(s)[i], false) == Lines(s)[i]
  {
    if s != "" {
      var next := if s[0] == '\n' then false else if s[0] == '"' then !inString else inString;
      CommentFreeLines(s[1..], next);
      var more := Lines(s[1..]);
      if s[0] != '\n' {
        var line := [s[0]] + more[0];
        assert line[1..] == more[0];
        FirstOfLine(s[1..]);
        assert StartsComment(line) ==> StartsComment(s);
      }
    }
  }

  lemma FirstOfLine(s: string)
    ensures Lines(s)[0] != "" ==> s != "" && Lines(s)[0][0] == s[0]
  {}

  lemma CommentFreeStays(s: string)
    requires !HasComment(s, false)
    ensures Stripped(s) == s
  {
    CommentFreeLines(s, false);
    assert StripAll(Lines(s)) == Lines(s);
    UnlinesOfLines(s);
  }

  /** Headers. */

  predicate IsWordChar(c: char) { IsUpper(c) || IsLower(c) || IsDigit(c) || c == '_' }

  // Where a run of kept characters ends.
  function SpanEnd(s: string, i: nat, keep: char -> bool): (end: nat)
    requires i <= |s|
    ensures i <= end <= |s|
    ensures forall k :: i <= k < end ==> keep(s[k])
    ensures end == |s| || !keep(s[end])
    decreases |s| - i
  {
    if i < |s| && keep(s[i]) then SpanEnd(s, i + 1, keep) else i
  }

  const KEYWORDS := ["model", "enum", "datasource", "generator", "type"]

  // The first alternative a text starts with.
  function KeywordOf(s: string, keywords: seq<string>): (k: Option<string>)
    ensures k.Some? ==> k.value in keywords && |k.value| <= |s|
  {
    if keywords == [] then None
    else if keywords[0] <= s then Some(keywords[0])
    else KeywordOf(s, keywords[1..])
  }

  lemma {:induction false} NoKeyword(s: string, keywords: seq<string>)
    requires s != "" && forall k :: k in keywords ==> k != "" && k[0] != s[0]
    ensures KeywordOf(s, keywords) == None
  {
    if keywords != [] {
      assert keywords[0] in keywords && forall k :: k in keywords[1..] ==> k in keywords;
      NoKeyword(s, keywords[1..]);
    }
  }

  lemma {:induction false} OnlyKeyword(s: string, keywords: seq<string>, k: string)
    requires s != "" && k in keywords && k <= s
    requires forall other :: other in keywords && other != k ==> other != "" && other[0] != s[0]
    ensures KeywordOf(s, keywords) == Some(k)
  {
    assert keywords[0] in keywords && forall other :: other in keywords[1..] ==> other in keywords;
    if keywords[0] != k { OnlyKeyword(s, keywords[1..], k); }
  }

  datatype BlockKind = ModelBlock | EnumBlock | OtherBlock

  function KindOf(keyword: string): BlockKind {
    if keyword == "model" then ModelBlock else if keyword == "enum" then EnumBlock else OtherBlock
  }

  // A header at the front of a text; open is where its brace stands.
  datatype Header = Header(kind: BlockKind, name: string, open: nat)

  function HeaderOf(s: string, keywords: seq<string>): (h: Option<Header>)
    ensures h.Some? ==> 0 < h.value.open < |s|
  {
    HeaderBy(s, keywords, IsSpace, IsWordChar)
  }

  function HeaderBy(s: string, keywords: seq<string>, space: char -> bool, word: char -> bool): (h: Option<Header>)
    ensures h.Some? ==> 0 < h.value.open < |s|
  {
    match KeywordOf(s, keywords)
    case None => None
    case Some(keyword) =>
      var a := |keyword|;
      var b := SpanEnd(s, a, space);
      var c := SpanEnd(s, b, word);
      var d := SpanEnd(s, c, space);
      if a < b < c && d < |s| && s[d] == '{' then Some(Header(KindOf(keyword), s[b..c], d)) else None
  }

  /** Bodies. */

  function After(depth: nat, c: char): nat
    requires depth > 0
  {
    if c == '{' then depth + 1 else if c == '}' then depth - 1 else depth
  }

  // Where the brace scan from a position stops: just past the brace that closes, or at the end.
  function Scan(src: string, j: nat, depth: nat): (end: nat)
    requires j <= |src|
    ensures j <= end <= |src|
    decreases |src| - j
  {
    if depth == 0 || j == |src| then j else Scan(src, j + 1, After(depth, src[j]))
  }

  // Whether the scan closes.
  predicate Closes(src: string, j: nat, depth: nat)
    requires j <= |src|
    decreases |src| - j
  {
    depth == 0 || (j < |src| && Closes(src, j + 1, After(depth, src[j])))
  }

  datatype Block = Block(kind: BlockKind, name: string, body: string)

  // A header expression over a text: the header starting at a position, its brace inside the text.
  ghost predicate FindsHeaders(src: string, headers: nat -> Option<Header>) {
    forall at: nat :: headers(at).Some? ==> at < headers(at).value.open < |src|
  }

  // A header and where its body's scan stops.
  datatype Mark = Mark(header: Header, end: nat)

  // The body is the slice from just after the brace to just before the last character the scan read;
  // empty if it read none.
  function BlockOf(src: string, m: Mark): Block
    requires m.header.open < m.end <= |src|
  {
    var from := m.header.open + 1;
    Block(m.header.kind, m.header.name, if m.end == from then "" else src[from..m.end - 1])
  }

  function MarkOf(src: string, h: Header): Mark
    requires h.open < |src|
  {
    Mark(h, Scan(src, h.open + 1, 1))
  }

  ghost predicate IsMarking(src: string, marks: nat -> Option<Mark>) {
    forall at: nat {:trigger marks(at)} :: marks(at).Some? ==> MarksAt(src, at, marks(at).value)
  }

  predicate MarksAt(src: string, at: nat, m: Mark) { at < m.header.open < m.end <= |src| }

  function MarksBy(src: string, headers: nat -> Option<Header>): (marks: nat -> Option<Mark>)
    requires FindsHeaders(src, headers)
    ensures IsMarking(src, marks)
  {
    (at: nat) => if headers(at).Some? then Some(MarkOf(src, headers(at).value)) else None
  }

  // Where the next find starts, as a global regular expression finds it from its last index; n if there
  // is none before n.
  function Exec<T>(n: nat, found: nat -> Option<T>, at: nat): (k: nat)
    requires at <= n
    ensures at <= k <= n && (k < n ==> found(k).Some?)
    decreases n - at
  {
    if at == n || found(at).Some? then at else Exec(n, found, at + 1)
  }

  lemma {:induction false} ExecFindsMarks(src: string, headers: nat -> Option<Header>, at: nat)
    requires FindsHeaders(src, headers) && at <= |src|
    ensures Exec(|src|, MarksBy(src, headers), at) == Exec(|src|, headers, at)
    decreases |src| - at
  {
    if at < |src| && headers(at).None? { ExecFindsMarks(src, headers, at + 1); }
  }

  // The blocks from a position: the one at the next header, and those from where its scan stops.
  function Blocks(src: string, marks: nat -> Option<Mark>, at: nat): seq<Block>
    requires IsMarking(src, marks) && at <= |src|
    decreases |src| - at, 1
  {
    BlocksFrom(src, marks, Exec(|src|, marks, at))
  }

  function BlocksFrom(src: string, marks: nat -> Option<Mark>, k: nat): seq<Block>
    requires IsMarking(src, marks) && k <= |src| && (k < |src| ==> marks(k).Some?)
    decreases |src| - k, 0
  {
    if k == |src| then [] else [BlockOf(src, marks(k).value)] + Blocks(src, marks, marks(k).value.end)
  }

  // The brace loop, from just after a header's brace.
  method ScanBody(src: string, from: nat) returns (j: nat)
    requires from <= |src|
    ensures j == Scan(src, from, 1)
  {
    var depth := 1;
    j := from;
    while j < |src| && depth > 0
      invariant from <= j <= |src| && depth >= 0
      invariant Scan(src, from, 1) == Scan(src, j, depth)
    {
      if src[j] == '{' { depth := depth + 1; } else if src[j] == '}' { depth := depth - 1; }
      j := j + 1;
    }
  }

  lemma Pushed(blocks: seq<Block>, block: Block, rest: seq<Block>)
    ensures blocks + ([block] + rest) == blocks + [block] + rest
  {}

  function SliceOrNothing(src: string, from: nat, to: int): string
    requires from <= |src| && to <= |src|
  {
    if to < from then "" else src[from..to]
  }

  lemma BodySlice(src: string, m: Mark)
    requires m.header.open < m.end <= |src|
    ensures BlockOf(src, m) ==
      Block(m.header.kind, m.header.name, SliceOrNothing(src, m.header.open + 1, m.end - 1))
  {}

  // One turn of the block loop: the block of a header, and where the expression resumes.
  method TakeBlock(src: string, h: Header) returns (block: Block, j: nat)
    requires h.open < |src|
    ensures j == MarkOf(src, h).end && block == BlockOf(src, Mark(h, j))
  {
    j := ScanBody(src, h.open + 1);
    BodySlice(src, Mark(h, j));
    block := Block(h.kind, h.name, SliceOrNothing(src, h.open + 1, j - 1));
  }

  // What is left to read from a position.
  lemma BlocksLeft(src: string, marks: nat -> Option<Mark>, at: nat, k: nat)
    requires IsMarking(src, marks) && at <= |src| && k == Exec(|src|, marks, at)
    ensures k == |src| ==> Blocks(src, marks, at) == []
    ensures k < |src| ==>
      Blocks(src, marks, at) == [BlockOf(src, marks(k).value)] + Blocks(src, marks, marks(k).value.end)
  {}

  // The block loop, for a header expression.
  method ScanBlocks(src: string, headers: nat -> Option<Header>) returns (blocks: seq<Block>)
    requires FindsHeaders(src, headers)
    ensures blocks == Blocks(src, MarksBy(src, headers), 0)
  {
    blocks := [];
    var last := 0;
    var m := Exec(|src|, headers, last);
    ghost var marks := MarksBy(src, headers);
    ghost var left := Blocks(src, marks, 0);
    ExecFindsMarks(src, headers, last);
    while m < |src|
      invariant last <= |src| && m == Exec(|src|, headers, last) == Exec(|src|, marks, last)
      invariant left == Blocks(src, marks, last) && blocks + left == Blocks(src, marks, 0)
      decreases |src| - last
    {
      BlocksLeft(src, marks, last, m);
      var block, j := TakeBlock(src, headers(m).value);
      left := Blocks(src, marks, j);
      Pushed(blocks, block, left);
      blocks := blocks + [block];
      last := j;
      m := Exec(|src|, headers, last);
      ExecFindsMarks(src, headers, last);
    }
    BlocksLeft(src, marks, last, m);
  }

  // A header expression over a text's tails, as one over its positions.
  function HeaderAt(read: string -> Option<Header>, src: string, at: nat): Option<Header> {
    if at > |src| then None
    else
      match read(src[at..])
      case None => None
      case Some(h) => Some(Header(h.kind, h.name, at + h.open))
  }

  function HeadersBy(read: string -> Option<Header>, src: string): nat -> Option<Header> {
    (at: nat) => HeaderAt(read, src, at)
  }

  // The header expression of `parseBlocks`.
  function PrismaHeader(s: string): Option<Header> { HeaderOf(s, KEYWORDS) }

  function Headers(src: string): nat -> Option<Header> { HeadersBy(PrismaHeader, src) }

  lemma HeadersAreFound(src: string)
    ensures FindsHeaders(src, Headers(src))
  {}

  function Marks(src: string): (marks: nat -> Option<Mark>)
    ensures IsMarking(src, marks)
  {
    HeadersAreFound(src);
    MarksBy(src, Headers(src))
  }

  // The blocks of a stripped schema.
  function Parsed(src: string): seq<Block> { Blocks(src, Marks(src), 0) }

  /** `parseBlocks`. */
  method ParseBlocks(srcRaw: string) returns (blocks: seq<Block>)
    ensures blocks == Parsed(Stripped(srcRaw))
  {
    var src := StripComments(srcRaw);
    HeadersAreFound(src);
    blocks := ScanBlocks(src, Headers(src));
  }

  /** Where the blocks lie: a header's start, its brace, and where the scan resumes. */

  datatype Place = Place(start: nat, open: nat, end: nat)

  function Places(src: string, marks: nat -> Option<Mark>, at: nat): seq<Place>
    requires IsMarking(src, marks) && at <= |src|
    decreases |src| - at, 1
  {
    PlacesFrom(src, marks, Exec(|src|, marks, at))
  }

  function PlacesFrom(src: string, marks: nat -> Option<Mark>, k: nat): seq<Place>
    requires IsMarking(src, marks) && k <= |src| && (k < |src| ==> marks(k).Some?)
    decreases |src| - k, 0
  {
    if k == |src| then []
    else [Place(k, marks(k).value.header.open, marks(k).value.end)] + Places(src, marks, marks(k).value.end)
  }

  // The block at a place of a text, read off the text alone.
  ghost predicate BlockAt(src: string, marks: nat -> Option<Mark>, p: Place, b: Block) {
    && p.start < p.open < p.end <= |src|
    && marks(p.start).Some? && p.open == marks(p.start).value.header.open && p.end == marks(p.start).value.end
    && b.kind == marks(p.start).value.header.kind && b.name == marks(p.start).value.header.name
    && b.body == if p.end == p.open + 1 then "" else src[p.open + 1..p.end - 1]
  }

  // No header starts between two positions.
  ghost predicate NoHeader(marks: nat -> Option<Mark>, from: nat, to: nat) {
    forall k :: from <= k < to ==> marks(k).None?
  }

  // A place ends before the next starts, with no header between them.
  ghost predicate ApartAt(marks: nat -> Option<Mark>, places: seq<Place>, i: nat)
    requires i < |places| - 1
  {
    places[i].end <= places[i + 1].start && NoHeader(marks, places[i].end, places[i + 1].start)
  }

  ghost predicate BlockIn(src: string, marks: nat -> Option<Mark>, places: seq<Place>, blocks: seq<Block>, i: nat)
    requires i < |places| && i < |blocks|
  {
    BlockAt(src, marks, places[i], blocks[i])
  }

  ghost predicate InPlace(src: string, marks: nat -> Option<Mark>, from: nat, places: seq<Place>, blocks: seq<Block>) {
    && |places| == |blocks|
    && (forall i {:trigger BlockIn(src, marks, places, blocks, i)} :: 0 <= i < |places| ==>
          BlockIn(src, marks, places, blocks, i))
    && (forall i {:trigger ApartAt(marks, places, i)} :: 0 <= i < |places| - 1 ==> ApartAt(marks, places, i))
    && (places == [] ==> NoHeader(marks, from, |src|))
    && (places != [] ==> from <= places[0].start && NoHeader(marks, from, places[0].start)
                         && NoHeader(marks, places[|places| - 1].end, |src|))
  }

  lemma OneMoreInPlace(
      src: string, marks: nat -> Option<Mark>, at: nat, p: Place, b: Block, places: seq<Place>, blocks: seq<Block>)
    requires BlockAt(src, marks, p, b) && InPlace(src, marks, p.end, places, blocks)
    requires at <= p.start && NoHeader(marks, at, p.start)
    ensures InPlace(src, marks, at, [p] + places, [b] + blocks)
  {
    var all := [p] + places;
    forall i | 0 <= i < |all| ensures BlockIn(src, marks, all, [b] + blocks, i) {
      if i > 0 { assert BlockIn(src, marks, places, blocks, i - 1); }
    }
    forall i | 0 <= i < |all| - 1 ensures ApartAt(marks, all, i) {
      if i > 0 { assert ApartAt(marks, places, i - 1) && all[i] == places[i - 1]; }
    }
  }

  lemma {:induction false} ExecIsLeftmost(src: string, marks: nat -> Option<Mark>, at: nat)
    requires at <= |src|
    ensures NoHeader(marks, at, Exec(|src|, marks, at))
    decreases |src| - at
  {
    if at < |src| && marks(at).None? { ExecIsLeftmost(src, marks, at + 1); }
  }

  lemma BlockStands(src: string, marks: nat -> Option<Mark>, k: nat, m: Mark)
    requires marks(k) == Some(m) && MarksAt(src, k, m)
    ensures BlockAt(src, marks, Place(k, m.header.open, m.end), BlockOf(src, m))
  {}

  lemma NothingInPlace(src: string, marks: nat -> Option<Mark>, at: nat)
    requires NoHeader(marks, at, |src|)
    ensures InPlace(src, marks, at, [], [])
  {}

  // The places and blocks from a header, given those after it.
  lemma FromHeaderInPlace(src: string, marks: nat -> Option<Mark>, at: nat, k: nat, m: Mark)
    requires IsMarking(src, marks) && at <= k < |src| && marks(k) == Some(m) && NoHeader(marks, at, k)
    requires m.end <= |src| && InPlace(src, marks, m.end, Places(src, marks, m.end), Blocks(src, marks, m.end))
    ensures InPlace(src, marks, at, PlacesFrom(src, marks, k), BlocksFrom(src, marks, k))
  {
    BlockStands(src, marks, k, m);
    OneMoreInPlace(src, marks, at, Place(k, m.header.open, m.end), BlockOf(src, m),
                   Places(src, marks, m.end), Blocks(src, marks, m.end));
  }

  /** Every block is the text at its place; the places are disjoint and in order, each ends past its
      start, and no header starts outside them. */
  lemma {:induction false} BlocksAreInPlace(src: string, marks: nat -> Option<Mark>, at: nat)
    requires IsMarking(src, marks) && at <= |src|
    ensures InPlace(src, marks, at, Places(src, marks, at), Blocks(src, marks, at))
    decreases |src| - at
  {
    var k := Exec(|src|, marks, at);
    ExecIsLeftmost(src, marks, at);
    if k == |src| {
      NothingInPlace(src, marks, at);
    } else {
      var m := marks(k).value;
      BlocksAreInPlace(src, marks, m.end);
      FromHeaderInPlace(src, marks, at, k, m);
    }
  }

  /** So it is with the blocks of a schema: each lies where its header starts and its scan stops. */
  lemma ParsedBlocksAreInPlace(src: string)
    ensures InPlace(src, Marks(src), 0, Places(src, Marks(src), 0), Parsed(src))
  {
    BlocksAreInPlace(src, Marks(src), 0);
  }

  /** Braces. */

  // Opening braces less closing ones between two positions.
  function Depth(src: string, from: nat, to: nat): int
    requires from <= to <= |src|
  {
    if to == from then 0
    else Depth(src, from, to - 1) + if src[to - 1] == '{' then 1 else if src[to - 1] == '}' then -1 else 0
  }

  predicate Above(src: string, from: nat, k: nat)
    requires from <= k <= |src|
  {
    Depth(src, from, k) >= 0
  }

  predicate Balanced(src: string, from: nat, to: nat)
    requires from <= to <= |src|
  {
    Depth(src, from, to) == 0 && forall k :: from <= k <= to ==> Above(src, from, k)
  }

  // The scan stops where the depth first reaches nought, or at the end.
  lemma {:induction false} ScanFollowsDepth(src: string, from: nat, j: nat, depth: nat)
    requires from <= j <= |src| && depth == 1 + Depth(src, from, j)
    requires forall k :: from <= k < j ==> Above(src, from, k)
    ensures var end := Scan(src, j, depth);
      && (forall k :: from <= k < end ==> Above(src, from, k))
      && (Closes(src, j, depth) ==> Depth(src, from, end) == -1)
      && (!Closes(src, j, depth) ==> end == |src| && Above(src, from, end))
    decreases |src| - j
  {
    if depth > 0 && j < |src| {
      assert Above(src, from, j);
      ScanFollowsDepth(src, from, j + 1, After(depth, src[j]));
    } else if depth > 0 {
      assert Above(src, from, j);
    }
  }

  /** A block that closes: the brace that closes it is the last character scanned, and what stands before
      is brace-balanced. */
  lemma ClosedBody(src: string, from: nat)
    requires from <= |src| && Closes(src, from, 1)
    ensures var close := Scan(src, from, 1) - 1; from <= close && Balanced(src, from, close) && src[close] == '}'
  {
    var end := Scan(src, from, 1);
    ScanFollowsDepth(src, from, from, 1);
    assert Depth(src, from, from) == 0;
    assert Above(src, from, end - 1);
    assert Depth(src, from, end) == Depth(src, from, end - 1)
      + if src[end - 1] == '{' then 1 else if src[end - 1] == '}' then -1 else 0;
  }

  // A closing brace with balanced text before it, from just after a header's brace.
  predicate BalancedBefore(src: string, from: nat, k: nat) {
    from <= k < |src| && src[k] == '}' && Balanced(src, from, k)
  }

  // A block that never closes runs to the end of the text, and no closing brace balances it.
  lemma OpenBody(src: string, from: nat, k: nat)
    requires from <= |src| && !Closes(src, from, 1)
    ensures Scan(src, from, 1) == |src| && !BalancedBefore(src, from, k)
  {
    ScanFollowsDepth(src, from, from, 1);
    if from <= k < |src| {
      assert Above(src, from, k + 1);
      assert src[k] == '}' ==> Depth(src, from, k + 1) == Depth(src, from, k) - 1;
    }
  }

  /** A block closes exactly when some closing brace balances it. */
  lemma ClosesWhenBalanced(src: string, from: nat)
    requires from <= |src|
    ensures Closes(src, from, 1) <==> exists k :: BalancedBefore(src, from, k)
  {
    if Closes(src, from, 1) {
      ClosedBody(src, from);
      assert BalancedBefore(src, from, Scan(src, from, 1) - 1);
    } else {
      forall k: nat ensures !BalancedBefore(src, from, k) { OpenBody(src, from, k); }
    }
  }

  // What stands inside a block: up to the brace that closes it, or all that is left.
  function Inside(src: string, h: Header): string
    requires h.open < |src|
  {
    if Closes(src, h.open + 1, 1) then src[h.open + 1..Scan(src, h.open + 1, 1) - 1] else src[h.open + 1..]
  }

  lemma ScanGoesOn(src: string, from: nat)
    requires from < |src|
    ensures Scan(src, from, 1) > from
  {}

  lemma OpenScan(src: string, from: nat)
    requires from <= |src| && !Closes(src, from, 1)
    ensures Scan(src, from, 1) == |src|
  {
    OpenBody(src, from, from);
  }

  function BodyOf(src: string, h: Header): string
    requires h.open < |src|
  {
    BlockOf(src, MarkOf(src, h)).body
  }

  lemma ClosedIsWhole(src: string, h: Header)
    requires h.open + 1 < |src| && Closes(src, h.open + 1, 1)
    ensures BodyOf(src, h) == Inside(src, h)
  {
    ScanGoesOn(src, h.open + 1);
    BodySlice(src, MarkOf(src, h));
  }

  lemma OpenIsCut(src: string, h: Header)
    requires h.open + 1 < |src| && !Closes(src, h.open + 1, 1)
    ensures BodyOf(src, h) == src[h.open + 1..|src| - 1]
    ensures |BodyOf(src, h)| < |Inside(src, h)|
  {
    OpenScan(src, h.open + 1);
    BodySlice(src, MarkOf(src, h));
  }

  lemma EmptyIsWhole(src: string, h: Header)
    requires h.open + 1 == |src|
    ensures BodyOf(src, h) == Inside(src, h)
  {}

  /** A body is what stands inside its block exactly when the block closes or nothing follows its brace;
      otherwise it is that without its last character. */
  lemma WhenABodyIsWhole(src: string, h: Header)
    requires h.open < |src|
    ensures BodyOf(src, h) == Inside(src, h) <==> Closes(src, h.open + 1, 1) || h.open + 1 == |src|
    ensures !Closes(src, h.open + 1, 1) && h.open + 1 < |src| ==> BodyOf(src, h) == src[h.open + 1..|src| - 1]
  {
    if h.open + 1 == |src| {
      EmptyIsWhole(src, h);
    } else if Closes(src, h.open + 1, 1) {
      ClosedIsWhole(src, h);
    } else {
      OpenIsCut(src, h);
    }
  }
}
