/** Printed blocks parse back to themselves. */
module PrismaRoundTrip {
  import opened Wrappers
  import opened Naming
  import opened WhiteSpace
  import opened PrismaBlocks
  import opened PrismaHeaders

  function Keyword(kind: BlockKind): string {
    match kind
    case ModelBlock => "model"
    case EnumBlock => "enum"
    case OtherBlock => "type"
  }

  function HeadText(keyword: string, name: string): string { keyword + (" " + (name + " {")) }

  function Head(b: Block): string { HeadText(Keyword(b.kind), b.name) }

  function Print(b: Block): string { Head(b) + (b.body + "}\n") }

  function Concat(show: Block -> string, blocks: seq<Block>): string {
    if blocks == [] then "" else show(blocks[0]) + Concat(show, blocks[1..])
  }

  function PrintAll(blocks: seq<Block>): string { Concat(Print, blocks) }

  // A word for a name, and a body without comments whose braces balance.
  predicate Printable(b: Block) {
    IsWord(b.name) && Balanced(b.body, 0, |b.body|) && !HasComment(b.body, false)
  }

  /** The header. */

  lemma HeadTextIs(keyword: string, name: string, rest: string)
    ensures HeadText(keyword, name) + rest == keyword + (" " + (name + (" {" + rest)))
    ensures |HeadText(keyword, name)| == |keyword| + |name| + 3
  {}

  predicate StandsAt(src: string, at: nat, part: string) { at + |part| <= |src| && src[at..at + |part|] == part }

  function HeadLength(kind: BlockKind, name: string): nat { |Keyword(kind)| + |name| + 3 }

  ghost predicate ReadsHeadAt(src: string, headers: nat -> Option<Header>, at: nat, kind: BlockKind, name: string) {
    IsWord(name) && StandsAt(src, at, HeadText(Keyword(kind), name)) ==>
      headers(at) == Some(Header(kind, name, at + HeadLength(kind, name) - 1))
  }

  // A header expression that reads printed heads, and nothing at a line break.
  ghost predicate ReadsHeads(src: string, headers: nat -> Option<Header>) {
    && FindsHeaders(src, headers)
    && (forall at: nat, kind, name {:trigger ReadsHeadAt(src, headers, at, kind, name)} ::
          ReadsHeadAt(src, headers, at, kind, name))
    && forall at: nat {:trigger headers(at)} :: at < |src| && src[at] == '\n' ==> headers(at) == None
  }

  // A header expression reads a printed head, whatever follows it.
  ghost predicate ReadsInFront(read: string -> Option<Header>, kind: BlockKind, name: string) {
    IsWord(name) ==>
      forall rest :: read(HeadText(Keyword(kind), name) + rest) == Some(Header(kind, name, HeadLength(kind, name) - 1))
  }

  lemma KindsHaveKeywords(kind: BlockKind)
    ensures KindOf(Keyword(kind)) == kind
  {}

  lemma PrismaReadsHead(kind: BlockKind, name: string, rest: string)
    requires IsWord(name)
    ensures HeaderOf(HeadText(Keyword(kind), name) + rest, KEYWORDS)
      == Some(Header(kind, name, HeadLength(kind, name) - 1))
  {
    var w := Written(Keyword(kind), " ", name, " ");
    HeadTextIs(Keyword(kind), name, rest);
    HeadIsWritten(kind, name, rest);
    KindsHaveKeywords(kind);
    WrittenIsFound(w, rest);
  }

  // A printed head is a header written with single spaces.
  lemma HeadIsWritten(kind: BlockKind, name: string, rest: string)
    requires IsWord(name)
    ensures IsWritten(Written(Keyword(kind), " ", name, " "))
    ensures TextOf(Written(Keyword(kind), " ", name, " "), rest) == Keyword(kind) + (" " + (name + (" {" + rest)))
  {
    assert " " + ("{" + rest) == " {" + rest;
  }

  lemma PrismaReadsInFront(kind: BlockKind, name: string)
    ensures ReadsInFront(PrismaHeader, kind, name)
  {
    if IsWord(name) {
      forall rest { PrismaReadsHead(kind, name, rest); }
    }
  }

  // Nothing at a line break is a header.
  ghost predicate PassesNewlines(read: string -> Option<Header>) {
    forall s: string :: s != "" && s[0] == '\n' ==> read(s) == None
  }

  lemma PrismaPassesNewlines()
    ensures PassesNewlines(PrismaHeader)
  {
    forall s: string | s != "" && s[0] == '\n' ensures PrismaHeader(s) == None { NoKeyword(s, KEYWORDS); }
  }

  lemma Resumes(src: string, at: nat, head: string)
    requires StandsAt(src, at, head)
    ensures src[at..] == head + src[at + |head|..]
  {}

  lemma HeadReadsAt(read: string -> Option<Header>, src: string, at: nat, kind: BlockKind, name: string)
    requires ReadsInFront(read, kind, name)
    ensures ReadsHeadAt(src, HeadersBy(read, src), at, kind, name)
  {
    var head := HeadText(Keyword(kind), name);
    if IsWord(name) && StandsAt(src, at, head) { Resumes(src, at, head); }
  }

  lemma HeadersReadHeads(src: string)
    ensures ReadsHeads(src, Headers(src))
  {
    HeadersAreFound(src);
    PrismaPassesNewlines();
    ReadHeads(PrismaHeader, src) by {
      forall kind, name ensures ReadsInFront(PrismaHeader, kind, name) { PrismaReadsInFront(kind, name); }
    }
  }

  lemma ReadHeads(read: string -> Option<Header>, src: string)
    requires FindsHeaders(src, HeadersBy(read, src)) && PassesNewlines(read)
    requires forall kind, name :: ReadsInFront(read, kind, name)
    ensures ReadsHeads(src, HeadersBy(read, src))
  {
    var headers := HeadersBy(read, src);
    forall at: nat, kind, name ensures ReadsHeadAt(src, headers, at, kind, name) {
      HeadReadsAt(read, src, at, kind, name);
    }
    forall at: nat | at < |src| && src[at] == '\n' ensures headers(at) == None {
      assert src[at..][0] == '\n';
    }
  }

  /** The body. */

  lemma {:induction false} DepthOfPart(src: string, from: nat, close: nat, k: nat)
    requires from <= k <= close <= |src|
    ensures Depth(src, from, k) == Depth(src[from..close], 0, k - from)
  {
    if k > from { DepthOfPart(src, from, close, k - 1); }
  }

  lemma PartStaysBalanced(src: string, from: nat, close: nat)
    requires from <= close <= |src| && Balanced(src[from..close], 0, close - from)
    ensures Balanced(src, from, close)
  {
    DepthOfPart(src, from, close, close);
    forall k | from <= k <= close ensures Above(src, from, k) {
      DepthOfPart(src, from, close, k);
      assert Above(src[from..close], 0, k - from);
    }
  }

  lemma {:induction false} ScanReaches(src: string, from: nat, j: nat, close: nat)
    requires from <= j <= close < |src| && Balanced(src, from, close) && src[close] == '}'
    ensures Above(src, from, j) && Scan(src, j, 1 + Depth(src, from, j)) == close + 1
    decreases close - j
  {
    assert Above(src, from, j);
    if j < close {
      ScanReaches(src, from, j + 1, close);
      assert After(1 + Depth(src, from, j), src[j]) == 1 + Depth(src, from, j + 1);
    } else {
      assert Depth(src, from, close) == 0;
      assert Scan(src, close + 1, 0) == close + 1;
    }
  }

  /** One block, then all of them. */

  lemma PartStands(src: string, at: nat, text: string, from: nat, to: nat)
    requires StandsAt(src, at, text) && from <= to <= |text|
    ensures src[at + from..at + to] == text[from..to]
  {
    var s, part := src[at..at + |text|], src[at + from..at + to];
    forall i | 0 <= i < to - from ensures part[i] == text[from + i] {
      assert s[from + i] == src[at + (from + i)];
    }
  }

  // A printed block's pieces, where they stand.
  ghost predicate StandsPrinted(src: string, at: nat, b: Block, next: nat) {
    && StandsAt(src, at, HeadText(Keyword(b.kind), b.name))
    && BodyStands(src, at + HeadLength(b.kind, b.name), b.body, next)
  }

  // A body, its closing brace and a line break.
  ghost predicate BodyStands(src: string, from: nat, body: string, next: nat) {
    var close := from + |body|;
    close + 2 == next <= |src| && src[from..close] == body && src[close] == '}' && src[close + 1] == '\n'
  }

  lemma PrintPieces(src: string, at: nat, b: Block)
    requires StandsAt(src, at, Print(b))
    ensures StandsPrinted(src, at, b, at + |Print(b)|)
  {
    var text := Print(b);
    HeadTextIs(Keyword(b.kind), b.name, "");
    var from := HeadLength(b.kind, b.name);
    var close := from + |b.body|;
    assert |Head(b)| == from;
    assert text[0..from] == Head(b) && text[from..close] == b.body && text[close..close + 2] == "}\n";
    PartStands(src, at, text, 0, from);
    PartStands(src, at, text, from, close);
    PartStands(src, at, text, close, close + 2);
    var end := src[at + close..at + close + 2];
    assert src[at + close] == end[0] && src[at + close + 1] == end[1];
  }

  lemma ScansTo(src: string, from: nat, close: nat)
    requires from <= close < |src| && Balanced(src[from..close], 0, close - from) && src[close] == '}'
    ensures Scan(src, from, 1) == close + 1
  {
    PartStaysBalanced(src, from, close);
    ScanReaches(src, from, from, close);
  }

  lemma BlocksSkip(src: string, marks: nat -> Option<Mark>, at: nat)
    requires IsMarking(src, marks) && at < |src| && marks(at) == None
    ensures Blocks(src, marks, at) == Blocks(src, marks, at + 1)
  {
    assert Exec(|src|, marks, at) == Exec(|src|, marks, at + 1);
  }

  lemma BlocksTake(src: string, marks: nat -> Option<Mark>, at: nat, m: Mark)
    requires IsMarking(src, marks) && at < |src| && marks(at) == Some(m)
    ensures MarksAt(src, at, m) && Blocks(src, marks, at) == [BlockOf(src, m)] + Blocks(src, marks, m.end)
  {
    assert Exec(|src|, marks, at) == at;
  }

  // A block read from its mark, past the line break after it.
  lemma ClosedBlockReads(src: string, marks: nat -> Option<Mark>, at: nat, m: Mark, next: nat)
    requires IsMarking(src, marks) && at < |src| && marks(at) == Some(m)
    requires m.end < |src| && marks(m.end) == None && next == m.end + 1
    ensures MarksAt(src, at, m) && Blocks(src, marks, at) == [BlockOf(src, m)] + Blocks(src, marks, next)
  {
    BlocksTake(src, marks, at, m);
    BlocksSkip(src, marks, m.end);
  }

  // What the marks are where a printed head stands and where a line breaks.
  lemma HeadIsMarked(src: string, headers: nat -> Option<Header>, at: nat, kind: BlockKind, name: string, end: nat)
    requires ReadsHeads(src, headers) && IsWord(name) && StandsAt(src, at, HeadText(Keyword(kind), name))
    requires at + HeadLength(kind, name) <= |src| && Scan(src, at + HeadLength(kind, name), 1) == end
    ensures MarksBy(src, headers)(at) == Some(Mark(Header(kind, name, at + HeadLength(kind, name) - 1), end))
  {
    assert ReadsHeadAt(src, headers, at, kind, name);
  }

  lemma NewlineIsUnmarked(src: string, headers: nat -> Option<Header>, at: nat)
    requires ReadsHeads(src, headers) && at < |src| && src[at] == '\n'
    ensures MarksBy(src, headers)(at) == None
  {
    assert headers(at) == None;
  }

  // Whatever stands where a printed block stands is read as that block.
  ghost predicate ReadsPrinted(src: string, marks: nat -> Option<Mark>, show: Block -> string, ok: Block -> bool) {
    && IsMarking(src, marks)
    && forall at: nat, b :: ok(b) && StandsAt(src, at, show(b)) ==>
         Blocks(src, marks, at) == [b] + Blocks(src, marks, at + |show(b)|)
  }

  lemma StandsIn(pre: string, part: string, rest: string)
    ensures StandsAt(pre + (part + rest), |pre|, part)
  {}

  lemma {:induction false} BlocksRead(src: string, marks: nat -> Option<Mark>, show: Block -> string,
                                      ok: Block -> bool, pre: string, blocks: seq<Block>)
    requires forall i :: 0 <= i < |blocks| ==> ok(blocks[i])
    requires src == pre + Concat(show, blocks) && ReadsPrinted(src, marks, show, ok)
    ensures Blocks(src, marks, |pre|) == blocks
    decreases |blocks|
  {
    if blocks != [] {
      var b, rest := blocks[0], Concat(show, blocks[1..]);
      StandsIn(pre, show(b), rest);
      assert Blocks(src, marks, |pre|) == [b] + Blocks(src, marks, |pre| + |show(b)|);
      assert src == (pre + show(b)) + rest;
      BlocksRead(src, marks, show, ok, pre + show(b), blocks[1..]);
      assert blocks == [b] + blocks[1..];
    } else {
      assert |pre| == |src|;
    }
  }

  /** Comments. */

  // Text with neither quote, slash nor line break is passed over.
  predicate Plain(c: char) { c != '"' && c != '/' && c != '\n' }

  lemma {:induction false} PlainIsPassed(plain: string, rest: string)
    requires forall i :: 0 <= i < |plain| ==> Plain(plain[i])
    ensures HasComment(plain + rest, false) == HasComment(rest, false)
  {
    if plain == "" {
      assert plain + rest == rest;
    } else {
      assert (plain + rest)[1..] == plain[1..] + rest;
      PlainIsPassed(plain[1..], rest);
    }
  }

  lemma BreakIsPassed(rest: string, inString: bool)
    ensures HasComment(['\n'] + rest, inString) == HasComment(rest, false)
  {
    assert (['\n'] + rest)[1..] == rest;
  }

  lemma BraceIsPassed(rest: string, inString: bool)
    ensures HasComment(['}'] + rest, inString) == HasComment(rest, inString)
  {
    assert (['}'] + rest)[1..] == rest;
  }

  lemma ClosingIsPassed(rest: string, inString: bool)
    ensures HasComment("}\n" + rest, inString) == HasComment(rest, false)
  {
    BraceIsPassed(['\n'] + rest, inString);
    BreakIsPassed(rest, inString);
    assert "}\n" + rest == ['}'] + (['\n'] + rest);
  }

  // A comment-free text stays so before a closing brace and a line break.
  lemma {:induction false} ClosesWithoutComment(body: string, inString: bool, rest: string)
    requires !HasComment(body, inString) && !HasComment(rest, false)
    ensures !HasComment(body + ("}\n" + rest), inString)
  {
    var s := body + ("}\n" + rest);
    if body == "" {
      assert s == "}\n" + rest;
      ClosingIsPassed(rest, inString);
    } else {
      assert s[1..] == body[1..] + ("}\n" + rest);
      assert StartsComment(s) ==> StartsComment(body);
      var next := if body[0] == '\n' then false else if body[0] == '"' then !inString else inString;
      ClosesWithoutComment(body[1..], next, rest);
    }
  }

  lemma {:induction false} PrintedHasNoComment(blocks: seq<Block>)
    requires forall i :: 0 <= i < |blocks| ==> Printable(blocks[i])
    ensures !HasComment(PrintAll(blocks), false)
  {
    if blocks != [] {
      var b, rest := blocks[0], PrintAll(blocks[1..]);
      PrintedHasNoComment(blocks[1..]);
      ClosesWithoutComment(b.body, false, rest);
      assert Print(b) + rest == Head(b) + (b.body + ("}\n" + rest));
      PlainIsPassed(Head(b), b.body + ("}\n" + rest));
    }
  }

  // The block of a mark whose pieces are known.
  lemma MarkedBlock(src: string, kind: BlockKind, name: string, from: nat, close: nat)
    requires 0 < from <= close < |src|
    ensures BlockOf(src, Mark(Header(kind, name, from - 1), close + 1)) == Block(kind, name, src[from..close])
  {}

  // A block's mark, its text, and what follows it, from its pieces.
  lemma PiecesAreMarked(src: string, headers: nat -> Option<Header>, at: nat, b: Block, from: nat, close: nat)
    requires ReadsHeads(src, headers) && IsWord(b.name) && StandsAt(src, at, HeadText(Keyword(b.kind), b.name))
    requires from == at + HeadLength(b.kind, b.name) <= close && close + 1 < |src| && src[close + 1] == '\n'
    requires Scan(src, from, 1) == close + 1
    ensures var marks := MarksBy(src, headers);
      marks(at) == Some(Mark(Header(b.kind, b.name, from - 1), close + 1)) && marks(close + 1) == None
  {
    HeadIsMarked(src, headers, at, b.kind, b.name, close + 1);
    NewlineIsUnmarked(src, headers, close + 1);
  }

  lemma BodyScans(src: string, body: string, from: nat, close: nat)
    requires from <= close < |src| && src[from..close] == body && src[close] == '}'
    requires Balanced(body, 0, |body|)
    ensures Scan(src, from, 1) == close + 1
  {
    ScansTo(src, from, close);
  }

  ghost predicate MarkedAt(marks: nat -> Option<Mark>, at: nat, b: Block, next: nat) {
    && next > 0 && marks(next - 1) == None
    && marks(at) == Some(Mark(Header(b.kind, b.name, at + HeadLength(b.kind, b.name) - 1), next - 1))
  }

  // Where a printed block stands, a mark with its head and its end, and none at its line's end.
  ghost predicate MarksPrinted(src: string, marks: nat -> Option<Mark>) {
    && IsMarking(src, marks)
    && forall at: nat, b, next: nat {:trigger StandsPrinted(src, at, b, next)} ::
         StandsPrinted(src, at, b, next) && IsWord(b.name) && Balanced(b.body, 0, |b.body|) ==>
           MarkedAt(marks, at, b, next)
  }

  lemma StandingIsMarked(src: string, headers: nat -> Option<Header>, at: nat, b: Block, next: nat)
    requires ReadsHeads(src, headers) && StandsPrinted(src, at, b, next)
    requires IsWord(b.name) && Balanced(b.body, 0, |b.body|)
    ensures MarkedAt(MarksBy(src, headers), at, b, next)
  {
    var from := at + HeadLength(b.kind, b.name);
    BodyScans(src, b.body, from, from + |b.body|);
    PiecesAreMarked(src, headers, at, b, from, from + |b.body|);
  }

  lemma HeadersMarkPrinted(src: string, headers: nat -> Option<Header>)
    requires ReadsHeads(src, headers)
    ensures MarksPrinted(src, MarksBy(src, headers))
  {
    var marks := MarksBy(src, headers);
    forall at: nat, b, next: nat {:trigger StandsPrinted(src, at, b, next)}
      | StandsPrinted(src, at, b, next) && IsWord(b.name) && Balanced(b.body, 0, |b.body|)
      ensures MarkedAt(marks, at, b, next)
    {
      StandingIsMarked(src, headers, at, b, next);
    }
  }

  // The block such a mark stands for.
  lemma StandingBlock(src: string, b: Block, from: nat, next: nat)
    requires from > 0 && BodyStands(src, from, b.body, next)
    ensures BlockOf(src, Mark(Header(b.kind, b.name, from - 1), next - 1)) == b
  {
    MarkedBlock(src, b.kind, b.name, from, next - 2);
  }

  lemma PrintedBlockReads(src: string, marks: nat -> Option<Mark>, at: nat, b: Block)
    requires MarksPrinted(src, marks) && StandsAt(src, at, Print(b))
    requires IsWord(b.name) && Balanced(b.body, 0, |b.body|)
    ensures Blocks(src, marks, at) == [b] + Blocks(src, marks, at + |Print(b)|)
  {
    var from, next := at + HeadLength(b.kind, b.name), at + |Print(b)|;
    PrintPieces(src, at, b);
    StandingBlock(src, b, from, next);
    ClosedBlockReads(src, marks, at, Mark(Header(b.kind, b.name, from - 1), next - 1), next);
  }

  lemma PrintedIsRead(src: string, marks: nat -> Option<Mark>)
    requires MarksPrinted(src, marks)
    ensures ReadsPrinted(src, marks, Print, Printable)
  {
    forall at: nat, b | Printable(b) && StandsAt(src, at, Print(b))
      ensures Blocks(src, marks, at) == [b] + Blocks(src, marks, at + |Print(b)|)
    {
      PrintedBlockReads(src, marks, at, b);
    }
  }

  lemma PrintedReadsBack(headers: nat -> Option<Header>, blocks: seq<Block>)
    requires forall i :: 0 <= i < |blocks| ==> Printable(blocks[i])
    requires ReadsHeads(PrintAll(blocks), headers)
    ensures Blocks(PrintAll(blocks), MarksBy(PrintAll(blocks), headers), 0) == blocks
  {
    var src := PrintAll(blocks);
    HeadersMarkPrinted(src, headers);
    PrintedIsRead(src, MarksBy(src, headers));
    assert src == "" + Concat(Print, blocks);
    BlocksRead(src, MarksBy(src, headers), Print, Printable, "", blocks);
  }

  lemma PrintedIsUnstripped(blocks: seq<Block>)
    requires forall i :: 0 <= i < |blocks| ==> Printable(blocks[i])
    ensures Stripped(PrintAll(blocks)) == PrintAll(blocks)
  {
    PrintedHasNoComment(blocks);
    CommentFreeStays(PrintAll(blocks));
  }

  /** Parsing undoes printing: stripped and scanned as `parseBlocks` does, the text gives the blocks back. */
  lemma ParseUndoesPrint(blocks: seq<Block>)
    requires forall i :: 0 <= i < |blocks| ==> Printable(blocks[i])
    ensures Parsed(Stripped(PrintAll(blocks))) == blocks
  {
    PrintedIsUnstripped(blocks);
    HeadersReadHeads(PrintAll(blocks));
    PrintedReadsBack(Headers(PrintAll(blocks)), blocks);
  }

  // One block that takes the rest of the text.
  lemma LastBlock(src: string, marks: nat -> Option<Mark>, m: Mark)
    requires IsMarking(src, marks) && src != "" && marks(0) == Some(m) && m.end == |src|
    ensures MarksAt(src, 0, m) && Blocks(src, marks, 0) == [BlockOf(src, m)]
  {
    BlocksTake(src, marks, 0, m);
    assert Exec(|src|, marks, |src|) == |src|;
  }

  lemma HeadStands(kind: BlockKind, name: string, text: string)
    ensures var head := HeadText(Keyword(kind), name);
      |head| == HeadLength(kind, name) && StandsAt(head + text, 0, head) && (head + text)[|head|..] == text
  {}

  lemma {:induction false} ClosesLater(a: string, b: string, j: nat, depth: nat)
    requires j <= |b|
    ensures Closes(a + b, |a| + j, depth) == Closes(b, j, depth)
    decreases |b| - j
  {
    if depth > 0 && j < |b| {
      assert (a + b)[|a| + j] == b[j];
      ClosesLater(a, b, j + 1, After(depth, b[j]));
    }
  }

  lemma TextAfterHead(head: string, text: string)
    requires text != ""
    ensures (head + text)[|head|..|head + text| - 1] == text[..|text| - 1]
  {}

  lemma UnclosedScans(head: string, text: string)
    requires !Closes(text, 0, 1)
    ensures Scan(head + text, |head|, 1) == |head + text|
  {
    ClosesLater(head, text, 0, 1);
    OpenScan(head + text, |head|);
  }

  // Such a text, once its head is marked.
  lemma UnclosedText(marks: nat -> Option<Mark>, head: string, text: string, h: Header)
    requires IsMarking(head + text, marks) && head != "" && text != "" && h.open + 1 == |head|
    requires marks(0) == Some(Mark(h, |head + text|))
    ensures Blocks(head + text, marks, 0) == [Block(h.kind, h.name, text[..|text| - 1])]
  {
    var src := head + text;
    LastBlock(src, marks, Mark(h, |src|));
    MarkedBlock(src, h.kind, h.name, |head|, |src| - 1);
    TextAfterHead(head, text);
  }

  lemma UnclosedIsMarked(headers: nat -> Option<Header>, kind: BlockKind, name: string, text: string)
    requires IsWord(name) && !Closes(text, 0, 1)
    requires ReadsHeads(HeadText(Keyword(kind), name) + text, headers)
    ensures var src := HeadText(Keyword(kind), name) + text;
      MarksBy(src, headers)(0) == Some(Mark(Header(kind, name, HeadLength(kind, name) - 1), |src|))
  {
    HeadStands(kind, name, text);
    UnclosedScans(HeadText(Keyword(kind), name), text);
    HeadIsMarked(HeadText(Keyword(kind), name) + text, headers, 0, kind, name, |HeadText(Keyword(kind), name) + text|);
  }

  lemma UnclosedIsUnstripped(kind: BlockKind, name: string, text: string)
    requires IsWord(name) && !HasComment(text, false)
    ensures Stripped(HeadText(Keyword(kind), name) + text) == HeadText(Keyword(kind), name) + text
  {
    HeadIsPlain(kind, name);
    PlainIsPassed(HeadText(Keyword(kind), name), text);
    CommentFreeStays(HeadText(Keyword(kind), name) + text);
  }

  /** A lone block whose brace nothing closes is parsed without the last character of its text. */
  lemma UnclosedLosesItsLast(kind: BlockKind, name: string, text: string)
    requires IsWord(name) && text != "" && !HasComment(text, false) && !Closes(text, 0, 1)
    ensures Parsed(Stripped(HeadText(Keyword(kind), name) + text)) == [Block(kind, name, text[..|text| - 1])]
  {
    var src := HeadText(Keyword(kind), name) + text;
    UnclosedIsUnstripped(kind, name, text);
    HeadersReadHeads(src);
    UnclosedIsMarked(Headers(src), kind, name, text);
    HeadStands(kind, name, text);
    UnclosedText(Marks(src), HeadText(Keyword(kind), name), text, Header(kind, name, HeadLength(kind, name) - 1));
  }

  lemma HeadIsPlain(kind: BlockKind, name: string)
    requires IsWord(name)
    ensures var head := HeadText(Keyword(kind), name); forall i :: 0 <= i < |head| ==> Plain(head[i])
  {}

  /** One such text: the field is gone. */
  lemma UnclosedExample()
    ensures Parsed(Stripped("model A {x")) == [Block(ModelBlock, "A", "")]
  {
    assert HeadText(Keyword(ModelBlock), "A") + "x" == "model A {x";
    assert !Closes("x", 0, 1) && !HasComment("x", false);
    UnclosedLosesItsLast(ModelBlock, "A", "x");
  }
}
