/** Which texts begin a block: the header expression, read both ways. */
module PrismaHeaders {
  import opened Wrappers
  import opened WhiteSpace
  import opened PrismaBlocks

  // Letters, digits and underscores.
  predicate IsWord(name: string) {
    name != "" && forall i :: 0 <= i < |name| ==>
      'a' <= name[i] <= 'z' || 'A' <= name[i] <= 'Z' || '0' <= name[i] <= '9' || name[i] == '_'
  }

  // A header as it may be written: a keyword, white space, a word, perhaps more white space, a brace.
  datatype Written = Written(keyword: string, gap: string, name: string, space: string)

  ghost predicate IsWritten(w: Written) {
    && w.keyword in ["model", "enum", "datasource", "generator", "type"]
    && w.gap != "" && Blank(w.gap) && IsWord(w.name) && Blank(w.space)
  }

  function TextOf(w: Written, rest: string): string { w.keyword + (w.gap + (w.name + (w.space + ("{" + rest)))) }

  function BraceOf(w: Written): nat { |w.keyword| + |w.gap| + |w.name| + |w.space| }

  // A run of kept characters with something else behind it is the whole span.
  lemma SpanIs(s: string, i: nat, end: nat, keep: char -> bool)
    requires i <= end <= |s| && (forall k :: i <= k < end ==> keep(s[k])) && (end < |s| ==> !keep(s[end]))
    ensures SpanEnd(s, i, keep) == end
  {}

  // What the expression makes of its spans.
  lemma SpansAre(
      s: string, keywords: seq<string>, space: char -> bool, word: char -> bool,
      keyword: string, b: nat, c: nat, d: nat)
    requires KeywordOf(s, keywords) == Some(keyword) && |keyword| < b < c <= d < |s| && s[d] == '{'
    requires SpanEnd(s, |keyword|, space) == b && SpanEnd(s, b, word) == c && SpanEnd(s, c, space) == d
    ensures HeaderBy(s, keywords, space, word) == Some(Header(KindOf(keyword), s[b..c], d))
  {}

  // The pieces, character by character.
  ghost predicate StandsFrom(s: string, at: nat, part: string) {
    at + |part| <= |s| && forall k :: 0 <= k < |part| ==> s[at + k] == part[k]
  }

  lemma KeywordStarts(w: Written, rest: string)
    requires IsWritten(w)
    ensures KeywordOf(TextOf(w, rest), KEYWORDS) == Some(w.keyword)
  {
    OnlyKeyword(TextOf(w, rest), KEYWORDS, w.keyword);
  }

  // A part of kept characters, standing before something else, is a span.
  lemma PartIsSpan(s: string, at: nat, part: string, keep: char -> bool)
    requires StandsFrom(s, at, part) && forall k :: 0 <= k < |part| ==> keep(part[k])
    requires at + |part| < |s| && !keep(s[at + |part|])
    ensures SpanEnd(s, at, keep) == at + |part|
  {
    forall k | at <= k < at + |part| ensures keep(s[k]) { assert s[k] == part[k - at]; }
    SpanIs(s, at, at + |part|, keep);
  }

  // A header's pieces, where they stand in a text.
  lemma PiecesAreFound(
      s: string, keywords: seq<string>, space: char -> bool, word: char -> bool, w: Written, b: nat, c: nat, d: nat)
    requires KeywordOf(s, keywords) == Some(w.keyword) && w.gap != "" && w.name != ""
    requires b == |w.keyword| + |w.gap| && c == b + |w.name| && d == c + |w.space| && d < |s| && s[d] == '{'
    requires StandsFrom(s, |w.keyword|, w.gap) && StandsFrom(s, b, w.name) && StandsFrom(s, c, w.space)
    requires forall k :: 0 <= k < |w.gap| ==> space(w.gap[k])
    requires forall k :: 0 <= k < |w.name| ==> word(w.name[k]) && !space(w.name[k])
    requires forall k :: 0 <= k < |w.space| ==> space(w.space[k]) && !word(w.space[k])
    requires !space('{') && !word('{')
    ensures HeaderBy(s, keywords, space, word) == Some(Header(KindOf(w.keyword), s[b..c], d))
  {
    assert s[b] == w.name[0];
    assert s[c] == if w.space == "" then '{' else w.space[0];
    PartIsSpan(s, |w.keyword|, w.gap, space);
    PartIsSpan(s, b, w.name, word);
    PartIsSpan(s, c, w.space, space);
    SpansAre(s, keywords, space, word, w.keyword, b, c, d);
  }

  // White space and words share no character.
  lemma ClassesDiffer(w: Written)
    requires IsWritten(w)
    ensures forall k :: 0 <= k < |w.name| ==> IsWordChar(w.name[k]) && !IsSpace(w.name[k])
    ensures forall k :: 0 <= k < |w.space| ==> IsSpace(w.space[k]) && !IsWordChar(w.space[k])
    ensures !IsSpace('{') && !IsWordChar('{')
  {}

  ghost predicate Stands(s: string, w: Written, b: nat) {
    && b == |w.keyword| + |w.gap| && BraceOf(w) < |s| && s[BraceOf(w)] == '{' && s[b..b + |w.name|] == w.name
    && StandsFrom(s, |w.keyword|, w.gap) && StandsFrom(s, b, w.name) && StandsFrom(s, b + |w.name|, w.space)
  }

  lemma PiecesStand(w: Written, rest: string)
    ensures Stands(TextOf(w, rest), w, |w.keyword| + |w.gap|)
  {}

  lemma StandingIsFound(s: string, keywords: seq<string>, w: Written, b: nat)
    requires IsWritten(w) && Stands(s, w, b) && KeywordOf(s, keywords) == Some(w.keyword)
    ensures HeaderOf(s, keywords) == Some(Header(KindOf(w.keyword), w.name, BraceOf(w)))
  {
    ClassesDiffer(w);
    PiecesAreFound(s, keywords, IsSpace, IsWordChar, w, b, b + |w.name|, BraceOf(w));
  }

  /** A written header is read as its keyword's kind and its name, with its brace where it stands, whatever
      white space it is written with and whatever follows. */
  lemma WrittenIsFound(w: Written, rest: string)
    requires IsWritten(w)
    ensures HeaderOf(TextOf(w, rest), KEYWORDS) == Some(Header(KindOf(w.keyword), w.name, BraceOf(w)))
  {
    KeywordStarts(w, rest);
    PiecesStand(w, rest);
    StandingIsFound(TextOf(w, rest), KEYWORDS, w, |w.keyword| + |w.gap|);
  }

  // The spans a header that is found was made of.
  lemma SpansWere(s: string, keywords: seq<string>, space: char -> bool, word: char -> bool)
    returns (b: nat, c: nat, d: nat)
    requires HeaderBy(s, keywords, space, word).Some?
    ensures KeywordOf(s, keywords).Some? && |KeywordOf(s, keywords).value| < b < c <= d < |s| && s[d] == '{'
    ensures forall k :: |KeywordOf(s, keywords).value| <= k < b ==> space(s[k])
    ensures forall k :: b <= k < c ==> word(s[k])
    ensures forall k :: c <= k < d ==> space(s[k])
  {
    b := SpanEnd(s, |KeywordOf(s, keywords).value|, space);
    c := SpanEnd(s, b, word);
    d := SpanEnd(s, c, space);
  }

  lemma {:induction false} KeywordIsFront(s: string, keywords: seq<string>)
    requires KeywordOf(s, keywords).Some?
    ensures KeywordOf(s, keywords).value == s[..|KeywordOf(s, keywords).value|]
  {
    if !(keywords[0] <= s) { KeywordIsFront(s, keywords[1..]); }
  }

  lemma Rejoined(s: string, a: nat, b: nat, c: nat, d: nat)
    requires a <= b <= c <= d < |s| && s[d] == '{'
    ensures s[..a] + (s[a..b] + (s[b..c] + (s[c..d] + ("{" + s[d + 1..])))) == s
  {
    assert s[d..] == "{" + s[d + 1..];
    assert s[c..] == s[c..d] + s[d..];
    assert s[b..] == s[b..c] + s[c..];
    assert s[a..] == s[a..b] + s[b..];
    assert s == s[..a] + s[a..];
  }

  lemma PiecesAreWritten(keyword: string, gap: string, name: string, space: string)
    requires keyword in KEYWORDS && gap != "" && name != ""
    requires forall i :: 0 <= i < |gap| ==> IsSpace(gap[i])
    requires forall i :: 0 <= i < |name| ==> IsWordChar(name[i])
    requires forall i :: 0 <= i < |space| ==> IsSpace(space[i])
    ensures IsWritten(Written(keyword, gap, name, space))
  {}

  // A cut holds what its positions hold.
  lemma CutHolds(s: string, from: nat, until: nat, keep: char -> bool)
    requires from <= until <= |s| && forall k :: from <= k < until ==> keep(s[k])
    ensures forall i :: 0 <= i < |s[from..until]| ==> keep(s[from..until][i])
  {}

  // The pieces a header that is found was made of.
  lemma FoundIsWritten(s: string) returns (w: Written, rest: string)
    requires HeaderOf(s, KEYWORDS).Some?
    ensures IsWritten(w) && TextOf(w, rest) == s
  {
    var b, c, d := SpansWere(s, KEYWORDS, IsSpace, IsWordChar);
    var a := |KeywordOf(s, KEYWORDS).value|;
    KeywordIsFront(s, KEYWORDS);
    CutHolds(s, a, b, IsSpace);
    CutHolds(s, b, c, IsWordChar);
    CutHolds(s, c, d, IsSpace);
    PiecesAreWritten(s[..a], s[a..b], s[b..c], s[c..d]);
    Rejoined(s, a, b, c, d);
    w, rest := Written(s[..a], s[a..b], s[b..c], s[c..d]), s[d + 1..];
  }

  /** A text begins a block exactly when it begins with a written header. */
  lemma WhenAHeaderIsFound(s: string)
    ensures HeaderOf(s, KEYWORDS).Some? <==> exists w, rest :: IsWritten(w) && TextOf(w, rest) == s
  {
    if HeaderOf(s, KEYWORDS).Some? { var w, rest := FoundIsWritten(s); }
    if exists w, rest :: IsWritten(w) && TextOf(w, rest) == s {
      var w, rest :| IsWritten(w) && TextOf(w, rest) == s;
      WrittenIsFound(w, rest);
    }
  }

  /** Models and enums are told from the rest by their keyword. */
  lemma KindsAreKeywords(keyword: string)
    requires keyword in KEYWORDS
    ensures KindOf(keyword) == ModelBlock <==> keyword == "model"
    ensures KindOf(keyword) == EnumBlock <==> keyword == "enum"
    ensures KindOf(keyword) == OtherBlock <==> keyword in ["datasource", "generator", "type"]
  {}
}
