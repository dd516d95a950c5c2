/** The command an unrecognised name was probably reaching for. */
module Suggest {
  import opened Wrappers
  import opened EditDistance

  const REDIRECTS: map<string, string> := map[
    "disconnect" := "connect deregister",
    "deregister" := "connect deregister",
    "register" := "connect register",
    "rotate" := "connect rotate",
    "claim" := "claims acquire",
    "release" := "claims release"]

  // The map's keys in insertion order.
  const REDIRECT_KEYS: seq<string> := ["disconnect", "deregister", "register", "rotate", "claim", "release"]

  function Dist(a: string, b: string): nat { D(a, b, |a|, |b|) }

  function Candidates(names: seq<string>): seq<string> { names + REDIRECT_KEYS }

  function Resolve(name: string): string {
    if name in REDIRECTS then REDIRECTS[name] else name
  }

  // The first of the closest candidates within two edits.
  ghost predicate Nearest(word: string, cs: seq<string>, k: nat) {
    && k < |cs| && Dist(word, cs[k]) <= 2
    && forall i | 0 <= i < |cs| ::
         Dist(word, cs[k]) <= Dist(word, cs[i]) && (i < k ==> Dist(word, cs[k]) < Dist(word, cs[i]))
  }

  /** A redirect answers for its own key; otherwise the nearest command or redirect within two edits
      answers, the earliest one on a tie, and nothing answers exactly when none is that near. */
  method SuggestCommand(raw: string, lower: string -> string, names: seq<string>) returns (r: Option<string>)
    ensures raw in REDIRECTS ==> r == Some(REDIRECTS[raw])
    ensures raw !in REDIRECTS ==>
      (r.None? <==> forall i | 0 <= i < |Candidates(names)| :: Dist(lower(raw), Candidates(names)[i]) > 2)
    ensures raw !in REDIRECTS && r.Some? ==>
      exists k: nat :: Nearest(lower(raw), Candidates(names), k) && r.value == Resolve(Candidates(names)[k])
  {
    if raw in REDIRECTS { return Some(REDIRECTS[raw]); }
    var cs := Candidates(names);
    var best: Option<(string, nat)> := None;
    ghost var at: nat := 0;
    var i := 0;
    while i < |cs|
      invariant i <= |cs|
      invariant best.None? ==> forall m | 0 <= m < i :: Dist(lower(raw), cs[m]) > 2
      invariant best.Some? ==>
        at < i && best.value == (cs[at], Dist(lower(raw), cs[at])) && Nearest(lower(raw), cs[..i], at)
    {
      var distance := Distance(lower(raw), cs[i]);
      assert cs[..i + 1] == cs[..i] + [cs[i]];
      if distance <= 2 && (best.None? || distance < best.value.1) {
        best, at := Some((cs[i], distance)), i;
      }
      i := i + 1;
    }
    assert cs[..i] == cs;
    if best.None? { return None; }
    return Some(Resolve(best.value.0));
  }

  /** At most one candidate is the nearest, so the answer is determined. */
  lemma NearestIsUnique(word: string, cs: seq<string>, k: nat, m: nat)
    requires Nearest(word, cs, k) && Nearest(word, cs, m)
    ensures k == m
  {}

  /** A word that is a candidate is its own nearest. */
  lemma ExactIsNearest(word: string, cs: seq<string>, k: nat)
    requires Nearest(word, cs, k) && word in cs
    ensures cs[k] == word
  {
    var i :| 0 <= i < |cs| && cs[i] == word;
    DistanceProperties(word, word);
    DistanceProperties(word, cs[k]);
  }

  /** One dropped, added or changed letter, or one adjacent swap, is one edit away at most. */
  lemma OneTypoIsNear(e: Edit, head: string, last: string)
    ensures Dist(head + Before(e) + last, head + After(e) + last) <= 1
  {
    var a, b := head + Before(e) + last, head + After(e) + last;
    var s := Kept(head) + [e] + Kept(last);
    KeptScript(head);
    AddEdit(Kept(head), e);
    KeptAfter(Kept(head) + [e], last);
    assert a[..|a|] == a && b[..|b|] == b;
    assert s == Kept(head) + [e] + Kept(last);
    NoScriptIsCheaper(s, a, b, |a|, |b|);
  }

  // The script that keeps every character.
  function Kept(s: string): (k: seq<Edit>)
    ensures |k| == |s|
  {
    if s == "" then [] else Kept(s[..|s| - 1]) + [Keep(s[|s| - 1])]
  }

  lemma {:induction false} KeptAfter(s: seq<Edit>, t: string)
    ensures Source(s + Kept(t)) == Source(s) + t && Target(s + Kept(t)) == Target(s) + t
    ensures Total(s + Kept(t)) == Total(s)
  {
    if t == "" {
      assert s + Kept(t) == s;
    } else {
      var init, c := t[..|t| - 1], t[|t| - 1];
      var x := s + Kept(init);
      KeptAfter(s, init);
      AddEdit(x, Keep(c));
      KeptSnoc(s, init, c);
      assert t == init + [c];
      assert Source(s) + init + [c] == Source(s) + t && Target(s) + init + [c] == Target(s) + t;
    }
  }

  lemma KeptSnoc(s: seq<Edit>, init: string, c: char)
    ensures s + Kept(init + [c]) == s + Kept(init) + [Keep(c)]
  {
    assert (init + [c])[..|init|] == init;
  }

  lemma KeptScript(t: string)
    ensures Source(Kept(t)) == t && Target(Kept(t)) == t && Total(Kept(t)) == 0
  {
    KeptAfter([], t);
    assert [] + Kept(t) == Kept(t);
  }
}
