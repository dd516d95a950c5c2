/** Paths as the texts the store keys its tables with: splitting, joining, and what the text
    operations of the code do to the component lists of the model. */
module Paths {
  import opened Tree

  function Split(s: string): (parts: seq<string>)
    ensures |parts| > 0
    ensures forall c | c in parts :: '/' !in c
  {
    if s == "" then [""]
    else if s[0] == '/' then [""] + Split(s[1..])
    else
      var rest := Split(s[1..]);
      [[s[0]] + rest[0]] + rest[1..]
  }

  function Text(p: seq<string>): string {
    if p == [] then "" else if |p| == 1 then p[0] else p[0] + "/" + Text(p[1..])
  }

  lemma {:induction false} SplitText(p: seq<string>)
    requires p != [] && forall c | c in p :: '/' !in c
    ensures Split(Text(p)) == p
  {
    if |p| == 1 {
      SplitPlain(p[0]);
    } else {
      SplitText(p[1..]);
      SplitAfter(p[0], Text(p[1..]));
      assert p[0] + "/" + Text(p[1..]) == p[0] + ("/" + Text(p[1..]));
    }
  }

  lemma {:induction false} SplitPlain(c: string)
    requires '/' !in c
    ensures Split(c) == [c]
  {
    if c != "" {
      assert c[0] in c && c == [c[0]] + c[1..];
      SplitPlain(c[1..]);
    }
  }

  lemma {:induction false} SplitAfter(c: string, t: string)
    requires '/' !in c
    ensures Split(c + ("/" + t)) == [c] + Split(t)
  {
    if c == "" {
      assert c + ("/" + t) == "/" + t;
    } else {
      assert c[0] in c && c == [c[0]] + c[1..];
      assert (c + ("/" + t))[1..] == c[1..] + ("/" + t);
      SplitAfter(c[1..], t);
      assert ([c[1..]] + Split(t))[1..] == Split(t);
    }
  }

  lemma {:induction false} TextSplit(s: string)
    ensures Text(Split(s)) == s
  {
    if s != "" {
      TextSplit(s[1..]);
      var rest := Split(s[1..]);
      if s[0] == '/' {
        assert ([""] + rest)[1..] == rest;
      } else {
        assert ([[s[0]] + rest[0]] + rest[1..])[1..] == rest[1..];
      }
    }
  }

  // `path_name`.
  predicate PathName(s: string) {
    && s != "" && s[0] != '/' && '\0' !in s
    && forall part | part in Split(s) :: part != "" && part != "." && part != ".."
  }

  lemma {:induction false} NulIsInAPart(s: string)
    ensures '\0' in s <==> exists part :: part in Split(s) && '\0' in part
  {
    if s != "" {
      NulIsInAPart(s[1..]);
      var rest := Split(s[1..]);
      var parts := Split(s);
      assert '\0' in s <==> s[0] == '\0' || '\0' in s[1..];
      if s[0] == '/' {
        assert forall part :: part in parts <==> part == "" || part in rest;
      } else {
        var first := [s[0]] + rest[0];
        assert first == parts[0] && forall part | part in rest[1..] :: part in parts && part in rest;
        assert '\0' in first <==> s[0] == '\0' || '\0' in rest[0];
        assert forall part | part in parts :: part == first || part in rest[1..];
        assert forall part | part in rest :: part == rest[0] || part in rest[1..];
      }
    }
  }

  /** The names the store accepts are exactly the texts of the model's valid paths. */
  lemma PathNameIsValidPath(s: string)
    ensures PathName(s) <==> ValidPath(Split(s))
  {
    NulIsInAPart(s);
    if s != "" && s[0] == '/' { assert Split(s)[0] in Split(s); }
    if s == "" { assert Split(s)[0] in Split(s); }
  }

  // The text of a path below another starts with the other's text and a slash.
  lemma {:induction false} TextOfBelow(d: seq<string>, rest: seq<string>)
    requires d != [] && rest != []
    ensures Text(d + rest) == Text(d) + "/" + Text(rest)
  {
    if |d| == 1 {
      assert (d + rest)[1..] == rest;
    } else {
      assert (d + rest)[1..] == d[1..] + rest;
      TextOfBelow(d[1..], rest);
    }
  }

  lemma TextPrefix(a: string, b: string)
    ensures a <= a + b
  {}

  /** `new.startswith(old + "/")` asks whether new lies below old. */
  lemma StartsWithIsBelow(d: Path, p: Path)
    requires ValidPath(d) && ValidPath(p)
    ensures Text(d) + "/" <= Text(p) <==> d < p
  {
    if d < p {
      assert p == d + p[|d|..];
      TextOfBelow(d, p[|d|..]);
      TextPrefix(Text(d) + "/", Text(p[|d|..]));
    }
    if Text(d) + "/" <= Text(p) {
      var t := Text(p)[|Text(d)| + 1..];
      assert Text(p) == Text(d) + "/" + t;
      TextSplit(t);
      TextOfBelow(d, Split(t));
      SplitText(d + Split(t));
      SplitText(p);
    }
  }

  // What follows the text of a path in the text of one at or below it.
  function Suffix(rest: seq<string>): string {
    if rest == [] then "" else "/" + Text(rest)
  }

  lemma TextOfSuffix(d: seq<string>, rest: seq<string>)
    requires d != []
    ensures Text(d + rest) == Text(d) + Suffix(rest)
  {
    if rest == [] {
      assert d + rest == d && Text(d) + "" == Text(d);
    } else {
      TextOfBelow(d, rest);
      assert Text(d) + "/" + Text(rest) == Text(d) + ("/" + Text(rest));
    }
  }

  /** `new + path[len(old):]` puts the rest of the path under the new name. */
  lemma RekeyAsText(from: Path, to: Path, p: Path)
    requires from != [] && to != [] && from <= p
    ensures |Text(from)| <= |Text(p)|
    ensures Text(to) + Text(p)[|Text(from)|..] == Text(to + p[|from|..])
  {
    var rest := p[|from|..];
    assert p == from + rest;
    TextOfSuffix(from, rest);
    TextOfSuffix(to, rest);
    DropPrefix(Text(from), Suffix(rest));
  }

  lemma DropPrefix(a: string, b: string)
    ensures (a + b)[|a|..] == b
  {}

  // `posixpath.dirname` of a name with no empty part: everything before the last slash.
  function Dirname(s: string): string {
    if '/' !in s then "" else if s[|s| - 1] == '/' then s[..|s| - 1] else Dirname(s[..|s| - 1])
  }

  lemma {:induction false} DirnameAfter(head: string, c: string)
    requires '/' !in c
    ensures Dirname(head + "/" + c) == head
  {
    var s := head + "/" + c;
    assert s[|head|] == '/';
    if c == "" {
      assert s[..|s| - 1] == head;
    } else {
      assert s[|s| - 1] == c[|c| - 1];
      assert s[..|s| - 1] == head + "/" + c[..|c| - 1];
      DirnameAfter(head, c[..|c| - 1]);
    }
  }

  /** `dirname` is the model's parent, and the root is the empty text. */
  lemma DirnameIsParent(p: Path)
    requires ValidPath(p)
    ensures Dirname(Text(p)) == Text(Parent(p))
  {
    var last := p[|p| - 1];
    assert last in p;
    if |p| > 1 {
      assert p == Parent(p) + [last];
      TextOfBelow(Parent(p), [last]);
      DirnameAfter(Text(Parent(p)), last);
    }
  }
}
