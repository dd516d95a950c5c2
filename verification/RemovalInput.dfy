/** The canonical form of a removal request's entries. */
module RemovalInput {
  import opened Wrappers
  import Tree
  import opened Paths
  import opened StoreModel
  import opened FileRemoval

  datatype RawEntry = RawEntry(path: string, revision: int, kind: string, mode: int, size: int, sha256: string)

  const MAX_INTEGER := 0x1F_FFFF_FFFF_FFFF

  function Lower(c: char): char {
    if 'A' <= c <= 'Z' then (c as int + 32) as char else c
  }

  predicate IsGit(part: string) {
    |part| == 4 && part[0] == '.' && Lower(part[1]) == 'g' && Lower(part[2]) == 'i' && Lower(part[3]) == 't'
  }

  predicate IsDigest(s: string) {
    |s| == 64 && forall c | c in s :: '0' <= c <= '9' || 'a' <= c <= 'f'
  }

  predicate Acceptable(e: RawEntry) {
    && 0 < |e.path| <= 4096 && PathName(e.path)
    && (forall c | c in e.path :: 32 <= c as int && c as int != 127 && c != '\\')
    && (forall part | part in Split(e.path) :: !IsGit(part))
    && e.kind == "file"
    && 0 <= e.revision <= MAX_INTEGER && 0 <= e.mode <= 0xFFF && 0 <= e.size <= MAX_INTEGER
    && IsDigest(e.sha256)
  }

  function AsEntry(e: RawEntry): Entry
    requires Acceptable(e)
  {
    Entry(e.path, e.revision, e.mode, e.size, e.sha256)
  }

  /** The sort key: the text in UTF-16, whose big-endian bytes compare as its code units do. */

  function Units(c: char): seq<nat> {
    var v := c as int;
    if v < 0x10000 then [v] else [0xD800 + (v - 0x10000) / 0x400, 0xDC00 + (v - 0x10000) % 0x400]
  }

  function Key(s: string): seq<nat> {
    if s == "" then [] else Units(s[0]) + Key(s[1..])
  }

  lemma {:induction false} KeyIsInjective(s: string, t: string)
    requires Key(s) == Key(t)
    ensures s == t
  {
    if s != "" && t != "" {
      assert Key(s)[0] == Units(s[0])[0] && Key(t)[0] == Units(t[0])[0];
      assert |Units(s[0])| == |Units(t[0])|;
      var n := |Units(s[0])|;
      assert Key(s)[..n] == Units(s[0]) && Key(t)[..n] == Units(t[0]);
      assert Key(s)[n..] == Key(s[1..]) && Key(t)[n..] == Key(t[1..]);
      KeyIsInjective(s[1..], t[1..]);
      assert s[0] == t[0];
    }
  }

  predicate Before(a: seq<nat>, b: seq<nat>) {
    b != [] && (a == [] || a[0] < b[0] || (a[0] == b[0] && Before(a[1..], b[1..])))
  }

  // Two sequences agree up to n, where the first ends or has the smaller element.
  ghost predicate PartsAt(a: seq<nat>, b: seq<nat>, n: nat) {
    n <= |a| && n < |b| && a[..n] == b[..n] && (n == |a| || a[n] < b[n])
  }

  lemma PartsLater(a: seq<nat>, b: seq<nat>, n: nat)
    requires a != [] && b != [] && a[0] == b[0]
    ensures PartsAt(a, b, n + 1) <==> PartsAt(a[1..], b[1..], n)
  {
    if n < |a| && n + 1 < |b| {
      assert a[..n + 1] == [a[0]] + a[1..][..n] && b[..n + 1] == [b[0]] + b[1..][..n];
      if a[..n + 1] == b[..n + 1] { assert a[1..][..n] == a[..n + 1][1..] == b[..n + 1][1..] == b[1..][..n]; }
    }
  }

  lemma FirstAgrees(a: seq<nat>, b: seq<nat>, n: nat)
    requires PartsAt(a, b, n) && n > 0
    ensures a[0] == b[0]
  {
    assert a[..n][0] == b[..n][0];
  }

  /** The order is the lexicographic one: the first difference decides, and a beginning comes before the whole. */
  lemma {:induction false} BeforeIsLexicographic(a: seq<nat>, b: seq<nat>)
    ensures Before(a, b) <==> exists n: nat :: PartsAt(a, b, n)
  {
    if a == [] {
      assert b != [] ==> PartsAt(a, b, 0);
    } else if b != [] && a[0] == b[0] {
      BeforeIsLexicographic(a[1..], b[1..]);
      if n: nat :| PartsAt(a[1..], b[1..], n) { PartsLater(a, b, n); }
      if n: nat :| PartsAt(a, b, n) {
        PartsLater(a, b, n - 1);
      }
    } else if b != [] {
      assert a[0] < b[0] ==> PartsAt(a, b, 0);
      if n: nat :| PartsAt(a, b, n) && n > 0 { FirstAgrees(a, b, n); }
    }
  }

  lemma {:induction false} BeforeIsTotal(a: seq<nat>, b: seq<nat>)
    ensures a == b || Before(a, b) || Before(b, a)
    ensures !(Before(a, b) && Before(b, a)) && !Before(a, a)
  {
    if a != [] { BeforeIsTotal(a[1..], a[1..]); }
    if a != [] && b != [] {
      BeforeIsTotal(a[1..], b[1..]);
      if a[0] == b[0] && a[1..] == b[1..] { assert a == [a[0]] + a[1..] && b == [b[0]] + b[1..]; }
    }
  }

  lemma {:induction false} BeforeIsTransitive(a: seq<nat>, b: seq<nat>, c: seq<nat>)
    requires Before(a, b) && Before(b, c)
    ensures Before(a, c)
  {
    if a != [] && a[0] == b[0] && b[0] == c[0] { BeforeIsTransitive(a[1..], b[1..], c[1..]); }
  }

  /** One unit for a character of the basic plane; above it a high and a low surrogate that make it up. */
  lemma UnitsAreUtf16(c: char)
    ensures var u, v := Units(c), c as int;
      && (v < 0x10000 ==> u == [v])
      && (v >= 0x10000 ==>
            && |u| == 2 && 0xD800 <= u[0] < 0xDC00 <= u[1] < 0xE000
            && v == 0x10000 + (u[0] - 0xD800) * 0x400 + (u[1] - 0xDC00))
  {}

  // Each unit as two bytes, the high one first.
  function Bytes(units: seq<nat>): seq<nat> {
    if units == [] then [] else [units[0] / 256, units[0] % 256] + Bytes(units[1..])
  }

  /** The bytes the source compares come in the order of the units. */
  lemma {:induction false} BytesCompareAsUnits(a: seq<nat>, b: seq<nat>)
    ensures Before(Bytes(a), Bytes(b)) <==> Before(a, b)
  {
    if a != [] && b != [] {
      BytesCompareAsUnits(a[1..], b[1..]);
      var x, y := Bytes(a), Bytes(b);
      assert x[1..] == [a[0] % 256] + Bytes(a[1..]) && y[1..] == [b[0] % 256] + Bytes(b[1..]);
      assert x[1..][1..] == Bytes(a[1..]) && y[1..][1..] == Bytes(b[1..]);
      assert a[0] == a[0] / 256 * 256 + a[0] % 256 && b[0] == b[0] / 256 * 256 + b[0] % 256;
      assert Before(x[1..], y[1..]) <==>
        a[0] % 256 < b[0] % 256 || (a[0] % 256 == b[0] % 256 && Before(Bytes(a[1..]), Bytes(b[1..])));
    }
  }

  predicate Precedes(a: Entry, b: Entry) { Before(Key(a.path), Key(b.path)) }

  ghost predicate Sorted(s: seq<Entry>) {
    forall i, j | 0 <= i < j < |s| :: Precedes(s[i], s[j])
  }

  function Insert(e: Entry, s: seq<Entry>): seq<Entry> {
    if s == [] || Precedes(e, s[0]) then [e] + s else [s[0]] + Insert(e, s[1..])
  }

  function Sort(s: seq<Entry>): seq<Entry> {
    if s == [] then [] else Insert(s[0], Sort(s[1..]))
  }

  lemma {:induction false} InsertKeeps(e: Entry, s: seq<Entry>)
    ensures multiset(Insert(e, s)) == multiset(s) + multiset{e}
  {
    if s != [] && !Precedes(e, s[0]) {
      InsertKeeps(e, s[1..]);
      assert s == [s[0]] + s[1..];
    }
  }

  lemma {:induction false} SortKeeps(s: seq<Entry>)
    ensures multiset(Sort(s)) == multiset(s)
  {
    if s != [] {
      SortKeeps(s[1..]);
      InsertKeeps(s[0], Sort(s[1..]));
      assert s == [s[0]] + s[1..];
    }
  }

  lemma {:induction false} InsertSorts(e: Entry, s: seq<Entry>)
    requires Sorted(s) && forall i | 0 <= i < |s| :: s[i].path != e.path
    ensures Sorted(Insert(e, s))
  {
    if s != [] {
      if Precedes(e, s[0]) {
        forall j | 0 < j < |s| ensures Precedes(e, s[j]) {
          BeforeIsTransitive(Key(e.path), Key(s[0].path), Key(s[j].path));
        }
      } else {
        BeforeIsTotal(Key(e.path), Key(s[0].path));
        if Key(e.path) == Key(s[0].path) { KeyIsInjective(e.path, s[0].path); }
        InsertSorts(e, s[1..]);
        InsertKeeps(e, s[1..]);
        var r := Insert(e, s[1..]);
        forall j | 0 <= j < |r| ensures Precedes(s[0], r[j]) {
          assert r[j] in multiset(r);
          if r[j] != e { assert r[j] in s[1..]; }
        }
      }
    }
  }

  ghost predicate NamedOnce(s: seq<Entry>) {
    forall i, j | 0 <= i < j < |s| :: s[i].path != s[j].path
  }

  lemma {:induction false} SortSorts(s: seq<Entry>)
    requires NamedOnce(s)
    ensures Sorted(Sort(s))
  {
    if s != [] {
      SortSorts(s[1..]);
      SortKeeps(s[1..]);
      forall i | 0 <= i < |Sort(s[1..])| ensures Sort(s[1..])[i].path != s[0].path {
        assert Sort(s[1..])[i] in multiset(Sort(s[1..]));
        assert Sort(s[1..])[i] in s[1..];
      }
      InsertSorts(s[0], Sort(s[1..]));
    }
  }

  // Two sorted lists of the same entries begin alike.
  lemma SameFirst(a: seq<Entry>, b: seq<Entry>)
    requires Sorted(a) && Sorted(b) && multiset(a) == multiset(b) && a != [] && b != []
    ensures a[0] == b[0]
  {
    assert a[0] in multiset(b) && b[0] in multiset(a);
    var i :| 0 <= i < |b| && b[i] == a[0];
    var j :| 0 <= j < |a| && a[j] == b[0];
    BeforeIsTotal(Key(a[0].path), Key(b[0].path));
  }

  lemma SortedTail(s: seq<Entry>)
    requires Sorted(s) && s != []
    ensures Sorted(s[1..])
  {
    var rest := s[1..];
    forall i, j | 0 <= i < j < |rest| ensures Precedes(rest[i], rest[j]) {
      assert rest[i] == s[i + 1] && rest[j] == s[j + 1];
    }
  }

  lemma TailHolds(s: seq<Entry>)
    requires s != []
    ensures multiset(s[1..]) == multiset(s) - multiset{s[0]}
  {
    assert s == [s[0]] + s[1..];
  }

  lemma SameList(a: seq<Entry>, b: seq<Entry>)
    requires a != [] && b != [] && a[0] == b[0] && a[1..] == b[1..]
    ensures a == b
  {
    assert a == [a[0]] + a[1..] && b == [b[0]] + b[1..];
  }

  // A sorted list is determined by what it holds.
  lemma {:induction false} OneSortedList(a: seq<Entry>, b: seq<Entry>)
    requires Sorted(a) && Sorted(b) && multiset(a) == multiset(b)
    ensures a == b
  {
    assert |a| == |multiset(a)| == |multiset(b)| == |b|;
    if a != [] {
      SameFirst(a, b);
      SortedTail(a);
      SortedTail(b);
      TailHolds(a);
      TailHolds(b);
      OneSortedList(a[1..], b[1..]);
      SameList(a, b);
    }
  }

  function AsEntries(raws: seq<RawEntry>): seq<Entry>
    requires forall e | e in raws :: Acceptable(e)
  {
    seq(|raws|, i requires 0 <= i < |raws| => AsEntry(raws[i]))
  }

  function PathSet(s: seq<Entry>): set<string> {
    set e | e in s :: e.path
  }

  // The entries part of `checked_input`: None is a refusal.
  function Canonical(raws: seq<RawEntry>): Option<seq<Entry>> {
    if !(1 <= |raws| <= 128) || exists e | e in raws :: !Acceptable(e) then None
    else if |PathSet(AsEntries(raws))| != |raws| then None
    else Some(Sort(AsEntries(raws)))
  }

  method CheckedEntries(raws: seq<RawEntry>) returns (r: Option<seq<Entry>>)
    ensures r == Canonical(raws)
  {
    if !(1 <= |raws| <= 128) { return None; }
    var checked := [];
    var i := 0;
    while i < |raws|
      invariant i <= |raws| && forall e | e in raws[..i] :: Acceptable(e)
      invariant checked == AsEntries(raws[..i])
    {
      if !Acceptable(raws[i]) {
        assert raws[i] in raws;
        return None;
      }
      assert raws[..i + 1] == raws[..i] + [raws[i]];
      checked := checked + [AsEntry(raws[i])];
      i := i + 1;
    }
    assert raws[..i] == raws;
    if |PathSet(checked)| != |checked| { return None; }
    return Some(Sort(checked));
  }

  lemma {:induction false} NamesOfInit(s: seq<Entry>)
    requires s != []
    ensures PathSet(s) == PathSet(s[..|s| - 1]) + {s[|s| - 1].path}
  {
    assert s == s[..|s| - 1] + [s[|s| - 1]];
  }

  lemma NamedOnceInit(s: seq<Entry>)
    requires s != []
    ensures NamedOnce(s) <==> NamedOnce(s[..|s| - 1]) && s[|s| - 1].path !in PathSet(s[..|s| - 1])
  {
    var init, last := s[..|s| - 1], s[|s| - 1];
    assert forall i :: 0 <= i < |init| ==> init[i] == s[i];
    if NamedOnce(init) && last.path !in PathSet(init) {
      forall i, j | 0 <= i < j < |s| ensures s[i].path != s[j].path {
        if j == |s| - 1 { assert init[i] in init; }
      }
    }
  }

  lemma {:induction false} PathSetSize(s: seq<Entry>)
    ensures |PathSet(s)| <= |s|
    ensures |PathSet(s)| == |s| <==> NamedOnce(s)
  {
    if s == [] {
      assert PathSet(s) == {};
    } else {
      NamesOfInit(s);
      NamedOnceInit(s);
      PathSetSize(s[..|s| - 1]);
    }
  }

  /** What comes out is a checked request: one to 128 distinct acceptable names, in key order, and the
      same entries that went in. */
  lemma CanonicalIsChecked(raws: seq<RawEntry>, r: Removal)
    requires Canonical(raws) == Some(r.entries)
    ensures Checked(r) && Sorted(r.entries)
    ensures multiset(r.entries) == multiset(AsEntries(raws))
  {
    var es := AsEntries(raws);
    PathSetSize(es);
    SortKeeps(es);
    SortSorts(es);
    assert |multiset(r.entries)| == |multiset(es)|;
    forall e | e in r.entries ensures PathName(e.path) {
      assert e in multiset(r.entries);
      var i :| 0 <= i < |es| && es[i] == e;
      assert raws[i] in raws;
    }
    forall i, j | 0 <= i < j < |r.entries| ensures r.entries[i].path != r.entries[j].path {
      BeforeIsTotal(Key(r.entries[i].path), Key(r.entries[j].path));
    }
  }

  // Every way to write the repository's directory.
  const DOT_GIT := {".git", ".giT", ".gIt", ".gIT", ".Git", ".GiT", ".GIt", ".GIT"}

  /** An entry as the request must state it: a relative name with no empty, `.` or `..` component, none that is
      `.git` in any case, and no control character or backslash; a plain file with its revision, its permission
      bits, its size and its digest. */
  ghost predicate Proper(e: RawEntry) {
    && Tree.ValidPath(Split(e.path)) && |e.path| <= 4096
    && (forall part | part in Split(e.path) :: part !in DOT_GIT)
    && (forall i | 0 <= i < |e.path| :: 32 <= e.path[i] as int != 127 && e.path[i] as int != 92)
    && e.kind == "file"
    && 0 <= e.revision < 9007199254740992 && 0 <= e.mode < 4096 && 0 <= e.size < 9007199254740992
    && |e.sha256| == 64 && forall i | 0 <= i < 64 :: e.sha256[i] in "0123456789abcdef"
  }

  lemma SpelledOut(part: string)
    requires |part| == 4
    ensures part == [part[0], part[1], part[2], part[3]]
  {}

  lemma GitIsDotGit(part: string)
    ensures IsGit(part) <==> part in DOT_GIT
  {
    if |part| == 4 { SpelledOut(part); }
  }

  lemma HexDigit(c: char)
    ensures '0' <= c <= '9' || 'a' <= c <= 'f' <==> c in "0123456789abcdef"
  {
    var digits := "0123456789abcdef";
    if '0' <= c <= '9' { assert digits[c as int - '0' as int] == c; }
    if 'a' <= c <= 'f' { assert digits[c as int - 'a' as int + 10] == c; }
  }

  lemma DigestIsHex(s: string)
    ensures IsDigest(s) <==> |s| == 64 && forall i | 0 <= i < 64 :: s[i] in "0123456789abcdef"
  {
    forall c: char { HexDigit(c); }
    assert forall i :: 0 <= i < |s| ==> s[i] in s;
    if |s| == 64 && forall i | 0 <= i < 64 :: s[i] in "0123456789abcdef" {
      forall c | c in s ensures '0' <= c <= '9' || 'a' <= c <= 'f' {
        var i :| 0 <= i < |s| && s[i] == c;
      }
    }
  }

  lemma CharactersAre(path: string)
    ensures (forall c | c in path :: 32 <= c as int && c as int != 127 && c != '\\') <==>
      forall i | 0 <= i < |path| :: 32 <= path[i] as int != 127 && path[i] as int != 92
  {
    assert forall i :: 0 <= i < |path| ==> path[i] in path;
    if forall i | 0 <= i < |path| :: 32 <= path[i] as int != 127 && path[i] as int != 92 {
      forall c | c in path ensures 32 <= c as int && c as int != 127 && c != '\\' {
        var i :| 0 <= i < |path| && path[i] == c;
      }
    }
  }

  lemma AcceptableIsProper(e: RawEntry)
    ensures Acceptable(e) <==> Proper(e)
  {
    PathNameIsValidPath(e.path);
    CharactersAre(e.path);
    DigestIsHex(e.sha256);
    forall part ensures IsGit(part) <==> part in DOT_GIT { GitIsDotGit(part); }
  }

  /** A request's entries are accepted exactly when there are 1 to 128 of them, each properly stated, and no two
      name the same file. */
  lemma WhenEntriesAreAccepted(raws: seq<RawEntry>)
    ensures Canonical(raws).Some? <==>
      && 1 <= |raws| <= 128 && (forall e | e in raws :: Proper(e))
      && forall i, j | 0 <= i < j < |raws| :: raws[i].path != raws[j].path
  {
    forall e ensures Acceptable(e) <==> Proper(e) { AcceptableIsProper(e); }
    if forall e | e in raws :: Acceptable(e) {
      PathSetSize(AsEntries(raws));
      assert forall i | 0 <= i < |raws| :: AsEntries(raws)[i].path == raws[i].path;
    }
  }

  function Without<T>(s: seq<T>, i: nat): seq<T>
    requires i < |s|
  {
    s[..i] + s[i + 1..]
  }

  lemma WithoutOne<T>(s: seq<T>, i: nat)
    requires i < |s|
    ensures multiset(s) == multiset(Without(s, i)) + multiset{s[i]}
  {
    assert s == s[..i] + [s[i]] + s[i + 1..];
  }

  lemma EntriesWithoutOne(s: seq<RawEntry>, i: nat)
    requires i < |s| && forall e | e in s :: Acceptable(e)
    ensures AsEntries(Without(s, i)) == Without(AsEntries(s), i)
  {}

  lemma {:induction false} SameEntries(a: seq<RawEntry>, b: seq<RawEntry>)
    requires multiset(a) == multiset(b)
    requires forall e | e in a :: Acceptable(e)
    requires forall e | e in b :: Acceptable(e)
    ensures multiset(AsEntries(a)) == multiset(AsEntries(b))
  {
    assert |a| == |multiset(a)| == |multiset(b)| == |b|;
    if a != [] {
      assert a[0] in multiset(b);
      var i :| 0 <= i < |b| && b[i] == a[0];
      WithoutOne(a, 0);
      WithoutOne(b, i);
      assert multiset(Without(a, 0)) == multiset(a) - multiset{a[0]};
      assert multiset(Without(b, i)) == multiset(b) - multiset{a[0]};
      SameEntries(Without(a, 0), Without(b, i));
      EntriesWithoutOne(a, 0);
      EntriesWithoutOne(b, i);
      WithoutOne(AsEntries(a), 0);
      WithoutOne(AsEntries(b), i);
    }
  }

  /** Permuting a request's entries gives the same canonical entries, so the same intent. */
  lemma PermutedEntriesAgree(a: seq<RawEntry>, b: seq<RawEntry>)
    requires multiset(a) == multiset(b)
    ensures Canonical(a) == Canonical(b)
  {
    assert |a| == |multiset(a)| == |multiset(b)| == |b|;
    assert forall e :: e in a <==> e in multiset(a);
    assert forall e :: e in b <==> e in multiset(b);
    if forall e | e in a :: Acceptable(e) {
      SameEntries(a, b);
      var ea, eb := AsEntries(a), AsEntries(b);
      assert PathSet(ea) == PathSet(eb) by {
        assert forall e :: e in ea <==> e in multiset(ea);
        assert forall e :: e in eb <==> e in multiset(eb);
      }
      if |PathSet(ea)| == |ea| {
        PathSetSize(ea);
        PathSetSize(eb);
        SortSorts(ea);
        SortSorts(eb);
        SortKeeps(ea);
        SortKeeps(eb);
        OneSortedList(Sort(ea), Sort(eb));
      }
    }
  }
}
