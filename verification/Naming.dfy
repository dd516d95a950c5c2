/** Field names and the columns they stand for. */
module Naming {
  predicate IsUpper(c: char) { 'A' <= c <= 'Z' }

  predicate IsLower(c: char) { 'a' <= c <= 'z' }

  predicate IsDigit(c: char) { '0' <= c <= '9' }

  function ToLower(c: char): char { if IsUpper(c) then c + 32 as char else c }

  function ToUpper(c: char): char { if IsLower(c) then c - 32 as char else c }

  // The engine's own derivation of a column from a field name.
  function CamelToSnake(s: string): string {
    if s == "" then "" else (if IsUpper(s[0]) then ['_', ToLower(s[0])] else [s[0]]) + CamelToSnake(s[1..])
  }

  // Where an underscore and a letter or digit collapse into one character.
  predicate Joins(s: string) {
    |s| >= 2 && s[0] == '_' && (IsLower(s[1]) || IsDigit(s[1]))
  }

  function SnakeToCamel(s: string): string {
    if s == "" then ""
    else if Joins(s) then [ToUpper(s[1])] + SnakeToCamel(s[2..])
    else [s[0]] + SnakeToCamel(s[1..])
  }

  function FieldNameForColumn(column: string): string {
    var camel := SnakeToCamel(column);
    if CamelToSnake(camel) == column then camel else column
  }

  predicate HasUpper(s: string) { exists i :: 0 <= i < |s| && IsUpper(s[i]) }

  lemma {:induction false} SnakeHasNoUpper(s: string)
    ensures !HasUpper(CamelToSnake(s))
  {
    if s != "" {
      SnakeHasNoUpper(s[1..]);
      var head, tail := if IsUpper(s[0]) then ['_', ToLower(s[0])] else [s[0]], CamelToSnake(s[1..]);
      assert CamelToSnake(s) == head + tail;
      forall i | 0 <= i < |head + tail| ensures !IsUpper((head + tail)[i]) {
        if i >= |head| { assert (head + tail)[i] == tail[i - |head|]; }
      }
    }
  }

  lemma {:induction false} SnakeKeepsLower(s: string)
    requires !HasUpper(s)
    ensures CamelToSnake(s) == s
  {
    if s != "" {
      assert !IsUpper(s[0]);
      assert forall i :: 0 <= i < |s[1..]| ==> s[1..][i] == s[i + 1];
      SnakeKeepsLower(s[1..]);
    }
  }

  /** The chosen field derives its column back exactly when the column has no upper-case letter. */
  lemma FieldNameInvertsOnLower(column: string)
    ensures CamelToSnake(FieldNameForColumn(column)) == column <==> !HasUpper(column)
  {
    SnakeHasNoUpper(FieldNameForColumn(column));
    if !HasUpper(column) { SnakeKeepsLower(column); }
  }

  // An upper-case column beside the snake-case column whose camel form it is.
  predicate Shadows(upper: string, snake: string) {
    HasUpper(upper) && snake == CamelToSnake(upper) && SnakeToCamel(snake) == upper
  }

  /** Two columns of a table get one field key exactly when one is the other's camel-case spelling: such
      a pair, like user_id beside userId, is printed as one object literal with a repeated key. */
  lemma WhenKeysCollide(a: string, b: string)
    requires a != b
    ensures FieldNameForColumn(a) == FieldNameForColumn(b) <==> Shadows(a, b) || Shadows(b, a)
  {
    SnakeHasNoUpper(SnakeToCamel(a));
    SnakeHasNoUpper(SnakeToCamel(b));
    if !HasUpper(a) { SnakeKeepsLower(a); }
    if !HasUpper(b) { SnakeKeepsLower(b); }
  }

  /** One such pair. */
  lemma CollisionExists()
    ensures "a_b" != "aB" && FieldNameForColumn("a_b") == FieldNameForColumn("aB")
  {
    assert "a_b"[1..] == "_b" && "_b"[2..] == "" && SnakeToCamel("_b") == "B" && SnakeToCamel("a_b") == "aB";
    assert "aB"[1..] == "B" && "B"[1..] == "" && CamelToSnake("B") == "_b" && CamelToSnake("aB") == "a_b";
    assert "aB"[1] == 'B' && HasUpper("aB");
    WhenKeysCollide("aB", "a_b");
  }

  /** The names people write: lower-case words, joined by underscores in a column and by capitals in a field. */

  predicate IsPlain(w: string) {
    forall i | 0 <= i < |w| :: 'a' <= w[i] <= 'z' || '0' <= w[i] <= '9'
  }

  predicate IsLowerWord(w: string) { w != "" && 'a' <= w[0] <= 'z' && IsPlain(w) }

  function Underscored(words: seq<string>): string {
    if words == [] then "" else if |words| == 1 then words[0] else words[0] + "_" + Underscored(words[1..])
  }

  function Capitalised(w: string): string
    requires IsLowerWord(w)
  {
    [(w[0] as int - 32) as char] + w[1..]
  }

  function Capitals(words: seq<string>): string
    requires forall w | w in words :: IsLowerWord(w)
  {
    if words == [] then "" else Capitalised(words[0]) + Capitals(words[1..])
  }

  function Camel(words: seq<string>): string
    requires words != [] && forall w | w in words :: IsLowerWord(w)
  {
    words[0] + Capitals(words[1..])
  }

  // What follows a word in a column: nothing, or an underscore and more words.
  function Joined(words: seq<string>): string {
    if words == [] then "" else "_" + Underscored(words)
  }

  // Letters and digits pass through both ways.
  lemma {:induction false} CamelPasses(w: string, rest: string)
    requires IsPlain(w)
    ensures SnakeToCamel(w + rest) == w + SnakeToCamel(rest)
  {
    if w == "" {
      assert w + rest == rest;
    } else {
      assert (w + rest)[1..] == w[1..] + rest;
      CamelPasses(w[1..], rest);
      assert [w[0]] + (w[1..] + SnakeToCamel(rest)) == w + SnakeToCamel(rest);
    }
  }

  lemma {:induction false} SnakePasses(w: string, rest: string)
    requires IsPlain(w)
    ensures CamelToSnake(w + rest) == w + CamelToSnake(rest)
  {
    if w == "" {
      assert w + rest == rest;
    } else {
      assert (w + rest)[1..] == w[1..] + rest;
      SnakePasses(w[1..], rest);
      assert [w[0]] + (w[1..] + CamelToSnake(rest)) == w + CamelToSnake(rest);
    }
  }

  lemma UnderscoredIsJoined(words: seq<string>)
    requires words != []
    ensures Underscored(words) == words[0] + Joined(words[1..])
  {
    if |words| > 1 {
      assert words[0] + "_" + Underscored(words[1..]) == words[0] + ("_" + Underscored(words[1..]));
    } else {
      assert words[0] + "" == words[0];
    }
  }

  lemma CapitalForth(w: string, tail: string)
    requires IsLowerWord(w)
    ensures SnakeToCamel("_" + (w + tail)) == Capitalised(w) + SnakeToCamel(tail)
  {
    var s := "_" + (w + tail);
    assert s[0] == '_' && s[1] == w[0] && s[2..] == w[1..] + tail;
    CamelPasses(w[1..], tail);
    assert [ToUpper(w[0])] + (w[1..] + SnakeToCamel(tail)) == Capitalised(w) + SnakeToCamel(tail);
  }

  lemma {:induction false} JoinedIsCapitals(words: seq<string>)
    requires forall w | w in words :: IsLowerWord(w)
    ensures SnakeToCamel(Joined(words)) == Capitals(words)
    ensures CamelToSnake(Capitals(words)) == Joined(words)
  {
    if words != [] {
      var w, rest := words[0], words[1..];
      assert w in words;
      JoinedIsCapitals(rest);
      UnderscoredIsJoined(words);
      CapitalForth(w, Joined(rest));
      CapitalBack(w, Capitals(rest));
    }
  }

  lemma CapitalBack(w: string, tail: string)
    requires IsLowerWord(w)
    ensures CamelToSnake(Capitalised(w) + tail) == "_" + (w + CamelToSnake(tail))
  {
    var upper := Capitalised(w)[0];
    assert IsUpper(upper) && ToLower(upper) == w[0];
    SnakePasses(w[1..], tail);
    SnakeOfUpper(upper, w[1..] + tail);
    assert Capitalised(w) + tail == [upper] + (w[1..] + tail);
    assert ['_', w[0]] + (w[1..] + CamelToSnake(tail)) == "_" + (w + CamelToSnake(tail));
  }

  lemma SnakeOfUpper(c: char, rest: string)
    requires IsUpper(c)
    ensures CamelToSnake([c] + rest) == ['_', ToLower(c)] + CamelToSnake(rest)
  {
    assert ([c] + rest)[1..] == rest;
  }

  /** A column of lower-case words gets the camel-case field, which derives that column back. */
  lemma WordsGetCamelCase(words: seq<string>)
    requires words != [] && forall w | w in words :: IsLowerWord(w)
    ensures FieldNameForColumn(Underscored(words)) == Camel(words)
    ensures CamelToSnake(Camel(words)) == Underscored(words)
  {
    assert words[0] in words;
    UnderscoredIsJoined(words);
    JoinedIsCapitals(words[1..]);
    CamelPasses(words[0], Joined(words[1..]));
    SnakePasses(words[0], Capitals(words[1..]));
  }

  lemma {:induction false} RoundTripShrinks(s: string, i: nat)
    requires !HasUpper(s)
    ensures |CamelToSnake(SnakeToCamel(s))| <= |s|
    ensures i + 1 < |s| && s[i] == '_' && '0' <= s[i + 1] <= '9' ==> |CamelToSnake(SnakeToCamel(s))| < |s|
  {
    if s != "" {
      assert !IsUpper(s[0]);
      if Joins(s) {
        var rest := s[2..];
        assert forall k :: 0 <= k < |rest| ==> rest[k] == s[k + 2];
        RoundTripShrinks(rest, if i >= 2 then i - 2 else 0);
        OneMoreSnake(ToUpper(s[1]), SnakeToCamel(rest));
      } else {
        var rest := s[1..];
        assert forall k :: 0 <= k < |rest| ==> rest[k] == s[k + 1];
        RoundTripShrinks(rest, if i >= 1 then i - 1 else 0);
        OneMoreSnake(s[0], SnakeToCamel(rest));
      }
    }
  }

  lemma OneMoreSnake(c: char, rest: string)
    ensures |CamelToSnake([c] + rest)| == (if IsUpper(c) then 2 else 1) + |CamelToSnake(rest)|
  {
    assert ([c] + rest)[1..] == rest;
  }

  /** A column with an upper-case letter, or with an underscore before a digit, keeps its own name. */
  lemma WhatDoesNotInvertIsKept(column: string, i: nat)
    requires i < |column|
    requires 'A' <= column[i] <= 'Z' || (i + 1 < |column| && column[i] == '_' && '0' <= column[i + 1] <= '9')
    ensures FieldNameForColumn(column) == column
  {
    SnakeHasNoUpper(SnakeToCamel(column));
    if HasUpper(column) {
      var k :| 0 <= k < |column| && IsUpper(column[k]);
    } else {
      assert !IsUpper(column[i]);
      RoundTripShrinks(column, i);
    }
  }
}
