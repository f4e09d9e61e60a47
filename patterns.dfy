/**
 * The two boundary patterns shared by every separator-inserting converter,
 * `([a-z0-9])([A-Z]+)` ("followed by capitalized") and `([a-zA-Z])([0-9]+)`
 * ("followed by digit"), and Java's `String.replaceAll(pattern, "$1" + sep + "$2")`.
 */
module Patterns {
  import opened Ascii

  datatype Pattern = FollowedByCapitalized | FollowedByDigit

  /** The one-character class of the pattern's first group. */
  predicate InFirstGroup(p: Pattern, c: char) {
    match p
    case FollowedByCapitalized => IsLower(c) || IsDigit(c)
    case FollowedByDigit => IsLetter(c)
  }

  /** The class that the pattern's second group repeats. */
  predicate InSecondGroup(p: Pattern, c: char) {
    match p
    case FollowedByCapitalized => IsUpper(c)
    case FollowedByDigit => IsDigit(c)
  }

  /** The pattern can match a text in which `a` is immediately followed by `b`. */
  predicate Matches(p: Pattern, a: char, b: char) {
    InFirstGroup(p, a) && InSecondGroup(p, b)
  }

  /** The length of the longest prefix of s in the second group's class (what a greedy `+` consumes). */
  function RunLength(p: Pattern, s: string): (n: nat)
    ensures n <= |s|
    ensures forall k :: 0 <= k < n ==> InSecondGroup(p, s[k])
    ensures n < |s| ==> !InSecondGroup(p, s[n])
  {
    if s == [] || !InSecondGroup(p, s[0]) then 0 else 1 + RunLength(p, s[1..])
  }

  /**
   * `s.replaceAll(p, "$1" + sep + "$2")`: the scan tries a match at each position from the left;
   * a match takes the first-group character and the greedy second-group run, is replaced
   * by the same text with sep between the groups, and the scan resumes after it.
   */
  function ReplaceAll(p: Pattern, s: string, sep: char): (r: string)
    ensures |r| >= |s|
    ensures |s| > 0 ==> |r| > 0 && r[0] == s[0]
    decreases |s|
  {
    if |s| < 2 then s
    else if Matches(p, s[0], s[1]) then
      var n := 1 + RunLength(p, s[1..]);
      [s[0], sep] + s[1..n] + ReplaceAll(p, s[n..], sep)
    else [s[0]] + ReplaceAll(p, s[1..], sep)
  }

  /** s with sep inserted after every index i at which p matches s[i], s[i + 1]. */
  function Insert(p: Pattern, s: string, sep: char): (r: string)
    ensures |s| > 0 ==> |r| > 0 && r[0] == s[0]
  {
    if |s| < 2 then s
    else [s[0]] + (if Matches(p, s[0], s[1]) then [sep] else []) + Insert(p, s[1..], sep)
  }

  /** A first-group character is never in the second group's class. */
  lemma GroupsDisjoint(p: Pattern, c: char)
    ensures InSecondGroup(p, c) ==> !InFirstGroup(p, c)
  {
  }

  /** Concatenation regroups. */
  lemma Regroup(a: string, b: string, c: string)
    ensures a + (b + c) == (a + b) + c
  {
  }

  /** One step of `InsertSkipsRun`: a run of length m > 0 is its head followed by the run of the tail. */
  lemma InsertRunStep(p: Pattern, t: string, sep: char, m: nat)
    requires |t| >= 2 && m == RunLength(p, t) && m > 0
    requires Insert(p, t[1..], sep) == t[1..][..m - 1] + Insert(p, t[1..][m - 1..], sep)
    ensures Insert(p, t, sep) == t[..m] + Insert(p, t[m..], sep)
  {
    GroupsDisjoint(p, t[0]);
    var u := t[1..];
    assert u[m - 1..] == t[m..];
    calc {
      Insert(p, t, sep);
      [t[0]] + Insert(p, u, sep);
      [t[0]] + (u[..m - 1] + Insert(p, t[m..], sep));
      { Regroup([t[0]], u[..m - 1], Insert(p, t[m..], sep)); }
      ([t[0]] + u[..m - 1]) + Insert(p, t[m..], sep);
      { assert [t[0]] + u[..m - 1] == t[..m]; }
      t[..m] + Insert(p, t[m..], sep);
    }
  }

  /** Dropping the first character of a concatenation drops it from the first part. */
  lemma DropConcat(a: string, b: string)
    requires |a| > 0
    ensures (a + b)[1..] == a[1..] + b
  {
  }

  /** Insertion does nothing inside a leading run of the second group's class. */
  lemma {:induction false} InsertSkipsRun(p: Pattern, t: string, sep: char)
    ensures var m := RunLength(p, t);
            Insert(p, t, sep) == t[..m] + Insert(p, t[m..], sep)
  {
    var m := RunLength(p, t);
    if m == 0 {
      assert t[..0] == [] && t[0..] == t;
    } else if |t| == 1 {
      assert t[..1] == t && t[1..] == [];
    } else {
      InsertSkipsRun(p, t[1..], sep);
      InsertRunStep(p, t, sep, m);
    }
  }

  /** At a match, insertion puts sep after the first character and nothing inside the greedy run. */
  lemma InsertAtMatch(p: Pattern, s: string, sep: char)
    requires |s| >= 2 && Matches(p, s[0], s[1])
    ensures var n := 1 + RunLength(p, s[1..]);
            Insert(p, s, sep) == [s[0], sep] + s[1..n] + Insert(p, s[n..], sep)
  {
    var t := s[1..];
    var m := RunLength(p, t);
    InsertSkipsRun(p, t, sep);
    assert t[..m] == s[1..1 + m] && t[m..] == s[1 + m..];
    calc {
      Insert(p, s, sep);
      [s[0]] + [sep] + Insert(p, t, sep);
      [s[0]] + [sep] + (s[1..1 + m] + Insert(p, s[1 + m..], sep));
      { Regroup([s[0]] + [sep], s[1..1 + m], Insert(p, s[1 + m..], sep));
        assert [s[0]] + [sep] == [s[0], sep]; }
      [s[0], sep] + s[1..1 + m] + Insert(p, s[1 + m..], sep);
    }
  }

  /** A match step of the scan agrees with insertion when the rest of the scan does. */
  lemma ReplaceAtMatch(p: Pattern, s: string, sep: char)
    requires |s| >= 2 && Matches(p, s[0], s[1])
    requires var n := 1 + RunLength(p, s[1..]);
             ReplaceAll(p, s[n..], sep) == Insert(p, s[n..], sep)
    ensures ReplaceAll(p, s, sep) == Insert(p, s, sep)
  {
    InsertAtMatch(p, s, sep);
  }

  /**
   * Local characterisation: one replaceAll pass inserts sep exactly where the pattern matches two
   * adjacent characters of its input. It holds because the two groups' classes are disjoint, so a
   * greedy run never hides a match.
   */
  lemma {:induction false} ReplaceAllIsInsert(p: Pattern, s: string, sep: char)
    ensures ReplaceAll(p, s, sep) == Insert(p, s, sep)
    decreases |s|
  {
    if |s| >= 2 {
      if Matches(p, s[0], s[1]) {
        ReplaceAllIsInsert(p, s[1 + RunLength(p, s[1..])..], sep);
        ReplaceAtMatch(p, s, sep);
      } else {
        ReplaceAllIsInsert(p, s[1..], sep);
      }
    }
  }

  /** A boundary: an index where either pattern matches. */
  predicate IsBoundary(a: char, b: char) {
    Matches(FollowedByCapitalized, a, b) || Matches(FollowedByDigit, a, b)
  }

  /** The number of indices i of s at which s[i], s[i + 1] is a boundary. */
  function BoundaryCount(s: string): nat
  {
    if |s| < 2 then 0 else (if IsBoundary(s[0], s[1]) then 1 else 0) + BoundaryCount(s[1..])
  }

  /** s with sep inserted at every boundary of s, and nowhere else. */
  function Separated(s: string, sep: char): (r: string)
    ensures |r| == |s| + BoundaryCount(s)
    ensures |s| > 0 ==> r[0] == s[0]
  {
    if |s| < 2 then s
    else [s[0]] + (if IsBoundary(s[0], s[1]) then [sep] else []) + Separated(s[1..], sep)
  }

  /** A separator that neither pattern can match. */
  predicate NeutralSeparator(sep: char) { !IsLetter(sep) && !IsDigit(sep) }

  /** Insertion into a string with a known first character. */
  lemma InsertCons(p: Pattern, c: char, t: string, sep: char)
    requires |t| > 0
    ensures Insert(p, [c] + t, sep) == [c] + (if Matches(p, c, t[0]) then [sep] else []) + Insert(p, t, sep)
  {
    var u := [c] + t;
    assert u[0] == c && u[1] == t[0] && u[1..] == t;
  }

  /** One step of `InsertsChain` where the first pattern matches at the front. */
  lemma ChainAtCapital(s: string, sep: char)
    requires NeutralSeparator(sep) && |s| >= 2 && Matches(FollowedByCapitalized, s[0], s[1])
    requires Insert(FollowedByDigit, Insert(FollowedByCapitalized, s[1..], sep), sep) == Separated(s[1..], sep)
    ensures Insert(FollowedByDigit, Insert(FollowedByCapitalized, s, sep), sep) == Separated(s, sep)
  {
    var t := Insert(FollowedByCapitalized, s[1..], sep);
    assert t[0] == s[1];
    assert s == [s[0]] + s[1..];
    InsertCons(FollowedByCapitalized, s[0], s[1..], sep);
    assert Insert(FollowedByCapitalized, s, sep) == [s[0]] + ([sep] + t);
    InsertCons(FollowedByDigit, s[0], [sep] + t, sep);
    InsertCons(FollowedByDigit, sep, t, sep);
  }

  /** One step of `InsertsChain` where the first pattern does not match at the front. */
  lemma ChainOtherwise(s: string, sep: char)
    requires NeutralSeparator(sep) && |s| >= 2 && !Matches(FollowedByCapitalized, s[0], s[1])
    requires Insert(FollowedByDigit, Insert(FollowedByCapitalized, s[1..], sep), sep) == Separated(s[1..], sep)
    ensures Insert(FollowedByDigit, Insert(FollowedByCapitalized, s, sep), sep) == Separated(s, sep)
  {
    var t := Insert(FollowedByCapitalized, s[1..], sep);
    assert t[0] == s[1];
    assert s == [s[0]] + s[1..];
    InsertCons(FollowedByCapitalized, s[0], s[1..], sep);
    assert Insert(FollowedByCapitalized, s, sep) == [s[0]] + t;
    InsertCons(FollowedByDigit, s[0], t, sep);
  }

  /** Inserting for the second pattern into the first pass's output inserts at both boundary kinds of the original. */
  lemma {:induction false} InsertsChain(s: string, sep: char)
    requires NeutralSeparator(sep)
    ensures Insert(FollowedByDigit, Insert(FollowedByCapitalized, s, sep), sep) == Separated(s, sep)
    decreases |s|
  {
    if |s| >= 2 {
      InsertsChain(s[1..], sep);
      if Matches(FollowedByCapitalized, s[0], s[1]) {
        ChainAtCapital(s, sep);
      } else {
        ChainOtherwise(s, sep);
      }
    }
  }

  /**
   * Chaining: the first pass neither creates nor breaks a letter/digit adjacency, so the two chained
   * passes of the converters insert sep at the union of both boundary kinds of the original string.
   */
  lemma TwoPassesSeparate(s: string, sep: char)
    requires NeutralSeparator(sep)
    ensures ReplaceAll(FollowedByDigit, ReplaceAll(FollowedByCapitalized, s, sep), sep) == Separated(s, sep)
  {
    ReplaceAllIsInsert(FollowedByCapitalized, s, sep);
    ReplaceAllIsInsert(FollowedByDigit, Insert(FollowedByCapitalized, s, sep), sep);
    InsertsChain(s, sep);
  }

  /** A string without boundaries is left as it is. */
  lemma {:induction false} NoBoundaryUnchanged(s: string, sep: char)
    requires BoundaryCount(s) == 0
    ensures Separated(s, sep) == s
  {
    if |s| >= 2 {
      NoBoundaryUnchanged(s[1..], sep);
    }
  }

  /** An all-uppercase string has no boundary. */
  lemma {:induction false} AllUpperHasNoBoundary(s: string)
    requires forall i :: 0 <= i < |s| ==> IsUpper(s[i])
    ensures BoundaryCount(s) == 0
  {
    if |s| >= 2 {
      AllUpperHasNoBoundary(s[1..]);
    }
  }

  /** A string with neither an uppercase letter nor a digit has no boundary. */
  lemma {:induction false} CaselessHasNoBoundary(s: string)
    requires forall i :: 0 <= i < |s| ==> !IsUpper(s[i]) && !IsDigit(s[i])
    ensures BoundaryCount(s) == 0
  {
    if |s| >= 2 {
      CaselessHasNoBoundary(s[1..]);
    }
  }

  /** No separator is inserted before index 0 or inside a leading run of digits. */
  lemma {:induction false} LeadingDigitsKept(s: string, sep: char, k: nat)
    requires k <= |s|
    requires forall i :: 0 <= i < k ==> IsDigit(s[i])
    ensures k <= |Separated(s, sep)| && Separated(s, sep)[..k] == s[..k]
  {
    if k == 1 {
      assert Separated(s, sep)[..1] == [s[0]];
    } else if k > 1 {
      var rest := Separated(s[1..], sep);
      LeadingDigitsKept(s[1..], sep, k - 1);
      assert !IsBoundary(s[0], s[1]);
      assert Separated(s, sep) == [s[0]] + rest;
      assert s[..k] == [s[0]] + s[1..][..k - 1];
      assert ([s[0]] + rest)[..k] == [s[0]] + rest[..k - 1];
    }
  }

  /** With two different separators, a string with a boundary gets each at the same position. */
  lemma {:induction false} SeparatorsDiffer(s: string, a: char, b: char) returns (k: nat)
    requires BoundaryCount(s) > 0
    ensures k < |s| + BoundaryCount(s)
    ensures Separated(s, a)[k] == a && Separated(s, b)[k] == b
  {
    if IsBoundary(s[0], s[1]) {
      k := 1;
    } else {
      var j := SeparatorsDiffer(s[1..], a, b);
      k := j + 1;
    }
  }

  /** Separating a concatenation separates each part, plus a separator if the join is a boundary. */
  lemma {:induction false} SeparatedConcat(a: string, b: string, sep: char)
    requires |a| > 0 && |b| > 0
    ensures Separated(a + b, sep) == Separated(a, sep)
                                     + (if IsBoundary(a[|a| - 1], b[0]) then [sep] else [])
                                     + Separated(b, sep)
    decreases |a|
  {
    if |a| == 1 {
      var s := a + b;
      assert s[0] == a[0] && s[1] == b[0] && s[1..] == b;
      assert Separated(a, sep) == [a[0]];
    } else {
      SeparatedConcat(a[1..], b, sep);
      SeparatedConcatStep(a, b, sep);
    }
  }

  /** One step of `SeparatedConcat`: from the tail of a to a. */
  lemma SeparatedConcatStep(a: string, b: string, sep: char)
    requires |a| > 1 && |b| > 0
    requires Separated(a[1..] + b, sep) == Separated(a[1..], sep)
                                           + (if IsBoundary(a[|a| - 1], b[0]) then [sep] else [])
                                           + Separated(b, sep)
    ensures Separated(a + b, sep) == Separated(a, sep)
                                     + (if IsBoundary(a[|a| - 1], b[0]) then [sep] else [])
                                     + Separated(b, sep)
  {
    var s := a + b;
    var bj: string := if IsBoundary(a[|a| - 1], b[0]) then [sep] else [];
    var b0: string := if IsBoundary(a[0], a[1]) then [sep] else [];
    var x, y, z := [a[0]] + b0, Separated(a[1..], sep), Separated(b, sep);
    DropConcat(a, b);
    assert s[0] == a[0] && s[1] == a[1];
    assert a[1..][|a| - 2] == a[|a| - 1];
    calc {
      Separated(s, sep);
      x + Separated(a[1..] + b, sep);
      x + ((y + bj) + z);
      { Regroup(x, y + bj, z); }
      (x + (y + bj)) + z;
      { Regroup(x, y, bj); }
      ((x + y) + bj) + z;
      { assert Separated(a, sep) == x + y; }
      Separated(a, sep) + bj + z;
    }
  }

  /** The boundaries of a concatenation: those of each part, plus the join if it is one. */
  lemma BoundaryCountConcat(a: string, b: string)
    requires |a| > 0 && |b| > 0
    ensures BoundaryCount(a + b) == BoundaryCount(a) + (if IsBoundary(a[|a| - 1], b[0]) then 1 else 0) + BoundaryCount(b)
  {
    SeparatedConcat(a, b, '_');
  }
}
