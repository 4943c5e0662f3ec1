/**
 * Lexicographic order on strings and the sorting of variable names.
 * Go's `sort.Strings` compares strings byte by byte; for well-formed UTF-8
 * that is the same order as comparing code points, which is what `Less`
 * does on `char`s. (Dafny's own `<` on sequences means "proper prefix".)
 */
module Lex {

  /** `a` sorts strictly before `b`. */
  predicate Less(a: string, b: string)
    decreases |a|
  {
    |b| > 0 && (|a| == 0 || a[0] < b[0] || (a[0] == b[0] && Less(a[1..], b[1..])))
  }

  lemma {:induction false} LessIrreflexive(a: string)
    ensures !Less(a, a)
    decreases |a|
  {
    if |a| > 0 {
      LessIrreflexive(a[1..]);
    }
  }

  lemma {:induction false} LessTransitive(a: string, b: string, c: string)
    requires Less(a, b) && Less(b, c)
    ensures Less(a, c)
    decreases |a|
  {
    if |a| > 0 && a[0] == b[0] && b[0] == c[0] {
      LessTransitive(a[1..], b[1..], c[1..]);
    }
  }

  lemma {:induction false} LessTotal(a: string, b: string)
    ensures a == b || Less(a, b) || Less(b, a)
    decreases |a|
  {
    if |a| > 0 && |b| > 0 && a[0] == b[0] {
      LessTotal(a[1..], b[1..]);
      if a[1..] == b[1..] {
        assert a == [a[0]] + a[1..] && b == [b[0]] + b[1..];
      }
    }
  }

  lemma LessAsymmetric(a: string, b: string)
    requires Less(a, b)
    ensures !Less(b, a)
  {
    if Less(b, a) {
      LessTransitive(a, b, a);
      LessIrreflexive(a);
    }
  }

  /** Non-decreasing: no later element sorts before an earlier one. */
  predicate Sorted(s: seq<string>) {
    forall i, j :: 0 <= i < j < |s| ==> !Less(s[j], s[i])
  }

  /** Strictly increasing, hence also free of duplicates. */
  predicate StrictlySorted(s: seq<string>) {
    forall i, j :: 0 <= i < j < |s| ==> Less(s[i], s[j])
  }

  /** Inserts `x` into a sorted sequence before the first element that does not sort before it. */
  function Insert(x: string, s: seq<string>): (r: seq<string>)
    requires Sorted(s)
    ensures Sorted(r)
    ensures multiset(r) == multiset(s) + multiset{x}
  {
    if s == [] then [x]
    else if !Less(s[0], x) then
      InsertFront(x, s);
      [x] + s
    else
      var t := Insert(x, s[1..]);
      InsertLater(x, s, t);
      [s[0]] + t
  }

  /** Prepending an element that no element sorts before keeps a sequence sorted. */
  lemma ConsSorted(y: string, t: seq<string>)
    requires Sorted(t)
    requires forall j :: 0 <= j < |t| ==> !Less(t[j], y)
    ensures Sorted([y] + t)
  {
    forall i, j | 0 <= i < j < |[y] + t| ensures !Less(([y] + t)[j], ([y] + t)[i]) {
      if i > 0 {
        assert ([y] + t)[i] == t[i - 1] && ([y] + t)[j] == t[j - 1];
      } else {
        assert ([y] + t)[j] == t[j - 1];
      }
    }
  }

  lemma InsertFront(x: string, s: seq<string>)
    requires Sorted(s) && s != [] && !Less(s[0], x)
    ensures Sorted([x] + s)
  {
    forall j | 0 <= j < |s| ensures !Less(s[j], x) {
      LessTotal(s[0], x);
      if s[0] != x && Less(s[j], x) {
        LessTransitive(s[j], x, s[0]);
      }
    }
    ConsSorted(x, s);
  }

  lemma InsertLater(x: string, s: seq<string>, t: seq<string>)
    requires Sorted(s) && s != [] && Less(s[0], x)
    requires Sorted(t) && multiset(t) == multiset(s[1..]) + multiset{x}
    ensures Sorted([s[0]] + t)
    ensures multiset([s[0]] + t) == multiset(s) + multiset{x}
  {
    assert s == [s[0]] + s[1..];
    forall j | 0 <= j < |t| ensures !Less(t[j], s[0]) {
      assert t[j] in multiset(t);
      if t[j] == x {
        LessAsymmetric(s[0], x);
      } else {
        assert t[j] in multiset(s[1..]);
        var k :| 0 <= k < |s[1..]| && s[1..][k] == t[j];
        assert s[k + 1] == t[j];
      }
    }
    ConsSorted(s[0], t);
  }

  /** Insertion sort; stands for `sort.Strings`. */
  function Sort(s: seq<string>): (r: seq<string>)
    ensures Sorted(r)
    ensures multiset(r) == multiset(s)
  {
    if s == [] then []
    else
      assert s == [s[0]] + s[1..];
      Insert(s[0], Sort(s[1..]))
  }

  /** A sorted sequence in which every element occurs at most once is strictly sorted. */
  lemma SortedUniqueIsStrict(s: seq<string>)
    requires Sorted(s)
    requires forall x :: multiset(s)[x] <= 1
    ensures StrictlySorted(s)
  {
    forall i, j | 0 <= i < j < |s| ensures Less(s[i], s[j]) {
      LessTotal(s[i], s[j]);
      DistinctAt(s, i, j);
    }
  }

  lemma DistinctAt(s: seq<string>, i: nat, j: nat)
    requires forall x :: multiset(s)[x] <= 1
    requires i < j < |s|
    ensures s[i] != s[j]
  {
    var x := s[j];
    assert s == s[..j] + s[j..];
    assert multiset(s) == multiset(s[..j]) + multiset(s[j..]);
    assert s[j..][0] == x;
    assert multiset(s[j..])[x] >= 1;
    assert s[..j][i] == s[i];
    assert multiset(s[..j])[s[i]] >= 1;
    assert multiset(s)[x] <= 1;
  }

  /** Two strictly sorted sequences over the same elements are the same sequence. */
  lemma {:induction false} StrictlySortedUnique(r: seq<string>, q: seq<string>)
    requires StrictlySorted(r) && StrictlySorted(q)
    requires forall x :: x in r <==> x in q
    ensures r == q
    decreases |r|
  {
    if r != [] {
      assert r[0] in r;
    }
    if q != [] {
      assert q[0] in q;
    }
    if r != [] && q != [] {
      if r[0] != q[0] {
        var i :| 0 <= i < |q| && q[i] == r[0];
        var j :| 0 <= j < |r| && r[j] == q[0];
        assert i != 0 && j != 0;
        LessAsymmetric(q[0], r[0]);
      }
      forall x ensures x in r[1..] <==> x in q[1..] {
        if x in r[1..] {
          var k :| 1 <= k < |r| && r[k] == x;
          LessIrreflexive(r[0]);
          assert x != r[0] && x in q;
          var m :| 0 <= m < |q| && q[m] == x;
          assert m != 0;
        }
        if x in q[1..] {
          var k :| 1 <= k < |q| && q[k] == x;
          LessIrreflexive(q[0]);
          assert x != q[0] && x in r;
          var m :| 0 <= m < |r| && r[m] == x;
          assert m != 0;
        }
      }
      StrictlySortedUnique(r[1..], q[1..]);
      assert r == [r[0]] + r[1..] && q == [q[0]] + q[1..];
    }
  }

  /** Some listing of a finite set in which each element occurs exactly once. */
  ghost function Enumerate(ks: set<string>): (r: seq<string>)
    ensures forall x :: multiset(r)[x] == if x in ks then 1 else 0
    decreases ks
  {
    if ks == {} then []
    else
      var k :| k in ks;
      Enumerate(ks - {k}) + [k]
  }

  /**
   * The members of `ks` in strictly increasing order: the order in which
   * the variable header lists the variables.
   */
  ghost function SortedKeys(ks: set<string>): (r: seq<string>)
    ensures StrictlySorted(r)
    ensures forall x :: x in r <==> x in ks
    ensures |r| == |ks|
  {
    var e := Enumerate(ks);
    var r := Sort(e);
    assert forall x :: x in r <==> x in multiset(e);
    SortedUniqueIsStrict(r);
    assert |r| == |multiset(r)| == |multiset(e)| == |e|;
    UniqueListingSize(e, ks);
    r
  }

  /** A listing with each member of `ks` exactly once has `|ks|` elements. */
  lemma {:induction false} UniqueListingSize(e: seq<string>, ks: set<string>)
    requires forall x :: multiset(e)[x] == if x in ks then 1 else 0
    ensures |e| == |ks|
    decreases |e|
  {
    if e != [] {
      var last := e[|e| - 1];
      var init := e[..|e| - 1];
      assert e == init + [last];
      assert multiset(e) == multiset(init) + multiset{last};
      assert last in ks;
      UniqueListingSize(init, ks - {last});
    }
  }
}
