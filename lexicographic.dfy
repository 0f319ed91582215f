/**
 * Go's string order and `sort.Strings`.
 *
 * Go compares strings byte by byte; UTF-8 preserves the order of code points,
 * so on Dafny strings (sequences of Unicode scalar values) the same order is
 * the lexicographic order on characters.
 */
module Lexicographic {

  /** `a <= b` in Go's string order. */
  predicate Below(a: string, b: string)
    decreases |a|
  {
    |a| == 0 || (|b| != 0 && (a[0] < b[0] || (a[0] == b[0] && Below(a[1..], b[1..]))))
  }

  lemma BelowReflexive(a: string)
    ensures Below(a, a)
  {
  }

  lemma {:induction false} BelowAntisymmetric(a: string, b: string)
    requires Below(a, b) && Below(b, a)
    ensures a == b
  {
    if |a| != 0 {
      BelowAntisymmetric(a[1..], b[1..]);
      assert a == [a[0]] + a[1..] && b == [b[0]] + b[1..];
    }
  }

  lemma {:induction false} BelowTransitive(a: string, b: string, c: string)
    requires Below(a, b) && Below(b, c)
    ensures Below(a, c)
  {
    if |a| != 0 && a[0] == b[0] && b[0] == c[0] {
      BelowTransitive(a[1..], b[1..], c[1..]);
    }
  }

  lemma {:induction false} BelowTotal(a: string, b: string)
    ensures Below(a, b) || Below(b, a)
  {
    if |a| != 0 && |b| != 0 && a[0] == b[0] {
      BelowTotal(a[1..], b[1..]);
    }
  }

  /** `a` comes first when it agrees with `b` up to position `i` and has the smaller character there. */
  lemma {:induction false} BelowAtFirstDifference(a: string, b: string, i: nat)
    requires i < |a| && i < |b| && a[..i] == b[..i] && a[i] < b[i]
    ensures Below(a, b) && !Below(b, a)
  {
    if i > 0 {
      assert a[0] == a[..i][0] == b[..i][0] == b[0];
      assert a[1..][..i - 1] == a[1..i] == b[1..i] == b[1..][..i - 1];
      BelowAtFirstDifference(a[1..], b[1..], i - 1);
    }
  }

  /** A string comes before every string it is a prefix of. */
  lemma {:induction false} BelowPrefix(a: string, b: string)
    requires |a| <= |b| && b[..|a|] == a
    ensures Below(a, b)
  {
    if |a| != 0 {
      assert a[0] == b[0];
      assert b[1..][..|a| - 1] == a[1..];
      BelowPrefix(a[1..], b[1..]);
    }
  }

  /** Ascending in Go's string order (equal neighbours allowed). */
  ghost predicate Sorted(s: seq<string>)
  {
    forall i, j :: 0 <= i < j < |s| ==> Below(s[i], s[j])
  }

  /** `m` is a least element of `ms`. */
  ghost predicate IsLeast(m: string, ms: multiset<string>)
  {
    m in ms && forall y :: y in ms ==> Below(m, y)
  }

  lemma {:induction false} LeastExists(ms: multiset<string>)
    requires ms != multiset{}
    ensures exists m :: IsLeast(m, ms)
    decreases |ms|
  {
    var x :| x in ms;
    var rest := ms - multiset{x};
    if rest == multiset{} {
      forall y | y in ms
        ensures y == x
      {
        assert rest[y] == if y == x then ms[y] - 1 else ms[y];
      }
      BelowReflexive(x);
      assert IsLeast(x, ms);
    } else {
      LeastExists(rest);
      var m :| IsLeast(m, rest);
      BelowTotal(m, x);
      if Below(m, x) {
        assert IsLeast(m, ms);
      } else {
        forall y | y in rest
          ensures Below(x, y)
        {
          BelowTransitive(x, m, y);
        }
        BelowReflexive(x);
        assert IsLeast(x, ms);
      }
    }
  }

  /** The least string of a non-empty multiset. */
  ghost function Least(ms: multiset<string>): (m: string)
    requires ms != multiset{}
    ensures IsLeast(m, ms)
  {
    LeastExists(ms);
    var m :| IsLeast(m, ms);
    m
  }

  /** Prepending a least element to an ascending arrangement of the rest keeps it ascending. */
  lemma ConsLeastSorted(m: string, rest: seq<string>, ms: multiset<string>)
    requires IsLeast(m, ms) && Sorted(rest) && multiset(rest) <= ms
    ensures Sorted([m] + rest)
  {
    forall i | 0 <= i < |rest|
      ensures Below(m, rest[i])
    {
      assert rest[i] in multiset(rest);
    }
  }

  /** The ascending arrangement of a multiset of strings: what sorting any enumeration of it yields. */
  ghost function SortedOf(ms: multiset<string>): (r: seq<string>)
    ensures Sorted(r) && multiset(r) == ms
    decreases |ms|
  {
    if ms == multiset{} then []
    else
      var m := Least(ms);
      var rest := SortedOf(ms - multiset{m});
      ConsLeastSorted(m, rest, ms);
      [m] + rest
  }

  /** Two ascending sequences with the same elements start with the same string. */
  lemma SortedSameHead(a: seq<string>, b: seq<string>)
    requires Sorted(a) && Sorted(b) && multiset(a) == multiset(b) && a != []
    ensures b != [] && a[0] == b[0]
  {
    assert a[0] in multiset(a) && b != [];
    assert b[0] in multiset(b);
    var i :| 0 <= i < |a| && a[i] == b[0];
    var j :| 0 <= j < |b| && b[j] == a[0];
    if i != 0 { assert Below(a[0], a[i]); } else { BelowReflexive(a[0]); }
    if j != 0 { assert Below(b[0], b[j]); } else { BelowReflexive(b[0]); }
    BelowAntisymmetric(a[0], b[0]);
  }

  lemma TailMultiset(a: seq<string>)
    requires a != []
    ensures multiset(a[1..]) == multiset(a) - multiset{a[0]}
    ensures Sorted(a) ==> Sorted(a[1..])
  {
    assert a == [a[0]] + a[1..];
  }

  /** Two ascending sequences with the same elements are the same sequence. */
  lemma {:induction false} SortedUnique(a: seq<string>, b: seq<string>)
    requires Sorted(a) && Sorted(b) && multiset(a) == multiset(b)
    ensures a == b
  {
    if a == [] {
      assert |b| == |multiset(b)| == 0;
    } else {
      SortedSameHead(a, b);
      TailMultiset(a);
      TailMultiset(b);
      SortedUnique(a[1..], b[1..]);
    }
  }

  /** Putting `x` at position `j` keeps `r` ascending when everything before `j` is below `x` and `r[j]` is not. */
  lemma InsertKeepsSorted(r: seq<string>, j: int, x: string)
    requires Sorted(r) && 0 <= j <= |r|
    requires forall k :: 0 <= k < j ==> Below(r[k], x)
    requires j < |r| ==> !Below(r[j], x)
    ensures Sorted(r[..j] + [x] + r[j..])
  {
    var t := r[..j] + [x] + r[j..];
    if j < |r| {
      BelowTotal(r[j], x);
    }
    forall k | j < k < |t|
      ensures Below(x, t[k])
    {
      assert t[k] == r[k - 1];
      if k - 1 != j {
        BelowTransitive(x, r[j], r[k - 1]);
      }
    }
    forall p, q | 0 <= p < q < |t|
      ensures Below(t[p], t[q])
    {
      if q < j {
      } else if q == j {
        assert t[q] == x;
      } else if p < j {
        assert t[q] == r[q - 1];
      } else if p == j {
      } else {
        assert t[p] == r[p - 1] && t[q] == r[q - 1];
      }
    }
  }

  lemma InsertAddsOne(r: seq<string>, j: int, x: string)
    requires 0 <= j <= |r|
    ensures multiset(r[..j] + [x] + r[j..]) == multiset(r) + multiset{x}
  {
    assert r == r[..j] + r[j..];
  }

  /** The first position of ascending `r` whose string is not below `x`, or `|r|`. */
  method InsertionPoint(r: seq<string>, x: string) returns (j: int)
    ensures 0 <= j <= |r|
    ensures forall k :: 0 <= k < j ==> Below(r[k], x)
    ensures j < |r| ==> !Below(r[j], x)
  {
    j := 0;
    while j < |r| && Below(r[j], x)
      invariant 0 <= j <= |r|
      invariant forall k :: 0 <= k < j ==> Below(r[k], x)
    {
      j := j + 1;
    }
  }

  /** `sort.Strings`, as insertion sort on a copy. */
  method SortStrings(s: seq<string>) returns (r: seq<string>)
    ensures r == SortedOf(multiset(s))
  {
    r := [];
    for i := 0 to |s|
      invariant Sorted(r)
      invariant multiset(r) == multiset(s[..i])
    {
      var j := InsertionPoint(r, s[i]);
      InsertKeepsSorted(r, j, s[i]);
      InsertAddsOne(r, j, s[i]);
      r := r[..j] + [s[i]] + r[j..];
      assert s[..i + 1] == s[..i] + [s[i]];
    }
    assert s[..|s|] == s;
    SortedUnique(r, SortedOf(multiset(s)));
  }

  /** A string at two positions of a sequence occurs in it at least twice. */
  lemma RepeatCounted(ks: seq<string>, i: int, j: int)
    requires 0 <= i < j < |ks|
    ensures ks[i] == ks[j] ==> multiset(ks)[ks[i]] >= 2
  {
    var x := ks[i];
    assert ks == ks[..j] + ks[j..];
    assert x in multiset(ks[..j]);
    assert ks[j] in multiset(ks[j..]);
    assert multiset(ks)[x] == multiset(ks[..j])[x] + multiset(ks[j..])[x];
  }

  /** An enumeration of a set lists no element twice. */
  lemma EnumerationDistinct(ks: seq<string>, s: set<string>, i: int, j: int)
    requires multiset(ks) == multiset(s)
    requires 0 <= i < j < |ks|
    ensures ks[i] != ks[j]
  {
    RepeatCounted(ks, i, j);
  }

  /** The keys of a map in ascending order. */
  ghost function KeysAscending<V>(m: map<string, V>): (ks: seq<string>)
    ensures Sorted(ks) && multiset(ks) == multiset(m.Keys)
    ensures forall i :: 0 <= i < |ks| ==> ks[i] in m
  {
    var ks := SortedOf(multiset(m.Keys));
    assert forall i :: 0 <= i < |ks| ==> ks[i] in m by {
      forall i | 0 <= i < |ks| ensures ks[i] in m {
        assert ks[i] in multiset(ks);
      }
    }
    ks
  }

  lemma MultisetOfSetRemove(s: set<string>, k: string)
    requires k in s
    ensures multiset(s) == multiset(s - {k}) + multiset{k}
  {
    forall z
      ensures multiset(s)[z] == (multiset(s - {k}) + multiset{k})[z]
    {
      if z == k {
        assert multiset(s)[z] == 1;
      }
    }
  }

  /**
   * Collects the keys of a Go map in whatever order iteration yields them
   * (any order: the choice below is unconstrained) and sorts them.
   */
  method SortedKeys<V>(m: map<string, V>) returns (ks: seq<string>)
    ensures ks == KeysAscending(m)
  {
    var collected: seq<string> := [];
    var rest := m.Keys;
    while rest != {}
      invariant rest <= m.Keys
      invariant multiset(collected) + multiset(rest) == multiset(m.Keys)
      decreases |rest|
    {
      var k :| k in rest;
      MultisetOfSetRemove(rest, k);
      collected := collected + [k];
      rest := rest - {k};
    }
    assert multiset(rest) == multiset{};
    assert multiset(collected) == multiset(m.Keys);
    ks := SortStrings(collected);
  }
}
