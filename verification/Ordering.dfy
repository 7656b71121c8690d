/** The order Go uses to compare strings, sorting by a string key, and the
    strictly increasing listing of a set of strings. */
module Ordering {
  predicate Less(a: string, b: string) {
    b != [] && (a == [] || a[0] < b[0] || (a[0] == b[0] && Less(a[1..], b[1..])))
  }

  lemma {:induction false} LessIrreflexive(a: string)
    ensures !Less(a, a)
  {
    if a != [] {
      LessIrreflexive(a[1..]);
    }
  }

  lemma {:induction false} LessTransitive(a: string, b: string, c: string)
    requires Less(a, b) && Less(b, c)
    ensures Less(a, c)
  {
    if a != [] && a[0] == b[0] && b[0] == c[0] {
      LessTransitive(a[1..], b[1..], c[1..]);
    }
  }

  lemma {:induction false} LessTotal(a: string, b: string)
    ensures Less(a, b) || a == b || Less(b, a)
  {
    if a != [] && b != [] && a[0] == b[0] {
      LessTotal(a[1..], b[1..]);
      assert a == [a[0]] + a[1..] && b == [b[0]] + b[1..];
    }
  }

  /** a and b agree on the first k characters, and there a ends or has the smaller character. */
  ghost predicate SmallerFrom(a: string, b: string, k: int) {
    && 0 <= k <= |a| && k < |b| && (forall i :: 0 <= i < k ==> a[i] == b[i])
    && (k == |a| || a[k] < b[k])
  }

  /** The order is the lexicographic one. */
  lemma {:induction false} LessIsLexicographic(a: string, b: string)
    ensures Less(a, b) <==> exists k :: SmallerFrom(a, b, k)
  {
    if a != [] && b != [] && a[0] == b[0] {
      LessIsLexicographic(a[1..], b[1..]);
      forall k | SmallerFrom(a[1..], b[1..], k) ensures SmallerFrom(a, b, k + 1) {
      }
      forall k | SmallerFrom(a, b, k) ensures SmallerFrom(a[1..], b[1..], k - 1) {
      }
    } else if Less(a, b) {
      assert SmallerFrom(a, b, 0);
    }
  }

  ghost predicate Increasing(s: seq<string>) {
    forall i, j :: 0 <= i < j < |s| ==> Less(s[i], s[j])
  }

  ghost function Elements<T>(s: seq<T>): set<T> {
    set x | x in s
  }

  /** A strictly increasing sequence is determined by its elements. */
  lemma {:induction false} IncreasingUnique(s: seq<string>, t: seq<string>)
    requires Increasing(s) && Increasing(t) && Elements(s) == Elements(t)
    ensures s == t
  {
    if s == [] {
      if t != [] {
        IncreasingHead(t, s);
      }
    } else {
      assert s[0] in Elements(s);
      IncreasingHead(s, t);
      IncreasingHead(t, s);
      IncreasingTail(s);
      IncreasingTail(t);
      IncreasingUnique(s[1..], t[1..]);
      assert s == [s[0]] + s[1..] && t == [t[0]] + t[1..];
    }
  }

  lemma IncreasingHead(s: seq<string>, t: seq<string>)
    requires Increasing(s) && Increasing(t) && Elements(s) == Elements(t) && s != []
    ensures t != [] && s[0] == t[0]
  {
    assert s[0] in Elements(t);
    assert t[0] in Elements(s);
    var i :| 0 <= i < |t| && t[i] == s[0];
    var j :| 0 <= j < |s| && s[j] == t[0];
    if i > 0 && j > 0 {
      assert Less(t[0], t[i]) && Less(s[0], s[j]);
      LessTransitive(s[0], t[0], s[0]);
      LessIrreflexive(s[0]);
    }
  }

  lemma IncreasingTail(s: seq<string>)
    requires Increasing(s) && s != []
    ensures Increasing(s[1..]) && Elements(s[1..]) == Elements(s) - {s[0]}
  {
    forall x ensures x in Elements(s[1..]) <==> x in Elements(s) - {s[0]} {
      if x in s[1..] {
        var i :| 0 <= i < |s| - 1 && s[1..][i] == x;
        assert Less(s[0], s[i + 1]);
        LessIrreflexive(x);
      }
    }
  }

  ghost predicate IsMinimum(x: set<string>, m: string) {
    m in x && forall y :: y in x && y != m ==> Less(m, y)
  }

  lemma MinimumOfMore(x: set<string>, m: string, a: string)
    requires IsMinimum(x, m) && a !in x
    ensures IsMinimum(x + {a}, if Less(a, m) then a else m)
  {
    LessTotal(a, m);
    if Less(a, m) {
      forall y | y in x && y != m ensures Less(a, y) {
        LessTransitive(a, m, y);
      }
    }
  }

  lemma {:induction false} MinimumExists(x: set<string>) returns (m: string)
    requires x != {}
    ensures IsMinimum(x, m)
    decreases x
  {
    var a :| a in x;
    var rest := x - {a};
    assert x == rest + {a};
    if rest == {} {
      m := a;
    } else {
      m := MinimumExists(rest);
      MinimumOfMore(rest, m, a);
      m := if Less(a, m) then a else m;
    }
  }

  ghost function Minimum(x: set<string>): (m: string)
    requires x != {}
    ensures IsMinimum(x, m)
  {
    assert exists m :: IsMinimum(x, m) by {
      var m := MinimumExists(x);
    }
    var m :| IsMinimum(x, m);
    m
  }

  /** The members of a set in increasing order. */
  ghost function Listing(x: set<string>): (r: seq<string>)
    ensures Increasing(r) && Elements(r) == x && |r| == |x|
    decreases |x|
  {
    if x == {} then []
    else
      var rest := Listing(x - {Minimum(x)});
      ConsIncreasing(Minimum(x), rest);
      [Minimum(x)] + rest
  }

  lemma ConsIncreasing(m: string, rest: seq<string>)
    requires Increasing(rest)
    requires forall y :: y in Elements(rest) ==> Less(m, y)
    ensures Increasing([m] + rest) && Elements([m] + rest) == {m} + Elements(rest)
  {
    var s := [m] + rest;
    forall i, j | 0 <= i < j < |s| ensures Less(s[i], s[j]) {
      assert s[j] == rest[j - 1];
      if i == 0 {
        assert rest[j - 1] in Elements(rest);
      } else {
        assert s[i] == rest[i - 1];
      }
    }
  }

  /** A strict order in which incomparable elements are alike. */
  ghost predicate WeakOrder<T(!new)>(less: (T, T) -> bool) {
    && (forall a, b :: less(a, b) ==> !less(b, a))
    && (forall a, b, c :: !less(b, a) && !less(c, b) ==> !less(c, a))
  }

  ghost predicate SortedBy<T>(r: seq<T>, less: (T, T) -> bool) {
    forall i, j :: 0 <= i < j < |r| ==> !less(r[j], r[i])
  }

  /** A sort; like the library's, it promises nothing about the relative order of elements
      of which neither is less. */
  method Sort<T(!new)>(s: seq<T>, less: (T, T) -> bool) returns (r: seq<T>)
    requires WeakOrder(less)
    ensures multiset(r) == multiset(s) && SortedBy(r, less)
  {
    r := [];
    for n := 0 to |s|
      invariant multiset(r) == multiset(s[..n]) && SortedBy(r, less)
    {
      var k := PlaceFor(r, less, s[n]);
      InsertKeepsOrder(r, less, k, s[n]);
      InsertAddsOne(r, k, s[n]);
      assert s[..n + 1] == s[..n] + [s[n]];
      r := r[..k] + [s[n]] + r[k..];
    }
    assert s[..|s|] == s;
  }

  /** The place after which everything is larger. */
  method PlaceFor<T>(r: seq<T>, less: (T, T) -> bool, x: T) returns (k: nat)
    ensures k <= |r|
    ensures forall i :: k <= i < |r| ==> less(x, r[i])
    ensures k > 0 ==> !less(x, r[k - 1])
  {
    k := |r|;
    while k > 0 && less(x, r[k - 1])
      invariant k <= |r|
      invariant forall i :: k <= i < |r| ==> less(x, r[i])
    {
      k := k - 1;
    }
  }

  lemma InsertAddsOne<T>(r: seq<T>, k: nat, x: T)
    requires k <= |r|
    ensures multiset(r[..k] + [x] + r[k..]) == multiset(r) + multiset{x}
  {
    assert r == r[..k] + r[k..];
  }

  lemma InsertKeepsOrder<T(!new)>(r: seq<T>, less: (T, T) -> bool, k: nat, x: T)
    requires WeakOrder(less) && k <= |r| && SortedBy(r, less)
    requires forall i :: k <= i < |r| ==> less(x, r[i])
    requires k > 0 ==> !less(x, r[k - 1])
    ensures SortedBy(r[..k] + [x] + r[k..], less)
  {
    var t := r[..k] + [x] + r[k..];
    forall i, j | 0 <= i < j < |t| ensures !less(t[j], t[i]) {
      if i < k && j == k {
        assert i < k - 1 ==> !less(r[k - 1], r[i]);
      } else if i < k && j > k {
        assert t[j] == r[j - 1];
      } else if i == k {
        assert less(x, r[j - 1]);
      } else if i > k {
        assert t[i] == r[i - 1] && t[j] == r[j - 1];
      }
    }
  }

  /** Sorting on a string key. */
  method SortBy<T(!new)>(s: seq<T>, key: T -> string) returns (r: seq<T>)
    ensures multiset(r) == multiset(s)
    ensures forall i, j :: 0 <= i < j < |r| ==> !Less(key(r[j]), key(r[i]))
  {
    var less := (a: T, b: T) => Less(key(a), key(b));
    KeysOrder(key, less);
    r := Sort(s, less);
    assert forall i, j :: 0 <= i < j < |r| ==> !less(r[j], r[i]);
  }

  lemma KeysOrder<T(!new)>(key: T -> string, less: (T, T) -> bool)
    requires forall a, b :: less(a, b) == Less(key(a), key(b))
    ensures WeakOrder(less)
  {
    forall a, b | less(a, b) ensures !less(b, a) {
      if Less(key(b), key(a)) {
        LessTransitive(key(a), key(b), key(a));
        LessIrreflexive(key(a));
      }
    }
    forall a, b, c | !less(b, a) && !less(c, b) ensures !less(c, a) {
      NotLessTransitive(key(a), key(b), key(c));
    }
  }

  /** A string as its own sort key. */
  function Itself(s: string): string {
    s
  }

  lemma NotLessTransitive(a: string, b: string, c: string)
    requires !Less(b, a) && !Less(c, b)
    ensures !Less(c, a)
  {
    if Less(c, a) {
      LessTotal(b, a);
      LessTotal(c, b);
      if a != b && b != c {
        LessTransitive(a, b, c);
        LessTransitive(c, a, c);
        LessIrreflexive(c);
      }
    }
  }

  /** Sorting elements with distinct keys gives the listing of their keys. */
  lemma SortedKeysAreListing<T>(r: seq<T>, key: T -> string, keys: set<string>)
    requires forall i, j :: 0 <= i < j < |r| ==> !Less(key(r[j]), key(r[i]))
    requires forall i, j :: 0 <= i < j < |r| ==> key(r[i]) != key(r[j])
    requires forall i :: 0 <= i < |r| ==> key(r[i]) in keys
    requires forall k :: k in keys ==> exists i :: 0 <= i < |r| && key(r[i]) == k
    ensures |r| == |Listing(keys)| && forall i :: 0 <= i < |r| ==> key(r[i]) == Listing(keys)[i]
  {
    var ks := seq(|r|, i requires 0 <= i < |r| => key(r[i]));
    forall i, j | 0 <= i < j < |ks| ensures Less(ks[i], ks[j]) {
      LessTotal(ks[i], ks[j]);
    }
    forall k ensures k in Elements(ks) <==> k in keys {
      if k in keys {
        var i :| 0 <= i < |r| && key(r[i]) == k;
        assert ks[i] == k;
      }
    }
    IncreasingUnique(ks, Listing(keys));
  }

  /** A permutation keeps keys distinct and keeps the set of elements. */
  lemma PermutationKeepsDistinctKeys<T>(s: seq<T>, t: seq<T>, key: T -> string)
    requires multiset(s) == multiset(t)
    requires forall i, j :: 0 <= i < j < |s| ==> key(s[i]) != key(s[j])
    ensures forall i, j :: 0 <= i < j < |t| ==> key(t[i]) != key(t[j])
  {
    forall i, j | 0 <= i < j < |t| ensures key(t[i]) != key(t[j]) {
      PermutationElements(s, t);
      assert t[i] in s && t[j] in s;
      var a :| 0 <= a < |s| && s[a] == t[i];
      var b :| 0 <= b < |s| && s[b] == t[j];
      if key(t[i]) == key(t[j]) {
        assert a == b;
        TwiceInMultiset(t, i, j);
        OnceInMultiset(s, a);
      }
    }
  }

  lemma PermutationElements<T>(s: seq<T>, t: seq<T>)
    requires multiset(s) == multiset(t)
    ensures forall x :: x in s <==> x in t
  {
    assert forall x :: x in s <==> x in multiset(s);
    assert forall x :: x in t <==> x in multiset(t);
  }

  lemma TwiceInMultiset<T>(t: seq<T>, i: nat, j: nat)
    requires i < j < |t| && t[i] == t[j]
    ensures multiset(t)[t[i]] >= 2
  {
    assert t == t[..i] + [t[i]] + t[i + 1..j] + [t[j]] + t[j + 1..];
  }

  lemma OnceInMultiset<T>(s: seq<T>, a: nat)
    requires a < |s| && forall i :: 0 <= i < |s| && i != a ==> s[i] != s[a]
    ensures multiset(s)[s[a]] == 1
  {
    assert s == s[..a] + [s[a]] + s[a + 1..];
    assert s[a] !in s[..a] && s[a] !in s[a + 1..];
  }
}
