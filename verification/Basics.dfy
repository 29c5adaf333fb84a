// Shared vocabulary: optional values, and the string order and sorting routine that
// the Go standard library provides to every component of the operator.

module Basics {
  datatype Option<+T> = None | Some(value: T)

  /** Reading a Go map: a missing key yields the zero value, here the empty string. */
  function GetOrEmpty(m: map<string, string>, k: string): string {
    if k in m then m[k] else ""
  }

  function MapSeq<A, B>(f: A -> B, s: seq<A>): (r: seq<B>)
    ensures |r| == |s| && forall i | 0 <= i < |s| :: r[i] == f(s[i])
  {
    if s == [] then [] else [f(s[0])] + MapSeq(f, s[1..])
  }

  lemma Assoc<T>(a: seq<T>, b: seq<T>, c: seq<T>)
    ensures (a + b) + c == a + (b + c)
  {
  }

  lemma EmptyOrInhabited<T>(s: seq<T>)
    ensures s == [] || exists x :: x in s
  {
    if s != [] {
      assert s[0] in s;
    }
  }

  /** Go's `strings.HasPrefix`. */
  predicate HasPrefix(s: string, prefix: string) {
    prefix <= s
  }

  /** The parts of `s` between separators. */
  function Split(s: string, sep: char): (parts: seq<string>)
    ensures parts != []
  {
    if s == "" then [""]
    else
      var rest := Split(s[1..], sep);
      if s[0] == sep then [""] + rest else [[s[0]] + rest[0]] + rest[1..]
  }

  function Join(parts: seq<string>, sep: char): string {
    if parts == [] then ""
    else if |parts| == 1 then parts[0]
    else parts[0] + [sep] + Join(parts[1..], sep)
  }

  lemma {:induction false} SplitFirst(p: string, rest: string, sep: char)
    requires sep !in p
    ensures Split(p, sep) == [p]
    ensures Split(p + ([sep] + rest), sep) == [p] + Split(rest, sep)
  {
    var s := p + ([sep] + rest);
    if p == "" {
      assert s == [sep] + rest && s[1..] == rest;
    } else {
      assert s[1..] == p[1..] + ([sep] + rest);
      assert p == [p[0]] + p[1..];
      SplitFirst(p[1..], rest, sep);
    }
  }

  /** Joining parts without separators loses nothing. */
  lemma {:induction false} SplitJoin(parts: seq<string>, sep: char)
    requires parts != [] && forall p | p in parts :: sep !in p
    ensures Split(Join(parts, sep), sep) == parts
  {
    if |parts| == 1 {
      SplitFirst(parts[0], "", sep);
    } else {
      var rest := Join(parts[1..], sep);
      assert Join(parts, sep) == parts[0] + ([sep] + rest);
      SplitFirst(parts[0], rest, sep);
      SplitJoin(parts[1..], sep);
    }
  }

  lemma SameElements<T>(a: seq<T>, b: seq<T>)
    requires multiset(a) == multiset(b)
    ensures forall x :: x in a <==> x in b
  {
    forall x ensures x in a <==> x in b {
      assert x in a <==> x in multiset(a);
      assert x in b <==> x in multiset(b);
    }
  }

  lemma TakeNext<T>(s: seq<T>, i: nat)
    requires i < |s|
    ensures s[..i + 1] == s[..i] + [s[i]]
  {
  }

  lemma DropNext<T>(s: seq<T>, i: nat)
    requires i < |s|
    ensures s[i..] == [s[i]] + s[i + 1..]
  {
  }

  predicate Distinct<T(==)>(s: seq<T>) {
    forall i, j | 0 <= i < j < |s| :: s[i] != s[j]
  }

  predicate DistinctBy<T, K(==)>(s: seq<T>, key: T -> K) {
    forall i, j | 0 <= i < j < |s| :: key(s[i]) != key(s[j])
  }

  lemma {:induction false} MultiplicityOne<T, K>(s: seq<T>, key: T -> K, x: T)
    requires DistinctBy(s, key)
    ensures multiset(s)[x] <= 1
  {
    if s == [] {
    } else {
      assert s == [s[0]] + s[1..];
      MultiplicityOne(s[1..], key, x);
      if s[0] == x {
        assert forall y | y in s[1..] :: key(y) != key(x);
        assert x !in multiset(s[1..]);
      }
    }
  }

  lemma DifferentKeys<T, K>(s: seq<T>, key: T -> K, x: T, y: T)
    requires DistinctBy(s, key) && x in s && y in s && x != y
    ensures key(x) != key(y)
  {
  }

  lemma OccursTwice<T>(s: seq<T>, i: nat, j: nat)
    requires i < j < |s|
    ensures s[i] == s[j] ==> multiset(s)[s[i]] >= 2
  {
    assert s == s[..i] + [s[i]] + s[i + 1..j] + [s[j]] + s[j + 1..];
  }

  /** Distinctness does not depend on the order. */
  lemma DistinctByPermuted<T, K>(a: seq<T>, b: seq<T>, key: T -> K)
    requires multiset(a) == multiset(b) && DistinctBy(a, key)
    ensures DistinctBy(b, key)
  {
    forall i, j | 0 <= i < j < |b| ensures key(b[i]) != key(b[j]) {
      MultiplicityOne(a, key, b[i]);
      OccursTwice(b, i, j);
      assert b[i] in multiset(a) && b[j] in multiset(a);
      DifferentKeys(a, key, b[i], b[j]);
    }
  }

  /** `order` lists every element of `keys` once: one possible outcome of ranging over a Go map. */
  ghost predicate IsEnumeration<T(!new)>(order: seq<T>, keys: set<T>) {
    Distinct(order) && forall x :: x in order <==> x in keys
  }
}

module Ordering {
  import opened Basics

  /** Go's `<` on strings: lexicographic. */
  predicate Before(a: string, b: string) {
    if b == "" then false
    else if a == "" then true
    else a[0] < b[0] || (a[0] == b[0] && Before(a[1..], b[1..]))
  }

  lemma {:induction false} BeforeIrreflexive(a: string)
    ensures !Before(a, a)
  {
    if a == "" {
    } else {
      BeforeIrreflexive(a[1..]);
    }
  }

  lemma {:induction false} BeforeTransitive(a: string, b: string, c: string)
    requires Before(a, b) && Before(b, c)
    ensures Before(a, c)
  {
    if a != "" && a[0] == b[0] == c[0] {
      BeforeTransitive(a[1..], b[1..], c[1..]);
    }
  }

  lemma {:induction false} BeforeTotal(a: string, b: string)
    ensures a == b || Before(a, b) || Before(b, a)
  {
    if a != "" && b != "" && a[0] == b[0] {
      BeforeTotal(a[1..], b[1..]);
      assert a == [a[0]] + a[1..] && b == [b[0]] + b[1..];
    }
  }

  lemma BeforeAsymmetric(a: string, b: string)
    requires Before(a, b)
    ensures !Before(b, a)
  {
    if Before(b, a) {
      BeforeTransitive(a, b, a);
      BeforeIrreflexive(a);
    }
  }

  /** `a` and `b` agree up to `i`, where `a` ends or has the smaller character. */
  predicate DiffersAt(a: string, b: string, i: nat) {
    i <= |a| && i < |b| && a[..i] == b[..i] && (i == |a| || a[i] < b[i])
  }

  lemma DiffersLater(a: string, b: string, i: nat)
    requires a != "" && b != "" && a[0] == b[0]
    ensures DiffersAt(a, b, i + 1) <==> DiffersAt(a[1..], b[1..], i)
  {
    if i < |a| && i < |b| {
      assert a[..i + 1] == [a[0]] + a[1..][..i] && b[..i + 1] == [b[0]] + b[1..][..i];
      if a[..i + 1] == b[..i + 1] {
        assert a[1..][..i] == a[..i + 1][1..] && b[1..][..i] == b[..i + 1][1..];
      }
    }
  }

  lemma SameStart(a: string, b: string, i: nat)
    requires DiffersAt(a, b, i) && i > 0
    ensures a != "" && b != "" && a[0] == b[0]
  {
    assert a[..i][0] == b[..i][0];
  }

  /** The order is the lexicographic one. */
  lemma {:induction false} BeforeExactlyWhen(a: string, b: string)
    ensures Before(a, b) <==> exists i: nat :: DiffersAt(a, b, i)
  {
    if a == "" || b == "" || a[0] != b[0] {
      if Before(a, b) {
        assert DiffersAt(a, b, 0);
      }
      if i: nat :| DiffersAt(a, b, i) && i > 0 {
        SameStart(a, b, i);
      }
    } else {
      BeforeExactlyWhen(a[1..], b[1..]);
      if Before(a, b) {
        var i: nat :| DiffersAt(a[1..], b[1..], i);
        DiffersLater(a, b, i);
      }
      if i: nat :| DiffersAt(a, b, i) {
        assert i > 0;
        DiffersLater(a, b, i - 1);
      }
    }
  }

  /** What `sort.Slice` demands of the comparison it is given. */
  ghost predicate StrictWeakOrder<T(!new)>(s: seq<T>, less: (T, T) -> bool) {
    && (forall x, y | x in s && y in s && less(x, y) :: !less(y, x))
    && (forall x, y, z | x in s && y in s && z in s && !less(x, y) && !less(y, z) :: !less(x, z))
  }

  ghost predicate Sorted<T>(s: seq<T>, less: (T, T) -> bool) {
    forall i, j | 0 <= i < j < |s| :: !less(s[j], s[i])
  }

  ghost predicate StrictlySorted<T>(s: seq<T>, less: (T, T) -> bool) {
    forall i, j | 0 <= i < j < |s| :: less(s[i], s[j])
  }

  function Insert<T>(r: seq<T>, x: T, less: (T, T) -> bool): (q: seq<T>)
    ensures multiset(q) == multiset(r) + multiset{x}
  {
    if r == [] || !less(x, r[|r| - 1]) then r + [x]
    else
      assert r == r[..|r| - 1] + [r[|r| - 1]];
      Insert(r[..|r| - 1], x, less) + [r[|r| - 1]]
  }

  lemma {:induction false} InsertSorted<T(!new)>(r: seq<T>, x: T, s: seq<T>, less: (T, T) -> bool)
    requires StrictWeakOrder(s, less) && x in s && forall y | y in r :: y in s
    requires Sorted(r, less)
    ensures Sorted(Insert(r, x, less), less)
  {
    var q := Insert(r, x, less);
    if r != [] {
      var last := r[|r| - 1];
      if less(x, last) {
        var front := r[..|r| - 1];
        InsertSorted(front, x, s, less);
        forall j | 0 <= j < |q| - 1 ensures !less(last, q[j]) {
          assert q[j] in multiset(Insert(front, x, less));
          assert q[j] == x || q[j] in front;
        }
      } else {
        forall j | 0 <= j < |r| ensures !less(x, r[j]) {
          assert j == |r| - 1 || !less(last, r[j]);
          assert r[j] in s && last in s;
        }
      }
    }
  }

  /** Stands for `sort.Slice` and `sort.Strings`. Callers rely on the contract alone, which
      leaves the order of equivalent elements open, as Go's unstable sort does. */
  method SortSlice<T(!new)>(s: seq<T>, less: (T, T) -> bool) returns (r: seq<T>)
    requires StrictWeakOrder(s, less)
    ensures multiset(r) == multiset(s)
    ensures Sorted(r, less)
  {
    r := [];
    for n := 0 to |s|
      invariant multiset(r) == multiset(s[..n])
      invariant Sorted(r, less)
    {
      forall x | x in r ensures x in s {
        assert x in multiset(r);
      }
      InsertSorted(r, s[n], s, less);
      assert s[..n + 1] == s[..n] + [s[n]];
      r := Insert(r, s[n], less);
    }
    assert s[..|s|] == s;
  }

  /** A strictly sorted list is determined by its set of elements. */
  lemma {:induction false} StrictlySortedUnique<T(!new)>(a: seq<T>, b: seq<T>, less: (T, T) -> bool)
    requires StrictlySorted(a, less) && StrictlySorted(b, less)
    requires forall x :: x in a <==> x in b
    requires StrictWeakOrder(a, less)
    ensures a == b
  {
    if a != [] {
      assert a[0] in b;
    }
    if b != [] {
      assert b[0] in a;
    }
    if a != [] {
      var i :| 0 <= i < |a| && a[i] == b[0];
      var j :| 0 <= j < |b| && b[j] == a[0];
      assert i == 0 || j == 0;
      forall x ensures x in a[1..] <==> x in b[1..] {
        if x in a[1..] {
          assert x in b && less(a[0], x);
        }
        if x in b[1..] {
          assert x in a && less(b[0], x);
        }
      }
      StrictlySortedUnique(a[1..], b[1..], less);
      assert a == [a[0]] + a[1..] && b == [b[0]] + b[1..];
    }
  }

  lemma NotBeforeTransitive(x: string, y: string, z: string)
    requires !Before(x, y) && !Before(y, z)
    ensures !Before(x, z)
  {
    BeforeTotal(x, y);
    BeforeTotal(y, z);
    if Before(x, z) {
      if x != y && y != z {
        BeforeTransitive(y, x, z);
        BeforeAsymmetric(y, z);
      }
    }
  }

  lemma BeforeIsOrder(s: seq<string>)
    ensures StrictWeakOrder(s, Before)
  {
    forall x, y | x in s && y in s && Before(x, y) ensures !Before(y, x) {
      BeforeAsymmetric(x, y);
    }
    forall x, y, z | x in s && y in s && z in s && !Before(x, y) && !Before(y, z) ensures !Before(x, z) {
      NotBeforeTransitive(x, y, z);
    }
  }

  /** `sort.Strings`. */
  method SortStrings(s: seq<string>) returns (r: seq<string>)
    ensures multiset(r) == multiset(s)
    ensures Sorted(r, Before)
  {
    BeforeIsOrder(s);
    r := SortSlice(s, Before);
  }

  lemma {:induction false} SortedDistinctIsStrict(s: seq<string>)
    requires Sorted(s, Before)
    requires Distinct(s)
    ensures StrictlySorted(s, Before)
  {
    forall i, j | 0 <= i < j < |s| ensures Before(s[i], s[j]) {
      BeforeTotal(s[i], s[j]);
    }
  }
}
