/** The comparator sort `Array.prototype.sort` performs, which the language
    requires to be stable, given as an insertion sort over an order `le`. */
module StableSort {

  /** `le` is total and transitive: what a consistent comparator provides. */
  ghost predicate TotalPreorder<T(!new)>(le: (T, T) -> bool) {
    && (forall a, b :: le(a, b) || le(b, a))
    && (forall a, b, c :: le(a, b) && le(b, c) ==> le(a, c))
  }

  predicate SortedBy<T>(s: seq<T>, le: (T, T) -> bool) {
    forall i, j :: 0 <= i < j < |s| ==> le(s[i], s[j])
  }

  /** The elements of `s` equivalent to `x` under `le`, in their order in `s`. */
  function Class<T>(s: seq<T>, le: (T, T) -> bool, x: T): seq<T> {
    if s == [] then []
    else (if le(x, s[0]) && le(s[0], x) then [s[0]] else []) + Class(s[1..], le, x)
  }

  /** Puts `x` before the first element it is not greater than. */
  function Insert<T>(x: T, s: seq<T>, le: (T, T) -> bool): (r: seq<T>)
    ensures |r| == |s| + 1
  {
    if s == [] || le(x, s[0]) then [x] + s
    else
      assert s == [s[0]] + s[1..];
      [s[0]] + Insert(x, s[1..], le)
  }

  function Sort<T>(s: seq<T>, le: (T, T) -> bool): (r: seq<T>)
    ensures |r| == |s|
  {
    if s == [] then []
    else
      assert s == [s[0]] + s[1..];
      Insert(s[0], Sort(s[1..], le), le)
  }

  lemma {:induction false} InsertPermutes<T>(x: T, s: seq<T>, le: (T, T) -> bool)
    ensures multiset(Insert(x, s, le)) == multiset(s) + multiset{x}
  {
    if s != [] && !le(x, s[0]) {
      var rest := Insert(x, s[1..], le);
      InsertPermutes(x, s[1..], le);
      assert Insert(x, s, le) == [s[0]] + rest;
      assert multiset(Insert(x, s, le)) == multiset{s[0]} + multiset(rest);
      assert s == [s[0]] + s[1..];
    }
  }

  /** The sort's result is a permutation of its input. */
  lemma {:induction false} SortPermutes<T>(s: seq<T>, le: (T, T) -> bool)
    ensures multiset(Sort(s, le)) == multiset(s)
  {
    if s != [] {
      SortPermutes(s[1..], le);
      InsertPermutes(s[0], Sort(s[1..], le), le);
      assert s == [s[0]] + s[1..];
    }
  }

  lemma {:induction false} InsertSorted<T(!new)>(x: T, s: seq<T>, le: (T, T) -> bool)
    requires TotalPreorder(le) && SortedBy(s, le)
    ensures SortedBy(Insert(x, s, le), le)
  {
    if s == [] || le(x, s[0]) {
    } else {
      var rest := Insert(x, s[1..], le);
      InsertSorted(x, s[1..], le);
      InsertPermutes(x, s[1..], le);
      forall j | 0 <= j < |rest| ensures le(s[0], rest[j]) {
        assert rest[j] in multiset(rest);
        assert rest[j] == x || rest[j] in multiset(s[1..]);
        if rest[j] != x {
          var k :| 0 <= k < |s[1..]| && s[1..][k] == rest[j];
          assert s[k + 1] == rest[j];
        }
      }
    }
  }

  /** The sort's result is ordered by `le`. */
  lemma {:induction false} SortSorted<T(!new)>(s: seq<T>, le: (T, T) -> bool)
    requires TotalPreorder(le)
    ensures SortedBy(Sort(s, le), le)
  {
    if s != [] {
      SortSorted(s[1..], le);
      InsertSorted(s[0], Sort(s[1..], le), le);
    }
  }

  lemma {:induction false} InsertClass<T(!new)>(a: T, s: seq<T>, le: (T, T) -> bool, x: T)
    requires TotalPreorder(le)
    ensures Class(Insert(a, s, le), le, x)
         == (if le(x, a) && le(a, x) then [a] else []) + Class(s, le, x)
  {
    var ca: seq<T> := if le(x, a) && le(a, x) then [a] else [];
    if s == [] || le(a, s[0]) {
      assert ([a] + s)[0] == a && ([a] + s)[1..] == s;
    } else {
      var rest := Insert(a, s[1..], le);
      var c0: seq<T> := if le(x, s[0]) && le(s[0], x) then [s[0]] else [];
      assert ([s[0]] + rest)[0] == s[0] && ([s[0]] + rest)[1..] == rest;
      InsertClass(a, s[1..], le, x);
      assert Class(Insert(a, s, le), le, x) == c0 + (ca + Class(s[1..], le, x));
      assert Class(s, le, x) == c0 + Class(s[1..], le, x);
      // `a` and `s[0]` cannot both be equivalent to `x`, since `a` is greater than `s[0]`.
      assert ca == [] || c0 == [];
    }
  }

  /** Stability: for every `x`, the elements equivalent to `x` keep their
      relative order. */
  lemma {:induction false} SortStable<T(!new)>(s: seq<T>, le: (T, T) -> bool, x: T)
    requires TotalPreorder(le)
    ensures Class(Sort(s, le), le, x) == Class(s, le, x)
  {
    if s != [] {
      SortStable(s[1..], le, x);
      InsertClass(s[0], Sort(s[1..], le), le, x);
    }
  }

  /** Sorting a sequence that is already ordered gives it back unchanged. */
  lemma {:induction false} SortOfSorted<T>(s: seq<T>, le: (T, T) -> bool)
    requires SortedBy(s, le)
    ensures Sort(s, le) == s
  {
    if s != [] {
      SortOfSorted(s[1..], le);
      assert s == [s[0]] + s[1..];
    }
  }

  /** Cutting a sequence short cuts each equivalence class short. */
  lemma {:induction false} ClassPrefix<T>(s: seq<T>, n: nat, le: (T, T) -> bool, x: T)
    requires n <= |s|
    ensures Class(s[..n], le, x) <= Class(s, le, x)
  {
    if n > 0 {
      assert s[..n][1..] == s[1..][..n - 1];
      ClassPrefix(s[1..], n - 1, le, x);
    }
  }

  /** The first `n` elements of the sort: ordered, drawn from the input, and
      all of it when nothing is cut. */
  lemma SortedCut<T(!new)>(s: seq<T>, n: nat, le: (T, T) -> bool)
    requires TotalPreorder(le) && n <= |s|
    ensures var r := Sort(s, le)[..n];
      && SortedBy(r, le)
      && multiset(r) <= multiset(s)
      && (n == |s| ==> multiset(r) == multiset(s))
  {
    var t := Sort(s, le);
    SortSorted(s, le);
    SortedPrefix(t, n, le);
    SortPermutes(s, le);
    MultisetPrefix(t, n);
  }

  /** The first `n` elements of the sort keep each equivalence class of the
      input, cut short, in input order. */
  lemma SortedCutStable<T(!new)>(s: seq<T>, n: nat, le: (T, T) -> bool, x: T)
    requires TotalPreorder(le) && n <= |s|
    ensures Class(Sort(s, le)[..n], le, x) <= Class(s, le, x)
  {
    SortStable(s, le, x);
    ClassPrefix(Sort(s, le), n, le, x);
  }

  lemma SortedPrefix<T>(s: seq<T>, n: nat, le: (T, T) -> bool)
    requires SortedBy(s, le) && n <= |s|
    ensures SortedBy(s[..n], le)
  {
  }

  lemma MultisetPrefix<T>(s: seq<T>, n: nat)
    requires n <= |s|
    ensures multiset(s[..n]) <= multiset(s)
    ensures n == |s| ==> multiset(s[..n]) == multiset(s)
  {
    assert s == s[..n] + s[n..];
  }
}
