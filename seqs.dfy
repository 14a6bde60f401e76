/** Sequence vocabulary the chat core is written in: JavaScript's
    `Array.prototype.filter`, removal of every occurrence of a value, and the
    stable `Array.prototype.sort` driven by a numeric key. */
module Seqs {

  /** No value occurs twice. */
  ghost predicate NoDuplicates<T(!new)>(s: seq<T>) {
    forall x :: multiset(s)[x] <= 1
  }

  /** `a` is `b` with some elements dropped and the rest kept in order. */
  ghost predicate IsSubsequence<T>(a: seq<T>, b: seq<T>)
    decreases |b|
  {
    a == [] || (b != [] && ((a[0] == b[0] && IsSubsequence(a[1..], b[1..])) || IsSubsequence(a, b[1..])))
  }

  /** Every sequence is a subsequence of itself. */
  lemma {:induction false} SubsequenceOfItself<T>(s: seq<T>)
    ensures IsSubsequence(s, s)
  {
    if s != [] {
      SubsequenceOfItself(s[1..]);
    }
  }

  /** `s.filter(p)`: keeps, in order, exactly the elements that satisfy `p`. */
  function Filter<T(!new)>(s: seq<T>, p: T -> bool): (r: seq<T>)
    ensures |r| <= |s|
    ensures forall i :: 0 <= i < |r| ==> p(r[i])
    ensures forall x :: x in r <==> x in s && p(x)
    ensures IsSubsequence(r, s)
  {
    if s == [] then []
    else
      var rest := Filter(s[1..], p);
      assert s == [s[0]] + s[1..];
      if p(s[0]) then [s[0]] + rest else rest
  }

  /** `s.filter(y => y !== x)`: every occurrence of `x` removed, the rest kept in order. */
  function Without<T(==,!new)>(s: seq<T>, x: T): (r: seq<T>)
    ensures x !in r
    ensures forall y :: y != x ==> multiset(r)[y] == multiset(s)[y]
    ensures IsSubsequence(r, s)
    ensures x !in s ==> r == s
  {
    if s == [] then []
    else
      var rest := Without(s[1..], x);
      assert s == [s[0]] + s[1..];
      if s[0] == x then rest else [s[0]] + rest
  }

  /** Removing a value just appended to a sequence that did not hold it
      gives the sequence back. */
  lemma {:induction false} WithoutAppended<T(!new)>(s: seq<T>, x: T)
    requires x !in s
    ensures Without(s + [x], x) == s
  {
    if s == [] {
      assert [] + [x] == [x];
    } else {
      assert (s + [x])[1..] == s[1..] + [x];
      WithoutAppended(s[1..], x);
      assert s == [s[0]] + s[1..];
    }
  }

  /** `s.map(f)` */
  function Map<A, B>(s: seq<A>, f: A -> B): (r: seq<B>)
    ensures |r| == |s|
    ensures forall i :: 0 <= i < |s| ==> r[i] == f(s[i])
  {
    seq(|s|, i requires 0 <= i < |s| => f(s[i]))
  }

  /** Non-decreasing in `key`. */
  predicate SortedBy<T>(s: seq<T>, key: T -> int) {
    forall i, j :: 0 <= i < j < |s| ==> key(s[i]) <= key(s[j])
  }

  /** Places `x` in front of the first element whose key is not below its own. */
  function InsertBy<T>(x: T, s: seq<T>, key: T -> int): seq<T> {
    if s == [] || key(x) <= key(s[0]) then [x] + s
    else [s[0]] + InsertBy(x, s[1..], key)
  }

  /** Insertion adds exactly `x`. */
  lemma {:induction false} InsertByMultiset<T>(x: T, s: seq<T>, key: T -> int)
    ensures multiset(InsertBy(x, s, key)) == multiset(s) + multiset{x}
  {
    if s != [] && key(x) > key(s[0]) {
      InsertByMultiset(x, s[1..], key);
      assert s == [s[0]] + s[1..];
    }
  }

  /** Insertion into a sorted sequence keeps it sorted. */
  lemma {:induction false} InsertBySorted<T>(x: T, s: seq<T>, key: T -> int)
    requires SortedBy(s, key)
    ensures SortedBy(InsertBy(x, s, key), key)
  {
    if s != [] && key(x) > key(s[0]) {
      var rest := InsertBy(x, s[1..], key);
      InsertBySorted(x, s[1..], key);
      InsertByMultiset(x, s[1..], key);
      forall k | 0 <= k < |rest| ensures key(s[0]) <= key(rest[k]) {
        assert rest[k] in multiset(rest);
        if rest[k] != x {
          assert rest[k] in multiset(s[1..]);
          var j :| 0 <= j < |s[1..]| && s[1..][j] == rest[k];
          assert s[j + 1] == rest[k];
        }
      }
    }
  }

  /** A stable sort by `key`, as `Array.prototype.sort` with the comparator
      `(a, b) => key(a) - key(b)`: elements with equal keys keep their order. */
  function SortBy<T>(s: seq<T>, key: T -> int): (r: seq<T>)
    ensures multiset(r) == multiset(s)
    ensures SortedBy(r, key)
  {
    if s == [] then []
    else
      assert s == [s[0]] + s[1..];
      var rest := SortBy(s[1..], key);
      InsertByMultiset(s[0], rest, key);
      InsertBySorted(s[0], rest, key);
      InsertBy(s[0], rest, key)
  }

  /** Inserting before a last element that no key passes leaves it last. */
  lemma {:induction false} InsertByBeforeLast<T>(y: T, t: seq<T>, x: T, key: T -> int)
    requires key(y) <= key(x)
    ensures InsertBy(y, t + [x], key) == InsertBy(y, t, key) + [x]
  {
    if t == [] {
      assert [] + [x] == [x];
    } else if key(y) <= key(t[0]) {
      assert (t + [x])[0] == t[0];
      assert [y] + (t + [x]) == ([y] + t) + [x];
    } else {
      assert (t + [x])[0] == t[0] && (t + [x])[1..] == t[1..] + [x];
      InsertByBeforeLast(y, t[1..], x, key);
      assert [t[0]] + (InsertBy(y, t[1..], key) + [x]) == ([t[0]] + InsertBy(y, t[1..], key)) + [x];
    }
  }

  /** An element whose key is not below any other's sorts last, after the
      others in their sorted order. */
  lemma {:induction false} SortByAppendLatest<T>(s: seq<T>, x: T, key: T -> int)
    requires forall v :: v in s ==> key(v) <= key(x)
    ensures SortBy(s + [x], key) == SortBy(s, key) + [x]
  {
    if s == [] {
      assert [] + [x] == [x];
      assert SortBy([x], key) == InsertBy(x, [], key);
    } else {
      assert (s + [x])[0] == s[0] && (s + [x])[1..] == s[1..] + [x];
      SortByAppendLatest(s[1..], x, key);
      assert s[0] in s;
      InsertByBeforeLast(s[0], SortBy(s[1..], key), x, key);
    }
  }

  /** Filtering commutes with a rewrite that the filter cannot tell apart. */
  lemma {:induction false} FilterMap<A(!new)>(s: seq<A>, f: A -> A, p: A -> bool)
    requires forall x :: p(f(x)) == p(x)
    ensures Filter(Map(s, f), p) == Map(Filter(s, p), f)
  {
    if s != [] {
      assert Map(s, f)[0] == f(s[0]) && Map(s, f)[1..] == Map(s[1..], f);
      FilterMap(s[1..], f, p);
      if p(s[0]) {
        assert Map([s[0]] + Filter(s[1..], p), f) == [f(s[0])] + Map(Filter(s[1..], p), f);
      }
    }
  }

  lemma {:induction false} InsertByMap<A>(x: A, s: seq<A>, g: A -> A, key: A -> int)
    requires forall v :: key(g(v)) == key(v)
    ensures InsertBy(g(x), Map(s, g), key) == Map(InsertBy(x, s, key), g)
  {
    if s != [] && key(x) > key(s[0]) {
      assert Map(s, g)[0] == g(s[0]) && Map(s, g)[1..] == Map(s[1..], g);
      InsertByMap(x, s[1..], g, key);
      assert Map([s[0]] + InsertBy(x, s[1..], key), g) == [g(s[0])] + Map(InsertBy(x, s[1..], key), g);
    } else {
      assert Map([x] + s, g) == [g(x)] + Map(s, g);
    }
  }

  /** Sorting commutes with a rewrite that keeps every key. */
  lemma {:induction false} SortByMap<A>(s: seq<A>, g: A -> A, key: A -> int)
    requires forall v :: key(g(v)) == key(v)
    ensures SortBy(Map(s, g), key) == Map(SortBy(s, key), g)
  {
    if s != [] {
      assert Map(s, g)[0] == g(s[0]) && Map(s, g)[1..] == Map(s[1..], g);
      SortByMap(s[1..], g, key);
      InsertByMap(s[0], SortBy(s[1..], key), g, key);
    }
  }

  /** `Filter` keeps every element that passes, as often as it occurs, and
      drops every other one. */
  lemma {:induction false} FilterMultiset<T(!new)>(s: seq<T>, p: T -> bool)
    ensures forall x :: multiset(Filter(s, p))[x] == if p(x) then multiset(s)[x] else 0
  {
    if s != [] {
      FilterMultiset(s[1..], p);
      assert s == [s[0]] + s[1..];
    }
  }

  /** One step of `Filter` on a non-empty sequence. */
  lemma FilterHead<T(!new)>(s: seq<T>, p: T -> bool)
    requires s != []
    ensures Filter(s, p) == (if p(s[0]) then [s[0]] else []) + Filter(s[1..], p)
  {
  }

  lemma {:induction false} FilterAppend<T(!new)>(s: seq<T>, x: T, p: T -> bool)
    ensures Filter(s + [x], p) == Filter(s, p) + (if p(x) then [x] else [])
  {
    var tail := if p(x) then [x] else [];
    if s == [] {
      assert Filter([x], p) == tail by {
        FilterHead([x], p);
        assert [x][1..] == [];
      }
      assert s + [x] == [x];
    } else {
      var head := if p(s[0]) then [s[0]] else [];
      var t := s + [x];
      assert Filter(t, p) == head + Filter(s[1..] + [x], p) by {
        assert t[0] == s[0] && t[1..] == s[1..] + [x];
        FilterHead(t, p);
      }
      assert Filter(s[1..] + [x], p) == Filter(s[1..], p) + tail by {
        FilterAppend(s[1..], x, p);
      }
      assert Filter(s, p) == head + Filter(s[1..], p) by {
        FilterHead(s, p);
      }
      assert head + (Filter(s[1..], p) + tail) == (head + Filter(s[1..], p)) + tail;
    }
  }

  /** The elements whose key is `k`. */
  function WithKey<T>(key: T -> int, k: int): T -> bool {
    x => key(x) == k
  }

  /** Insertion puts `x` in front of every element with the same key and
      leaves the order among the others alone. */
  lemma {:induction false} InsertByKeepsTies<T(!new)>(x: T, s: seq<T>, key: T -> int, k: int)
    decreases |s|, 1
    ensures Filter(InsertBy(x, s, key), WithKey(key, k)) == (if key(x) == k then [x] else []) + Filter(s, WithKey(key, k))
  {
    var p := WithKey(key, k);
    if s == [] || key(x) <= key(s[0]) {
      var t := [x] + s;
      assert t[0] == x && t[1..] == s;
      FilterHead(t, p);
    } else {
      InsertByPassing(x, s, key, k);
    }
  }

  /** The step of `InsertByKeepsTies` where `x` moves past `s[0]`. */
  lemma {:induction false} InsertByPassing<T(!new)>(x: T, s: seq<T>, key: T -> int, k: int)
    requires s != [] && key(x) > key(s[0])
    ensures Filter(InsertBy(x, s, key), WithKey(key, k)) == (if key(x) == k then [x] else []) + Filter(s, WithKey(key, k))
    decreases |s|, 0
  {
    var p := WithKey(key, k);
    var rest := InsertBy(x, s[1..], key);
    var tail := Filter(s[1..], p);
    var h0 := if p(s[0]) then [s[0]] else [];
    var hx := if key(x) == k then [x] else [];
    assert Filter(InsertBy(x, s, key), p) == h0 + Filter(rest, p) by {
      var t := [s[0]] + rest;
      assert InsertBy(x, s, key) == t;
      assert t[0] == s[0] && t[1..] == rest;
      FilterHead(t, p);
    }
    assert Filter(rest, p) == hx + tail by {
      InsertByKeepsTies(x, s[1..], key, k);
    }
    assert Filter(s, p) == h0 + tail by {
      FilterHead(s, p);
    }
    // `x` passed `s[0]`, so they cannot both have key `k`
    assert h0 + (hx + tail) == hx + (h0 + tail) by {
      assert h0 == [] || hx == [];
    }
  }

  /** `SortBy` is stable: the elements of any one key come out in the order
      they went in. */
  lemma {:induction false} SortByStable<T(!new)>(s: seq<T>, key: T -> int, k: int)
    ensures Filter(SortBy(s, key), WithKey(key, k)) == Filter(s, WithKey(key, k))
  {
    if s != [] {
      SortByStable(s[1..], key, k);
      InsertByKeepsTies(s[0], SortBy(s[1..], key), key, k);
      FilterHead(s, WithKey(key, k));
    }
  }
}
