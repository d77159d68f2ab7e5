/**
 * Orders, duplicate removal and stable sorting used by the packing engine.
 * Python compares key tuples lexicographically and its `sorted` is stable;
 * keys are modelled as sequences of reals compared by `LexLess`.
 */
module Sorting {

  /** Python's tuple `<` on tuples of numbers. */
  predicate LexLess(a: seq<real>, b: seq<real>)
    decreases |a|
  {
    |b| > 0 && (|a| == 0 || a[0] < b[0] || (a[0] == b[0] && LexLess(a[1..], b[1..])))
  }

  lemma {:induction false} LexLessIrreflexive(a: seq<real>)
    ensures !LexLess(a, a)
    decreases |a|
  {
    if |a| > 0 {
      LexLessIrreflexive(a[1..]);
    }
  }

  lemma {:induction false} LexLessTransitive(a: seq<real>, b: seq<real>, c: seq<real>)
    requires LexLess(a, b) && LexLess(b, c)
    ensures LexLess(a, c)
    decreases |a|
  {
    if |a| > 0 && a[0] == b[0] && b[0] == c[0] {
      LexLessTransitive(a[1..], b[1..], c[1..]);
    }
  }

  lemma {:induction false} LexLessTotal(a: seq<real>, b: seq<real>)
    ensures a == b || LexLess(a, b) || LexLess(b, a)
    decreases |a|
  {
    if |a| > 0 && |b| > 0 && a[0] == b[0] {
      LexLessTotal(a[1..], b[1..]);
      if a[1..] == b[1..] {
        assert a == [a[0]] + a[1..] && b == [b[0]] + b[1..];
      }
    }
  }

  /** No element of `s` is strictly smaller (by key) than an earlier one. */
  ghost predicate SortedBy<T>(s: seq<T>, key: T -> seq<real>)
  {
    forall i, j :: 0 <= i < j < |s| ==> !LexLess(key(s[j]), key(s[i]))
  }

  ghost predicate NoDup<T>(s: seq<T>)
  {
    forall i, j :: 0 <= i < j < |s| ==> s[i] != s[j]
  }

  /** The elements of `s` in order, each after its first occurrence dropped
      (the order Python's `list(set(...))` is modelled with). */
  function Dedup<T(==)>(s: seq<T>): (r: seq<T>)
    ensures |r| <= |s|
  {
    if s == [] then []
    else
      var p := Dedup(s[..|s| - 1]);
      if s[|s| - 1] in p then p else p + [s[|s| - 1]]
  }

  /** Dedup keeps exactly the elements of its input, each once. */
  lemma {:induction false} DedupProperties<T>(s: seq<T>)
    ensures forall i :: 0 <= i < |Dedup(s)| ==> Dedup(s)[i] in s
    ensures forall i :: 0 <= i < |s| ==> s[i] in Dedup(s)
    ensures NoDup(Dedup(s))
  {
    if s != [] {
      var init, last := s[..|s| - 1], s[|s| - 1];
      DedupProperties(init);
      var p := Dedup(init);
      forall i | 0 <= i < |s| ensures s[i] in Dedup(s) {
        if i < |s| - 1 {
          assert s[i] == init[i];
        }
      }
      forall i | 0 <= i < |Dedup(s)| ensures Dedup(s)[i] in s {
        if i < |p| {
          assert Dedup(s)[i] == p[i];
          var k :| 0 <= k < |init| && init[k] == p[i];
          assert s[k] == init[k];
        }
      }
    }
  }

  lemma {:induction false} DedupOfNoDup<T>(s: seq<T>)
    requires NoDup(s)
    ensures Dedup(s) == s
  {
    if s != [] {
      var init := s[..|s| - 1];
      assert NoDup(init);
      DedupOfNoDup(init);
      assert s[|s| - 1] !in init;
      assert s == init + [s[|s| - 1]];
    }
  }

  /** Dedup keeps the first element in front. */
  lemma DedupFirst<T>(s: seq<T>)
    requires s != []
    ensures Dedup(s) != [] && Dedup(s)[0] == s[0]
  {
    if |s| > 1 {
      DedupFirst(s[..|s| - 1]);
    } else {
      assert Dedup(s[..0]) == [];
    }
  }

  /** Dedup of a list extended by one element. */
  lemma DedupSnoc<T>(s: seq<T>, x: T)
    ensures Dedup(s + [x]) == if x in Dedup(s) then Dedup(s) else Dedup(s) + [x]
  {
    assert (s + [x])[..|s|] == s;
  }

  /** Insert `x` before the first element whose key is not smaller than its
      own: the step of a stable insertion sort fed from the right. */
  function Insert<T>(x: T, s: seq<T>, key: T -> seq<real>): (r: seq<T>)
    ensures multiset(r) == multiset(s) + multiset{x}
    ensures |r| == |s| + 1
  {
    if s == [] || !LexLess(key(s[0]), key(x)) then [x] + s
    else
      assert s == [s[0]] + s[1..];
      [s[0]] + Insert(x, s[1..], key)
  }

  /** Stable sort by an ascending key: Python's `sorted(s, key=key)`. */
  function StableSortBy<T>(s: seq<T>, key: T -> seq<real>): (r: seq<T>)
    ensures multiset(r) == multiset(s)
    ensures |r| == |s|
  {
    if s == [] then []
    else
      assert s == [s[0]] + s[1..];
      Insert(s[0], StableSortBy(s[1..], key), key)
  }

  lemma {:induction false} InsertSorted<T>(x: T, s: seq<T>, key: T -> seq<real>)
    requires SortedBy(s, key)
    ensures SortedBy(Insert(x, s, key), key)
  {
    if s == [] || !LexLess(key(s[0]), key(x)) {
      var r := [x] + s;
      forall i, j | 0 <= i < j < |r| ensures !LexLess(key(r[j]), key(r[i])) {
        if i == 0 {
          if LexLess(key(r[j]), key(x)) {
            assert j >= 2 && r[j] == s[j - 1];
            assert !LexLess(key(s[j - 1]), key(s[0]));
            LexLessTotal(key(s[j - 1]), key(s[0]));
            if key(s[j - 1]) != key(s[0]) {
              LexLessTransitive(key(s[0]), key(s[j - 1]), key(x));
            }
          }
        }
      }
    } else {
      InsertSorted(x, s[1..], key);
      var t := Insert(x, s[1..], key);
      var r := [s[0]] + t;
      assert multiset(t) == multiset(s[1..]) + multiset{x};
      forall j | 1 <= j < |r| ensures !LexLess(key(r[j]), key(s[0])) {
        assert r[j] in multiset(t);
        if r[j] == x {
          if LexLess(key(x), key(s[0])) {
            LexLessTransitive(key(x), key(s[0]), key(x));
            LexLessIrreflexive(key(x));
          }
        } else {
          assert r[j] in multiset(s[1..]);
          var k :| 0 <= k < |s[1..]| && s[1..][k] == r[j];
          assert s[k + 1] == r[j];
        }
      }
    }
  }

  lemma {:induction false} StableSortSorted<T>(s: seq<T>, key: T -> seq<real>)
    ensures SortedBy(StableSortBy(s, key), key)
  {
    if s != [] {
      StableSortSorted(s[1..], key);
      InsertSorted(s[0], StableSortBy(s[1..], key), key);
    }
  }

  /** The elements of `s` whose key is `k`, in order. */
  function WithKey<T>(s: seq<T>, key: T -> seq<real>, k: seq<real>): seq<T>
  {
    if s == [] then []
    else (if key(s[0]) == k then [s[0]] else []) + WithKey(s[1..], key, k)
  }

  lemma {:induction false} WithKeyInsert<T>(x: T, s: seq<T>, key: T -> seq<real>, k: seq<real>)
    ensures WithKey(Insert(x, s, key), key, k)
         == (if key(x) == k then [x] else []) + WithKey(s, key, k)
  {
    if s == [] || !LexLess(key(s[0]), key(x)) {
      assert ([x] + s)[1..] == s;
    } else {
      WithKeyInsert(x, s[1..], key, k);
      assert ([s[0]] + Insert(x, s[1..], key))[1..] == Insert(x, s[1..], key);
      if key(x) == k {
        LexLessIrreflexive(key(x));
      }
    }
  }

  /** Stability: elements with equal keys keep their relative order. */
  lemma {:induction false} StableSortStable<T>(s: seq<T>, key: T -> seq<real>, k: seq<real>)
    ensures WithKey(StableSortBy(s, key), key, k) == WithKey(s, key, k)
  {
    if s != [] {
      StableSortStable(s[1..], key, k);
      WithKeyInsert(s[0], StableSortBy(s[1..], key), key, k);
    }
  }

  /** Two duplicate-free sorted lists with the same elements under an
      injective key are equal: sorting the elements of a set gives one
      result whatever order the set was enumerated in. */
  lemma {:induction false} SortedSetUnique<T>(a: seq<T>, b: seq<T>, key: T -> seq<real>)
    requires forall x, y :: key(x) == key(y) ==> x == y
    requires NoDup(a) && NoDup(b) && SortedBy(a, key) && SortedBy(b, key)
    requires forall x :: x in a <==> x in b
    ensures a == b
    decreases |a|
  {
    if a != [] && b != [] {
      assert a[0] in b && b[0] in a;
      if a[0] != b[0] {
        var ia :| 0 <= ia < |a| && a[ia] == b[0];
        var ib :| 0 <= ib < |b| && b[ib] == a[0];
        assert ia > 0 && ib > 0;
        assert !LexLess(key(a[ia]), key(a[0]));
        assert !LexLess(key(b[ib]), key(b[0]));
        LexLessTotal(key(a[0]), key(b[0]));
        assert false;
      }
      var a', b' := a[1..], b[1..];
      forall x ensures x in a' <==> x in b' {
        if x in a' {
          var i :| 0 <= i < |a'| && a'[i] == x;
          assert a[i + 1] == x && x != a[0];
          assert x in b;
          var k :| 0 <= k < |b| && b[k] == x;
          assert k != 0 && b'[k - 1] == x;
        }
        if x in b' {
          var i :| 0 <= i < |b'| && b'[i] == x;
          assert b[i + 1] == x && x != b[0];
          assert x in a;
          var k :| 0 <= k < |a| && a[k] == x;
          assert k != 0 && a'[k - 1] == x;
        }
      }
      SortedSetUnique(a', b', key);
      assert a == [a[0]] + a' && b == [b[0]] + b';
    } else if a != [] {
      HasElement(a, b);
      assert false;
    } else if b != [] {
      HasElement(b, a);
      assert false;
    }
  }

  lemma HasElement<T>(a: seq<T>, b: seq<T>)
    requires a != [] && forall x :: x in a ==> x in b
    ensures b != []
  {
    assert a[0] in a;
  }
}
