/**
 * Python's ordering of `str` values and its stable sort, as used by
 * `sorted(..., key=..., reverse=True)` and `list.sort(key=..., reverse=True)`:
 * the result is in non-increasing key order and elements with equal keys keep
 * their original relative order.
 */
module Order {

  /** Python's `a < b` on `str`: lexicographic by code point, a proper prefix first. */
  predicate Before(a: string, b: string)
    decreases |a|
  {
    if a == [] then b != []
    else if b == [] then false
    else if a[0] != b[0] then a[0] < b[0]
    else Before(a[1..], b[1..])
  }

  lemma {:induction false} BeforeIrreflexive(a: string)
    ensures !Before(a, a)
    decreases |a|
  {
    if a != [] {
      BeforeIrreflexive(a[1..]);
    }
  }

  lemma {:induction false} BeforeTransitive(a: string, b: string, c: string)
    requires Before(a, b) && Before(b, c)
    ensures Before(a, c)
    decreases |a|
  {
    if a != [] && a[0] == b[0] && b[0] == c[0] {
      BeforeTransitive(a[1..], b[1..], c[1..]);
    }
  }

  lemma {:induction false} BeforeTotal(a: string, b: string)
    ensures a == b || Before(a, b) || Before(b, a)
    decreases |a|
  {
    if a != [] && b != [] && a[0] == b[0] {
      BeforeTotal(a[1..], b[1..]);
      if a[1..] == b[1..] {
        assert a == [a[0]] + a[1..] && b == [b[0]] + b[1..];
      }
    }
  }

  lemma {:induction false} BeforeAsymmetric(a: string, b: string)
    requires Before(a, b)
    ensures !Before(b, a)
    decreases |a|
  {
    if a != [] && a[0] == b[0] {
      BeforeAsymmetric(a[1..], b[1..]);
    }
  }

  /** Extending two strings by the same front keeps their order. */
  lemma {:induction false} BeforeCommonPrefix(p: string, a: string, b: string)
    requires Before(a, b)
    ensures Before(p + a, p + b)
    decreases |p|
  {
    if p != [] {
      BeforeCommonPrefix(p[1..], a, b);
      assert (p + a)[0] == p[0] == (p + b)[0];
      assert (p + a)[1..] == p[1..] + a && (p + b)[1..] == p[1..] + b;
    } else {
      assert p + a == a && p + b == b;
    }
  }

  /** `!Before(a, b)` reads "b <= a"; it is transitive. */
  lemma NotBeforeTransitive(a: string, b: string, c: string)
    requires !Before(a, b) && !Before(b, c)
    ensures !Before(a, c)
  {
    if Before(a, c) {
      BeforeTotal(a, b);
      BeforeTotal(b, c);
      if a == b {
      } else if b == c {
      } else {
        BeforeTransitive(c, b, a);
        BeforeAsymmetric(c, a);
      }
    }
  }

  /** Python's `s[:n]`. */
  function Prefix<T>(s: seq<T>, n: nat): (r: seq<T>)
  {
    if |s| <= n then s else s[..n]
  }

  /** `[f(x) for x in s]`. */
  function MapSeq<A, B>(f: A -> B, s: seq<A>): (r: seq<B>)
    ensures |r| == |s|
    decreases |s|
  {
    if s == [] then [] else MapSeq(f, s[..|s| - 1]) + [f(s[|s| - 1])]
  }

  lemma MapSeqSnoc<A, B>(f: A -> B, s: seq<A>, i: nat)
    requires i < |s|
    ensures MapSeq(f, s[..i + 1]) == MapSeq(f, s[..i]) + [f(s[i])]
  {
    assert s[..i + 1][..i] == s[..i];
  }

  lemma {:induction false} MapSeqAt<A, B>(f: A -> B, s: seq<A>)
    ensures forall i :: 0 <= i < |s| ==> MapSeq(f, s)[i] == f(s[i])
    decreases |s|
  {
    if s != [] {
      MapSeqAt(f, s[..|s| - 1]);
    }
  }

  /** Puts `x` in front of the first element whose key is not greater than its own. */
  function Insert<T>(x: T, s: seq<T>, key: T -> string): (r: seq<T>)
    decreases |s|
  {
    if s != [] && Before(key(x), key(s[0])) then [s[0]] + Insert(x, s[1..], key) else [x] + s
  }

  /** The stable descending sort: `sorted(s, key=key, reverse=True)`. */
  function SortDesc<T>(s: seq<T>, key: T -> string): (r: seq<T>)
    decreases |s|
  {
    if s == [] then [] else Insert(s[0], SortDesc(s[1..], key), key)
  }

  /** Non-increasing by key. */
  ghost predicate SortedDesc<T>(s: seq<T>, key: T -> string) {
    forall i, j :: 0 <= i < j < |s| ==> !Before(key(s[i]), key(s[j]))
  }

  /** The elements of `s` whose key is `k`, in their order in `s`. */
  function WithKey<T>(s: seq<T>, key: T -> string, k: string): seq<T>
    decreases |s|
  {
    if s == [] then [] else (if key(s[0]) == k then [s[0]] else []) + WithKey(s[1..], key, k)
  }

  lemma {:induction false} InsertMultiset<T>(x: T, s: seq<T>, key: T -> string)
    ensures multiset(Insert(x, s, key)) == multiset(s) + multiset{x}
    decreases |s|
  {
    if s != [] && Before(key(x), key(s[0])) {
      InsertMultiset(x, s[1..], key);
      assert s == [s[0]] + s[1..];
    }
  }

  lemma {:induction false} InsertSorted<T>(x: T, s: seq<T>, key: T -> string)
    requires SortedDesc(s, key)
    ensures SortedDesc(Insert(x, s, key), key)
    decreases |s|
  {
    var r := Insert(x, s, key);
    if s != [] && Before(key(x), key(s[0])) {
      var t := Insert(x, s[1..], key);
      InsertSorted(x, s[1..], key);
      InsertMultiset(x, s[1..], key);
      forall j | 0 <= j < |t| ensures !Before(key(s[0]), key(t[j])) {
        assert t[j] in multiset(t);
        if t[j] == x {
          BeforeAsymmetric(key(x), key(s[0]));
        } else {
          assert t[j] in multiset(s[1..]);
          var m :| 0 <= m < |s[1..]| && s[1..][m] == t[j];
          assert s[1 + m] == t[j];
        }
      }
      assert r == [s[0]] + t;
    } else {
      forall j | 0 <= j < |s| ensures !Before(key(x), key(s[j])) {
        if j > 0 {
          NotBeforeTransitive(key(x), key(s[0]), key(s[j]));
        }
      }
    }
  }

  /** Inserted elements go before every element with the same key: insertion is stable. */
  lemma {:induction false} InsertWithKey<T>(x: T, s: seq<T>, key: T -> string, k: string)
    ensures WithKey(Insert(x, s, key), key, k)
         == (if key(x) == k then [x] else []) + WithKey(s, key, k)
    decreases |s|
  {
    if s != [] && Before(key(x), key(s[0])) {
      InsertWithKey(x, s[1..], key, k);
      var r := Insert(x, s, key);
      assert r[1..] == Insert(x, s[1..], key);
      if key(x) == k && key(s[0]) == k {
        BeforeIrreflexive(k);
      }
    } else {
      assert ([x] + s)[1..] == s;
    }
  }

  lemma {:induction false} SortDescMultiset<T>(s: seq<T>, key: T -> string)
    ensures multiset(SortDesc(s, key)) == multiset(s)
    decreases |s|
  {
    if s != [] {
      SortDescMultiset(s[1..], key);
      InsertMultiset(s[0], SortDesc(s[1..], key), key);
      assert s == [s[0]] + s[1..];
    }
  }

  lemma {:induction false} SortDescSorted<T>(s: seq<T>, key: T -> string)
    ensures SortedDesc(SortDesc(s, key), key)
    decreases |s|
  {
    if s != [] {
      SortDescSorted(s[1..], key);
      InsertSorted(s[0], SortDesc(s[1..], key), key);
    }
  }

  lemma {:induction false} SortDescStable<T>(s: seq<T>, key: T -> string, k: string)
    ensures WithKey(SortDesc(s, key), key, k) == WithKey(s, key, k)
    decreases |s|
  {
    if s != [] {
      SortDescStable(s[1..], key, k);
      InsertWithKey(s[0], SortDesc(s[1..], key), key, k);
    }
  }

  /** The sort orders by key, permutes, and keeps equal keys in their original order. */
  lemma SortDescProperties<T>(s: seq<T>, key: T -> string)
    ensures SortedDesc(SortDesc(s, key), key)
    ensures multiset(SortDesc(s, key)) == multiset(s)
    ensures forall k :: WithKey(SortDesc(s, key), key, k) == WithKey(s, key, k)
  {
    SortDescSorted(s, key);
    SortDescMultiset(s, key);
    forall k ensures WithKey(SortDesc(s, key), key, k) == WithKey(s, key, k) {
      SortDescStable(s, key, k);
    }
  }

  lemma SortDescLength<T>(s: seq<T>, key: T -> string)
    ensures |SortDesc(s, key)| == |s|
  {
    SortDescProperties(s, key);
    assert |multiset(SortDesc(s, key))| == |multiset(s)|;
  }

  /**
   * The first `n` of the sorted sequence: min(n, |s|) elements, still sorted, the front of
   * the sorted order, drawn from `s`, and none newer than an element left out is missing.
   */
  lemma TopOfSorted<T>(s: seq<T>, key: T -> string, n: nat)
    ensures |SortDesc(s, key)| == |s|
    ensures |Prefix(SortDesc(s, key), n)| == if |s| < n then |s| else n
    ensures SortedDesc(Prefix(SortDesc(s, key), n), key)
    ensures Prefix(SortDesc(s, key), n) == SortDesc(s, key)[..|Prefix(SortDesc(s, key), n)|]
    ensures multiset(Prefix(SortDesc(s, key), n)) <= multiset(s)
    ensures forall i, j :: 0 <= i < |Prefix(SortDesc(s, key), n)| <= j < |s| ==>
      !Before(key(Prefix(SortDesc(s, key), n)[i]), key(SortDesc(s, key)[j]))
  {
    var sorted := SortDesc(s, key);
    SortDescLength(s, key);
    SortDescProperties(s, key);
    var top := Prefix(sorted, n);
    assert sorted == top + sorted[|top|..];
    assert multiset(sorted) == multiset(top) + multiset(sorted[|top|..]);
  }
}
