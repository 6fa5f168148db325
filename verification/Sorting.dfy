/** A stable sort by a key, and why it forgets the order it was given when keys are distinct. */
module Sorting {

  /** Keys compare lexicographically. */
  predicate LexLess(a: seq<real>, b: seq<real>) {
    a != [] && b != [] && (a[0] < b[0] || (a[0] == b[0] && LexLess(a[1..], b[1..])))
  }

  /** One key is less than another at the first place at which they differ. */
  predicate LessAt(a: seq<real>, b: seq<real>, k: int) {
    0 <= k < |a| && k < |b| && a[k] < b[k] && forall j :: 0 <= j < k ==> a[j] == b[j]
  }

  lemma {:induction false} LexLessIs(a: seq<real>, b: seq<real>)
    ensures LexLess(a, b) <==> exists k :: LessAt(a, b, k)
    decreases |a|
  {
    if a != [] && b != [] {
      if a[0] < b[0] {
        assert LessAt(a, b, 0);
      } else if a[0] == b[0] {
        LexLessIs(a[1..], b[1..]);
        if k :| LessAt(a[1..], b[1..], k) {
          assert LessAt(a, b, k + 1);
        }
        if k :| LessAt(a, b, k) {
          assert LessAt(a[1..], b[1..], k - 1);
        }
      }
    }
  }

  lemma {:induction false} LexTransitive(a: seq<real>, b: seq<real>, c: seq<real>)
    requires LexLess(a, b) && LexLess(b, c)
    ensures LexLess(a, c)
    decreases |a|
  {
    if a[0] == b[0] == c[0] {
      LexTransitive(a[1..], b[1..], c[1..]);
    }
  }

  lemma {:induction false} LexTotal(a: seq<real>, b: seq<real>)
    requires |a| == |b|
    ensures a == b || LexLess(a, b) || LexLess(b, a)
    ensures !(LexLess(a, b) && LexLess(b, a)) && !LexLess(a, a)
    decreases |a|
  {
    if a != [] {
      LexTotal(a[1..], b[1..]);
      if a[1..] == b[1..] && a[0] == b[0] {
        assert a == [a[0]] + a[1..] && b == [b[0]] + b[1..];
      }
    }
  }

  /** Put x behind everything that is not greater. */
  function Insert<T>(x: T, s: seq<T>, key: T -> seq<real>): seq<T> {
    if s != [] && LexLess(key(x), key(s[|s| - 1])) then Insert(x, s[..|s| - 1], key) + [s[|s| - 1]] else s + [x]
  }

  function Sort<T>(s: seq<T>, key: T -> seq<real>): seq<T> {
    if s == [] then [] else Insert(s[|s| - 1], Sort(s[..|s| - 1], key), key)
  }

  lemma {:induction false} InsertMultiset<T>(x: T, s: seq<T>, key: T -> seq<real>)
    ensures multiset(Insert(x, s, key)) == multiset(s) + multiset{x}
  {
    if s != [] && LexLess(key(x), key(s[|s| - 1])) {
      InsertMultiset(x, s[..|s| - 1], key);
      assert s == s[..|s| - 1] + [s[|s| - 1]];
    }
  }

  lemma {:induction false} SortMultiset<T>(s: seq<T>, key: T -> seq<real>)
    ensures multiset(Sort(s, key)) == multiset(s)
  {
    hide Insert, LexLess;
    if s != [] {
      var init, last := s[..|s| - 1], s[|s| - 1];
      assert s == init + [last];
      SortMultiset(init, key);
      InsertMultiset(last, Sort(init, key), key);
    }
  }

  predicate SortedBy<T>(s: seq<T>, key: T -> seq<real>) {
    forall i, j :: 0 <= i < j < |s| ==> !LexLess(key(s[j]), key(s[i]))
  }

  /** All keys have one length. */
  predicate Keyed<T>(s: seq<T>, key: T -> seq<real>, n: nat) {
    forall i :: 0 <= i < |s| ==> |key(s[i])| == n
  }

  lemma {:induction false} InsertSorted<T>(x: T, s: seq<T>, key: T -> seq<real>, n: nat)
    requires SortedBy(s, key) && Keyed(s, key, n) && |key(x)| == n
    ensures SortedBy(Insert(x, s, key), key)
  {
    if s != [] {
      var last := s[|s| - 1];
      var init := s[..|s| - 1];
      LexTotal(key(x), key(last));
      if LexLess(key(x), key(last)) {
        InsertSorted(x, init, key, n);
        InsertMultiset(x, init, key);
        var r := Insert(x, init, key);
        forall i | 0 <= i < |r| ensures !LexLess(key(last), key(r[i])) {
          assert r[i] in multiset(r);
          if r[i] != x {
            assert r[i] in init;
          }
        }
      } else {
        forall i | 0 <= i < |s| ensures !LexLess(key(x), key(s[i])) {
          LexTotal(key(last), key(last));
          NotLessTransitive(key(s[i]), key(last), key(x));
        }
      }
    }
  }

  /** "Not greater" is transitive. */
  lemma NotLessTransitive(a: seq<real>, b: seq<real>, c: seq<real>)
    requires |a| == |b| == |c| && !LexLess(b, a) && !LexLess(c, b)
    ensures !LexLess(c, a)
  {
    LexTotal(a, b);
    LexTotal(b, c);
    if LexLess(c, a) {
      if a != b { LexTransitive(c, a, b); }
    }
  }

  lemma {:induction false} SortSorts<T>(s: seq<T>, key: T -> seq<real>, n: nat)
    requires Keyed(s, key, n)
    ensures SortedBy(Sort(s, key), key) && Keyed(Sort(s, key), key, n)
  {
    if s != [] {
      SortSorts(s[..|s| - 1], key, n);
      InsertSorted(s[|s| - 1], Sort(s[..|s| - 1], key), key, n);
    }
    SortMultiset(s, key);
    forall i | 0 <= i < |Sort(s, key)| ensures |key(Sort(s, key)[i])| == n {
      assert Sort(s, key)[i] in multiset(Sort(s, key));
    }
  }

  /** Within s, equal keys mean equal elements. */
  predicate KeyIdentifies<T(==)>(s: seq<T>, key: T -> seq<real>) {
    forall i, j :: 0 <= i < |s| && 0 <= j < |s| && key(s[i]) == key(s[j]) ==> s[i] == s[j]
  }

  lemma LastEqual<T>(a: seq<T>, b: seq<T>, key: T -> seq<real>, n: nat)
    requires multiset(a) == multiset(b) && SortedBy(a, key) && SortedBy(b, key) && a != [] && |a| == |b|
    requires Keyed(a, key, n) && KeyIdentifies(a, key)
    ensures a[|a| - 1] == b[|b| - 1]
  {
    var k := |a| - 1;
    assert a[k] in multiset(b) && b[k] in multiset(a);
    var i :| 0 <= i < |b| && b[i] == a[k];
    var j :| 0 <= j < |a| && a[j] == b[k];
    LexTotal(key(a[k]), key(a[j]));
  }

  lemma {:induction false} SortedUnique<T>(a: seq<T>, b: seq<T>, key: T -> seq<real>, n: nat)
    requires multiset(a) == multiset(b) && SortedBy(a, key) && SortedBy(b, key)
    requires Keyed(a, key, n) && KeyIdentifies(a, key)
    ensures a == b
    decreases |a|
  {
    assert |a| == |multiset(a)| == |multiset(b)| == |b|;
    if a != [] {
      var k := |a| - 1;
      LastEqual(a, b, key, n);
      WithoutLast(a);
      WithoutLast(b);
      SortedUnique(a[..k], b[..k], key, n);
      assert a == a[..k] + [a[k]] && b == b[..k] + [b[k]];
    }
  }

  lemma WithoutLast<T>(a: seq<T>)
    requires a != []
    ensures multiset(a[..|a| - 1]) == multiset(a) - multiset{a[|a| - 1]}
  {
    assert a == a[..|a| - 1] + [a[|a| - 1]];
  }

  /** When keys identify elements, the sorted order depends on the elements only. */
  lemma SortIgnoresOrder<T>(a: seq<T>, b: seq<T>, key: T -> seq<real>, n: nat)
    requires multiset(a) == multiset(b) && Keyed(a, key, n) && KeyIdentifies(a, key)
    ensures Sort(a, key) == Sort(b, key)
  {
    forall i | 0 <= i < |b| ensures |key(b[i])| == n {
      assert b[i] in multiset(b);
      assert b[i] in a;
    }
    SortSorts(a, key, n);
    SortSorts(b, key, n);
    SortMultiset(a, key);
    SortMultiset(b, key);
    forall i, j | 0 <= i < |Sort(a, key)| && 0 <= j < |Sort(a, key)| && key(Sort(a, key)[i]) == key(Sort(a, key)[j])
      ensures Sort(a, key)[i] == Sort(a, key)[j]
    {
      assert Sort(a, key)[i] in multiset(a) && Sort(a, key)[j] in multiset(a);
      var x :| 0 <= x < |a| && a[x] == Sort(a, key)[i];
      var y :| 0 <= y < |a| && a[y] == Sort(a, key)[j];
    }
    SortedUnique(Sort(a, key), Sort(b, key), key, n);
  }

  /** What is sorted stays as it is. */
  lemma {:induction false} SortedAlready<T>(s: seq<T>, key: T -> seq<real>)
    requires forall i :: 0 < i < |s| ==> !LexLess(key(s[i]), key(s[i - 1]))
    ensures Sort(s, key) == s
  {
    hide LexLess;
    if s != [] {
      SortedAlready(s[..|s| - 1], key);
    }
  }
}
