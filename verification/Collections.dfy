/** Lists that loops build: parts strung together, and dictionaries by their values in insertion order. */
module Collections {
  import opened Basics

  function AsList<T>(o: Option<T>): (list: seq<T>)
    ensures o.Some? ==> list == [o.value]
  {
    if o.None? then [] else [o.value]
  }

  function FirstOf<T>(s: seq<T>, n: nat): (r: seq<T>)
    ensures |r| <= n && |r| <= |s| && r == s[..|r|] && (|s| <= n ==> r == s) && (|s| > n ==> |r| == n)
  {
    if |s| <= n then s else s[..n]
  }

  /** What each element contributes, strung together. */
  function Collect<T, U>(s: seq<T>, part: T -> seq<U>): seq<U> {
    if s == [] then [] else Collect(s[..|s| - 1], part) + part(s[|s| - 1])
  }

  predicate Contributed<T, U(==)>(s: seq<T>, part: T -> seq<U>, y: U) {
    exists i :: 0 <= i < |s| && y in part(s[i])
  }

  /** Exactly the elements' contributions are collected. */
  lemma {:induction false} CollectHas<T, U>(s: seq<T>, part: T -> seq<U>, y: U)
    ensures y in Collect(s, part) <==> Contributed(s, part, y)
  {
    if s != [] {
      var k := |s| - 1;
      CollectHas(s[..k], part, y);
      if y in part(s[k]) {
        assert Contributed(s, part, y);
      }
      if Contributed(s[..k], part, y) {
        var i :| 0 <= i < k && y in part(s[..k][i]);
        assert y in part(s[i]);
      }
    }
  }

  /** Whatever is collected, some element contributed. */
  lemma Contributor<T, U>(s: seq<T>, part: T -> seq<U>, y: U) returns (x: T)
    requires y in Collect(s, part)
    ensures x in s && y in part(x)
  {
    CollectHas(s, part, y);
    var i :| 0 <= i < |s| && y in part(s[i]);
    x := s[i];
  }

  lemma CollectMember<T, U>(s: seq<T>, part: T -> seq<U>, x: T, y: U)
    requires x in s && y in part(x)
    ensures y in Collect(s, part)
  {
    var i :| 0 <= i < |s| && s[i] == x;
    CollectHas(s, part, y);
    assert y in part(s[i]);
  }

  /** One more element contributes behind what was already there. */
  lemma CollectNext<T, U>(before: seq<U>, s: seq<T>, i: nat, part: T -> seq<U>)
    requires i < |s|
    ensures before + Collect(s[..i + 1], part) == before + Collect(s[..i], part) + part(s[i])
  {
    assert s[..i + 1][..i] == s[..i];
  }

  /** The same with nothing before. */
  lemma CollectTurn<T, U>(s: seq<T>, i: nat, part: T -> seq<U>)
    requires i < |s|
    ensures Collect(s[..i + 1], part) == Collect(s[..i], part) + part(s[i])
  {
    assert s[..i + 1][..i] == s[..i];
  }

  lemma CollectEnds<T, U>(before: seq<U>, s: seq<T>, part: T -> seq<U>)
    ensures before + Collect(s[..0], part) == before && s[..|s|] == s && Collect<T, U>([], part) == []
  {
  }

  lemma CollectOne<T, U>(x: T, part: T -> seq<U>)
    ensures Collect([x], part) == part(x)
  {
    assert [x][..0] == [] && [] + part(x) == part(x);
  }

  lemma CollectTwo<T, U>(x: T, y: T, part: T -> seq<U>)
    ensures Collect([x, y], part) == part(x) + part(y)
  {
    assert [x, y][..1] == [x];
    CollectOne(x, part);
  }

  // ---------------------------------------------------------------- dictionaries

  /** Where a key is, or the length if it is not there. */
  function IndexOf<T, K(==)>(s: seq<T>, key: T -> K, k: K): (i: nat)
    ensures i <= |s| && (i < |s| ==> key(s[i]) == k)
    ensures i == |s| ==> forall j :: 0 <= j < |s| ==> key(s[j]) != k
  {
    if s == [] then 0
    else
      var n := |s| - 1;
      var before := IndexOf(s[..n], key, k);
      if before < n then before else if key(s[n]) == k then n else |s|
  }

  /** Enter an element, in the place of the one under its key, or else at the end. */
  function Put<T, K(==)>(s: seq<T>, x: T, key: T -> K): seq<T> {
    var i := IndexOf(s, key, key(x));
    if i < |s| then s[i := x] else s + [x]
  }

  /** The values of the dictionary that the elements build, one after the other. */
  function Latest<T, K(==)>(s: seq<T>, key: T -> K): seq<T> {
    if s == [] then [] else Put(Latest(s[..|s| - 1], key), s[|s| - 1], key)
  }

  predicate DistinctKeys<T, K(==)>(s: seq<T>, key: T -> K) {
    forall i, j :: 0 <= i < j < |s| ==> key(s[i]) != key(s[j])
  }

  predicate HasKey<T, K(==)>(s: seq<T>, key: T -> K, k: K) {
    exists i :: 0 <= i < |s| && key(s[i]) == k
  }

  lemma PutKeeps<T, K>(s: seq<T>, x: T, key: T -> K)
    requires DistinctKeys(s, key)
    ensures DistinctKeys(Put(s, x, key), key) && x in Put(s, x, key)
    ensures forall t :: t in Put(s, x, key) ==> t == x || t in s
    ensures forall t :: t in s && key(t) != key(x) ==> t in Put(s, x, key)
  {
    var i, r := IndexOf(s, key, key(x)), Put(s, x, key);
    assert r[i] == x;
    forall t | t in s && key(t) != key(x) ensures t in r {
      var j :| 0 <= j < |s| && s[j] == t;
      assert r[j] == t;
    }
  }

  /** The dictionary has one of the elements for each of their keys. */
  lemma {:induction false} LatestAre<T, K>(s: seq<T>, key: T -> K)
    ensures DistinctKeys(Latest(s, key), key)
    ensures forall t :: t in Latest(s, key) ==> t in s
    ensures forall t :: t in s ==> HasKey(Latest(s, key), key, key(t))
  {
    if s != [] {
      var init, last := s[..|s| - 1], s[|s| - 1];
      var before, after := Latest(init, key), Latest(s, key);
      LatestAre(init, key);
      PutKeeps(before, last, key);
      assert s == init + [last];
      forall t | t in s ensures HasKey(after, key, key(t)) {
        if key(t) == key(last) {
          assert last in after;
        } else {
          assert t in init;
          var i :| 0 <= i < |before| && key(before[i]) == key(t);
          assert before[i] in after;
        }
      }
    }
  }

  lemma LatestExtends<T, K>(s: seq<T>, x: T, key: T -> K)
    ensures Latest(s + [x], key) == Put(Latest(s, key), x, key)
  {
    assert (s + [x])[..|s|] == s;
  }

  lemma TwoKeys<T, K>(x: T, y: T, key: T -> K)
    requires key(x) != key(y)
    ensures Latest([x, y], key) == [x, y]
  {
    assert [x][..0] == [] && [x, y][..1] == [x];
    assert Latest([x], key) == [] + [x];
    assert IndexOf([x], key, key(y)) == 1;
    assert Latest([x, y], key) == [x] + [y];
  }
}
