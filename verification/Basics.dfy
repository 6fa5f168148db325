/** Values shared by every other module. */
module Basics {

  datatype Option<+T> = None | Some(value: T)

  type Byte = x: int | 0 <= x < 256
  type Bytes = seq<Byte>

  /** One capture sequence number bound to one session generation. */
  datatype Epoch = Epoch(captureSeq: nat, generation: nat)

  /** The weights of all values of a map, summed. */
  ghost function Sum<K, V>(m: map<K, V>, w: V -> nat): nat {
    if m == map[] then 0
    else
      var k :| k in m;
      w(m[k]) + Sum(m - {k}, w)
  }

  /** Any key may be summed first. */
  lemma {:induction false} SumRemove<K, V>(m: map<K, V>, w: V -> nat, k: K)
    requires k in m
    ensures Sum(m, w) == w(m[k]) + Sum(m - {k}, w)
    decreases |m|
  {
    var j :| j in m && Sum(m, w) == w(m[j]) + Sum(m - {j}, w);
    if j != k {
      SumRemove(m - {j}, w, k);
      SumRemove(m - {k}, w, j);
      assert m - {j} - {k} == m - {k} - {j};
    }
  }

  lemma SumAdd<K, V>(m: map<K, V>, w: V -> nat, k: K, v: V)
    requires k !in m
    ensures Sum(m[k := v], w) == Sum(m, w) + w(v)
  {
    SumRemove(m[k := v], w, k);
    assert m[k := v] - {k} == m;
  }

  const UINT64_MAX: nat := 0xFFFF_FFFF_FFFF_FFFF
}
