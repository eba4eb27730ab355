/** Small value types shared by every component of the model. */
module Wrappers {

  datatype Option<+T> = None | Some(value: T)

  /** Raw bytes: blob contents, encoded Fuel blocks, signatures. */
  newtype byte = x: int | 0 <= x < 256
  type Bytes = seq<byte>

  /** The source's `u32`: Fuel block heights, bundle ids and blob indices. */
  const U32_MAX: nat := 0xFFFF_FFFF
  type u32 = x: nat | x <= U32_MAX

  function Min(a: int, b: int): int { if a <= b then a else b }

  function Max(a: int, b: int): int { if a <= b then b else a }

  /** `u32::saturating_add`. */
  function SaturatingAdd(a: u32, b: u32): (r: u32)
    ensures r as int == a + b || (r == U32_MAX && a + b > U32_MAX)
  {
    if a + b <= U32_MAX then a + b else U32_MAX
  }

  /** `u32::saturating_sub`. */
  function SaturatingSub(a: u32, b: u32): (r: u32)
    ensures r as int == a - b || (r == 0 && a < b)
  {
    if b <= a then a - b else 0
  }

  /** The first key of the ordered map is `k`. */
  predicate FirstKeyIs<V>(m: map<nat, V>, k: nat) {
    k in m && forall j | j in m :: k <= j
  }

  function Without<K, V>(m: map<K, V>, k: K): (r: map<K, V>)
    requires k in m
    ensures r.Keys == m.Keys - {k}
    ensures |r| == |m| - 1
    ensures forall j | j in r :: r[j] == m[j]
  {
    var r := m - {k};
    assert r.Keys == m.Keys - {k};
    r
  }
}
