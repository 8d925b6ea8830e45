/**
  Bytes, little-endian integers and in-place overwriting of byte buffers, as the disk formats
  and the ELF format of the kernel use them.
 */
module Bytes {

  type Byte = b: int | 0 <= b < 256

  datatype Option<+T> = None | Some(value: T)

  const U16: nat := 0x1_0000
  const U32: nat := 0x1_0000_0000
  const U64: nat := 0x1_0000_0000_0000_0000

  /** The number of values `k` bytes can hold. */
  function Pow256(k: nat): (p: nat)
    ensures p >= 1
  {
    if k == 0 then 1 else 256 * Pow256(k - 1)
  }

  /** `to_le_bytes` for a `k`-byte integer. */
  function LeBytes(v: nat, k: nat): (s: seq<Byte>)
    ensures |s| == k
    decreases k, v
  {
    if k == 0 then [] else [v % 256] + LeBytes(v / 256, k - 1)
  }

  /** The `k`-byte little-endian integer at offset `off`. */
  function LeAt(s: seq<Byte>, off: nat, k: nat): (v: nat)
    requires off + k <= |s|
    decreases k, |s|
  {
    if k == 0 then 0 else s[off] + 256 * LeAt(s, off + 1, k - 1)
  }

  /** Zero bytes read as zero. */
  lemma {:induction false} LeZero(s: seq<Byte>, off: nat, k: nat)
    requires off + k <= |s| && forall i :: off <= i < off + k ==> s[i] == 0
    ensures LeAt(s, off, k) == 0
    decreases k
  {
    if k > 0 { LeZero(s, off + 1, k - 1); }
  }

  /** A two-byte integer from its low and high byte. */
  function Word(lo: int, hi: int): (w: int) { lo + 256 * hi }

  /** Reading back a value that fits from where its bytes stand gives the value. */
  lemma {:induction false} LeRoundTrip(s: seq<Byte>, off: nat, v: nat, k: nat)
    requires v < Pow256(k) && off + k <= |s|
    requires forall j :: 0 <= j < k ==> s[off + j] == LeBytes(v, k)[j]
    ensures LeAt(s, off, k) == v
    decreases k
  {
    if k > 0 {
      var rest := LeBytes(v / 256, k - 1);
      assert s[off] == s[off + 0] == LeBytes(v, k)[0];
      forall j | 0 <= j < k - 1 ensures s[off + 1 + j] == rest[j] {
        assert s[off + (j + 1)] == LeBytes(v, k)[j + 1];
      }
      LeRoundTrip(s, off + 1, v / 256, k - 1);
    }
  }

  /** The value read depends on the bytes read only, and fits. */
  lemma {:induction false} LeLocal(s: seq<Byte>, off: nat, t: seq<Byte>, off': nat, k: nat)
    requires off + k <= |s| && off' + k <= |t|
    requires s[off..off + k] == t[off'..off' + k]
    ensures LeAt(s, off, k) == LeAt(t, off', k) < Pow256(k)
    decreases k
  {
    if k > 0 {
      assert s[off] == s[off..off + k][0] == t[off'];
      assert s[off + 1..off + k] == s[off..off + k][1..] == t[off' + 1..off' + k];
      LeLocal(s, off + 1, t, off' + 1, k - 1);
    }
  }

  lemma {:induction false} LeSame(s: seq<Byte>, t: seq<Byte>, off: nat, k: nat)
    requires off + k <= |s| && off + k <= |t| && forall p :: off <= p < off + k ==> s[p] == t[p]
    ensures LeAt(s, off, k) == LeAt(t, off, k)
    decreases k
  {
    if k > 0 { LeSame(s, t, off + 1, k - 1); }
  }

  lemma PowersOf256()
    ensures Pow256(1) == 256
    ensures Pow256(2) == U16
    ensures Pow256(4) == U32
    ensures Pow256(8) == U64
  {
    assert Pow256(2) == 256 * Pow256(1);
    assert Pow256(3) == 256 * Pow256(2);
    assert Pow256(4) == 256 * Pow256(3);
    assert Pow256(5) == 256 * Pow256(4);
    assert Pow256(6) == 256 * Pow256(5);
    assert Pow256(7) == 256 * Pow256(6);
  }

  lemma Le16RoundTrip(s: seq<Byte>, off: nat, v: nat)
    requires v < U16 && off + 2 <= |s| && forall j :: 0 <= j < 2 ==> s[off + j] == LeBytes(v, 2)[j]
    ensures LeAt(s, off, 2) == v
  {
    PowersOf256();
    LeRoundTrip(s, off, v, 2);
  }

  lemma Le32RoundTrip(s: seq<Byte>, off: nat, v: nat)
    requires v < U32 && off + 4 <= |s| && forall j :: 0 <= j < 4 ==> s[off + j] == LeBytes(v, 4)[j]
    ensures LeAt(s, off, 4) == v
  {
    PowersOf256();
    LeRoundTrip(s, off, v, 4);
  }

  lemma Le64RoundTrip(s: seq<Byte>, off: nat, v: nat)
    requires v < U64 && off + 8 <= |s| && forall j :: 0 <= j < 8 ==> s[off + j] == LeBytes(v, 8)[j]
    ensures LeAt(s, off, 8) == v
  {
    PowersOf256();
    LeRoundTrip(s, off, v, 8);
  }

  /** `buffer[off..off + t.len()].copy_from_slice(t)`. */
  function Splice<T>(s: seq<T>, off: nat, t: seq<T>): (r: seq<T>)
    requires off + |t| <= |s|
    ensures |r| == |s|
    ensures forall i :: 0 <= i < |s| ==> r[i] == if off <= i < off + |t| then t[i - off] else s[i]
  {
    seq(|s|, i requires 0 <= i < |s| => if off <= i < off + |t| then t[i - off] else s[i])
  }

  function Zeros(n: nat): (s: seq<Byte>)
    ensures |s| == n
    ensures forall i :: 0 <= i < n ==> s[i] == 0
  {
    seq(n, _ => 0)
  }

  function Min(a: int, b: int): (m: int) { if a < b then a else b }

  function Max(a: int, b: int): (m: int) { if a > b then a else b }

  /** `(a + b - 1) / b`, the number of blocks of size `b` that hold `a` bytes. */
  function CeilDiv(a: nat, b: nat): (q: nat)
    requires b > 0
    ensures q * b >= a
    ensures q > 0 ==> (q - 1) * b < a
  {
    var q := (a + b - 1) / b;
    assert a + b - 1 == q * b + (a + b - 1) % b;
    assert (q - 1) * b == q * b - b;
    q
  }

  lemma SmallRemainder(n: nat, m: nat)
    requires n < m
    ensures n % m == n
  {
  }

  lemma QuotientUnique(a: nat, b: nat, q: nat, m: nat)
    requires b > 0 && m < b && a == q * b + m
    ensures a / b == q && a % b == m
  {
    FactorNear(q - a / b, b, a % b - m);
  }

  lemma FactorNear(k: int, b: int, d: int)
    requires b > 0 && -b < d < b && k * b == d
    ensures k == 0
  {
  }

  lemma FactorLess(a: int, b: int, c: nat)
    requires a * c < b * c
    ensures a < b
  {
  }

  ghost predicate Distinct(s: seq<nat>) { forall i, j :: 0 <= i < j < |s| ==> s[i] != s[j] }
}
