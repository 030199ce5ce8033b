/** Machine integers, byte strings, network byte order and bit fields.

    Go's fixed-width integers are integers with a range; every place where the
    program wraps or truncates is written out with `%`. */
module Bytes {

  type u8 = x: int | 0 <= x < 0x100
  type u16 = x: int | 0 <= x < 0x1_0000
  type u32 = x: int | 0 <= x < 0x1_0000_0000

  const TWO32: int := 0x1_0000_0000

  datatype Option<+T> = None | Some(value: T)

  datatype Result<+T, +E> = Ok(value: T) | Err(error: E)

  function Min(a: int, b: int): int {
    if a <= b then a else b
  }

  function Max(a: int, b: int): int {
    if a >= b then a else b
  }

  // ---- Big-endian words --------------------------------------------------

  function Pow256(n: nat): (r: nat)
    ensures r > 0
  {
    if n == 0 then 1 else 0x100 * Pow256(n - 1)
  }

  /** The number that a big-endian byte string denotes. */
  function BigValue(b: seq<u8>): (r: nat)
    ensures r < Pow256(|b|)
    decreases |b|
  {
    if b == [] then 0
    else
      var low: int := b[|b| - 1];
      BigValue(b[..|b| - 1]) * 0x100 + low
  }

  /** The low n bytes of x, most significant first. */
  function BytesOf(x: nat, n: nat): (r: seq<u8>)
    ensures |r| == n
  {
    if n == 0 then [] else BytesOf(x / 0x100, n - 1) + [x % 0x100]
  }

  lemma {:induction false} BytesOfValue(x: nat, n: nat)
    requires x < Pow256(n)
    ensures BigValue(BytesOf(x, n)) == x
  {
    if n > 0 {
      BytesOfValue(x / 0x100, n - 1);
      assert BytesOf(x, n)[..n - 1] == BytesOf(x / 0x100, n - 1);
    }
  }

  /** A byte string is determined by its length and the number it denotes. */
  lemma {:induction false} BigValueInjective(b: seq<u8>, c: seq<u8>)
    requires |b| == |c| && BigValue(b) == BigValue(c)
    ensures b == c
    decreases |b|
  {
    if b != [] {
      var n := |b| - 1;
      BigValueInjective(b[..n], c[..n]);
      assert b == b[..n] + [b[n]] && c == c[..n] + [c[n]];
    }
  }

  /** The n bytes that denote x. */
  ghost function BigEndian(x: nat, n: nat): (r: seq<u8>)
    requires x < Pow256(n)
    ensures |r| == n && BigValue(r) == x
  {
    BytesOfValue(x, n);
    var r: seq<u8> :| |r| == n && BigValue(r) == x;
    r
  }

  lemma WordSizes()
    ensures Pow256(2) == 0x1_0000 && Pow256(4) == TWO32
  {
    assert Pow256(3) == 0x100 * Pow256(2);
  }

  ghost function U16Bytes(x: u16): (r: seq<u8>)
    ensures |r| == 2
  {
    WordSizes();
    BigEndian(x, 2)
  }

  ghost function U32Bytes(x: u32): (r: seq<u8>)
    ensures |r| == 4
  {
    WordSizes();
    BigEndian(x, 4)
  }

  lemma U32BytesOf(x: u32)
    ensures BytesOf(x, 4) == U32Bytes(x)
  {
    WordSizes();
    BytesOfValue(x, 4);
    BigValueInjective(BytesOf(x, 4), U32Bytes(x));
  }

  lemma U16BytesOf(x: u16)
    ensures BytesOf(x, 2) == U16Bytes(x)
  {
  }

  /** The 16-bit word at offset i. */
  function U16At(b: seq<u8>, i: nat): u16
    requires i + 2 <= |b|
  {
    WordSizes();
    BigValue(b[i..i + 2])
  }

  /** The 32-bit word at offset i. */
  function U32At(b: seq<u8>, i: nat): u32
    requires i + 4 <= |b|
  {
    WordSizes();
    BigValue(b[i..i + 4])
  }

  lemma U32WriteBack(b: seq<u8>, i: nat)
    requires i + 4 <= |b|
    ensures U32Bytes(U32At(b, i)) == b[i..i + 4]
  {
    BigValueInjective(U32Bytes(U32At(b, i)), b[i..i + 4]);
  }

  /** The remainder modulo 2^32, from a quotient at hand. */
  lemma ModOf(x: int, k: int, r: int)
    requires 0 <= r < TWO32 && x == k * TWO32 + r
    ensures x % TWO32 == r
  {
  }

  // ---- Bit fields --------------------------------------------------------

  function Pow2(n: nat): (r: nat)
    ensures r > 0
  {
    if n == 0 then 1 else 2 * Pow2(n - 1)
  }

  /** The number that a bit string denotes. */
  function BitsValue(bits: seq<bool>): (r: nat)
    ensures r < Pow2(|bits|)
    decreases |bits|
  {
    if bits == [] then 0
    else BitsValue(bits[..|bits| - 1]) * 2 + (if bits[|bits| - 1] then 1 else 0)
  }

  /** The low k bits of x, most significant first. */
  function BitsOf(x: nat, k: nat): (r: seq<bool>)
    ensures |r| == k
  {
    if k == 0 then [] else BitsOf(x / 2, k - 1) + [x % 2 == 1]
  }

  lemma {:induction false} BitsOfValue(x: nat, k: nat)
    requires x < Pow2(k)
    ensures BitsValue(BitsOf(x, k)) == x
  {
    if k > 0 {
      BitsOfValue(x / 2, k - 1);
      assert BitsOf(x, k)[..k - 1] == BitsOf(x / 2, k - 1);
    }
  }

  lemma {:induction false} BitsValueInjective(b: seq<bool>, c: seq<bool>)
    requires |b| == |c| && BitsValue(b) == BitsValue(c)
    ensures b == c
    decreases |b|
  {
    if b != [] {
      var n := |b| - 1;
      BitsValueInjective(b[..n], c[..n]);
      assert b == b[..n] + [b[n]] && c == c[..n] + [c[n]];
    }
  }

  /** The k bits that denote x. */
  ghost function Bits(x: nat, k: nat): (r: seq<bool>)
    requires x < Pow2(k)
    ensures |r| == k && BitsValue(r) == x
  {
    BitsOfValue(x, k);
    var r: seq<bool> :| |r| == k && BitsValue(r) == x;
    r
  }

  lemma SixBits()
    ensures Pow2(6) == 64
  {
    assert Pow2(2) == 4;
    assert Pow2(4) == 16;
  }

  // ---- Buffers -----------------------------------------------------------

  function Zeros(n: nat): (r: seq<u8>)
    ensures |r| == n && forall i :: 0 <= i < n ==> r[i] == 0
  {
    seq(n, _ => 0)
  }

  /** Go's `copy(dst[off:], src)`: as much of src as fits, the rest of dst untouched. */
  function CopyAt(dst: seq<u8>, off: nat, src: seq<u8>): (r: seq<u8>)
    requires off <= |dst|
    ensures |r| == |dst|
    ensures forall i :: 0 <= i < |dst| ==>
              r[i] == if off <= i < off + |src| then src[i - off] else dst[i]
  {
    var k := Min(|src|, |dst| - off);
    dst[..off] + src[..k] + dst[off + k..]
  }
}
