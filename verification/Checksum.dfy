/** The Internet checksum of RFC 1071. */
module Checksum {
  import opened Bytes

  const ALL_ONES: u16 := 0xFFFF

  /** The sum of the 16-bit words, an odd last byte counting as the high half of a word. */
  function WordSum(h: seq<u8>): nat
    decreases |h|
  {
    if h == [] then 0
    else if |h| == 1 then h[0] as int * 0x100
    else U16At(h, 0) + WordSum(h[2..])
  }

  /** Adding the carries back in until 16 bits suffice: the one's-complement sum. */
  function Fold(n: nat): (r: u16)
    decreases n
  {
    if n < 0x1_0000 then n else Fold(n % 0x1_0000 + n / 0x1_0000)
  }

  /** Folding keeps the number modulo 2^16-1, and turns nothing but zero into zero. */
  lemma {:induction false} FoldKeeps(n: nat) returns (k: nat)
    ensures n == Fold(n) + 0xFFFF * k
    ensures n > 0 ==> Fold(n) > 0
    decreases n
  {
    if n < 0x1_0000 {
      k := 0;
    } else {
      k := FoldKeeps(n % 0x1_0000 + n / 0x1_0000);
      k := k + n / 0x1_0000;
    }
  }

  lemma {:induction false} WordSumConcat(a: seq<u8>, n: nat, b: seq<u8>)
    requires |a| == 2 * n
    ensures WordSum(a + b) == WordSum(a) + WordSum(b)
    decreases n
  {
    if n == 0 {
      assert a + b == b;
    } else {
      WordSumConcat(a[2..], n - 1, b);
      assert (a + b)[0..2] == a[0..2] && (a + b)[2..] == a[2..] + b;
    }
  }

  lemma WordOf(x: u16)
    ensures WordSum(U16Bytes(x)) == x
  {
    var w := U16Bytes(x);
    assert w[2..] == [] && w[0..2] == w;
    assert WordSum(w) == U16At(w, 0) + WordSum(w[2..]);
  }

  /** A header whose checksum field holds the complement of the folded sum of the header
      with that field zero sums up to all ones, and its own checksum is then zero. */
  lemma ChecksumCompletes(pre: seq<u8>, n: nat, post: seq<u8>)
    requires |pre| == 2 * n
    ensures var c := ALL_ONES - Fold(WordSum(pre + U16Bytes(0) + post));
            Fold(WordSum(pre + U16Bytes(c) + post)) == ALL_ONES
  {
    var s := WordSum(pre) + WordSum(post);
    FieldSum(pre, n, 0, post);
    var k := FoldKeeps(s);
    var c: u16 := ALL_ONES - Fold(s);
    FieldSum(pre, n, c, post);
    var m := FoldKeeps(s + c);
    AllOnes(Fold(s + c), 1 + k - m);
  }

  lemma FieldSum(pre: seq<u8>, n: nat, x: u16, post: seq<u8>)
    requires |pre| == 2 * n
    ensures WordSum(pre + U16Bytes(x) + post) == WordSum(pre) + x + WordSum(post)
  {
    WordSumConcat(pre + U16Bytes(x), n + 1, post);
    WordSumConcat(pre, n, U16Bytes(x));
    WordOf(x);
  }

  lemma AllOnes(f: u16, m: int)
    requires f > 0 && f == 0xFFFF * m
    ensures f == ALL_ONES
  {
    assert m == 1;
  }

  /** An odd last byte counts as if a zero followed it, as RFC 1071 has it. */
  lemma {:induction false} OddIsPadded(h: seq<u8>, n: nat)
    requires |h| == 2 * n + 1
    ensures WordSum(h) == WordSum(h + [0])
    decreases n
  {
    if n == 0 {
      var p := h + [0];
      assert p[2..] == [] && p[0..2] == p && p[..1] == h;
      assert WordSum(p) == U16At(p, 0) + WordSum(p[2..]);
      assert BigValue(p) == BigValue(p[..1]) * 0x100 + 0;
    } else {
      OddIsPadded(h[2..], n - 1);
      assert (h + [0])[2..] == h[2..] + [0] && (h + [0])[0..2] == h[0..2];
    }
  }

  lemma {:induction false} WordSumBound(h: seq<u8>)
    ensures WordSum(h) <= 0x8000 * (|h| + 1)
    decreases |h|
  {
    if |h| >= 2 {
      WordSumBound(h[2..]);
    }
  }

  method SumWords(hdr: seq<u8>) returns (sum: nat)
    ensures sum == Low32(WordSum(hdr))
  {
    sum := 0;
    var i := 0;
    ghost var exact: nat := 0;
    assert hdr[0..] == hdr;
    while i < |hdr| - 1
      invariant 0 <= i <= |hdr| && i % 2 == 0
      invariant exact + WordSum(hdr[i..]) == WordSum(hdr) && sum == Low32(exact)
    {
      NextWord(hdr, i);
      sum := Accumulate(sum, U16At(hdr, i), exact);
      exact := exact + U16At(hdr, i);
      i := i + 2;
    }
    if |hdr| % 2 != 0 {
      sum := Accumulate(sum, hdr[|hdr| - 1] as int * 0x100, exact);
    }
  }

  method FoldCarries(n: nat) returns (sum: u16)
    ensures sum == Fold(n)
  {
    var acc := n;
    while acc / 0x1_0000 != 0
      invariant 0 <= acc && Fold(acc) == Fold(n)
      decreases acc
    {
      acc := acc % 0x1_0000 + acc / 0x1_0000;
    }
    sum := acc;
  }

  /** ipv4HeaderChecksum: a 32-bit accumulator, then the folding loop, which ends. */
  method HeaderChecksum(hdr: seq<u8>) returns (c: u16)
    ensures c == ALL_ONES - Fold(Low32(WordSum(hdr)))
    ensures |hdr| <= 0x1_0000 ==> c == ALL_ONES - Fold(WordSum(hdr))
  {
    var sum := SumWords(hdr);
    if |hdr| <= 0x1_0000 {
      WordSumBound(hdr);
      Fits32(WordSum(hdr));
    }
    sum := FoldCarries(sum);
    c := ALL_ONES - sum;
  }

  lemma NextWord(hdr: seq<u8>, i: nat)
    requires i + 2 <= |hdr|
    ensures WordSum(hdr[i..]) == U16At(hdr, i) + WordSum(hdr[i + 2..])
  {
    var h := hdr[i..];
    assert h[0..2] == hdr[i..i + 2] && h[2..] == hdr[i + 2..];
  }

  /** What remains of a sum in 32 bits. */
  function Low32(x: nat): nat {
    x % TWO32
  }

  /** Addition in 32 bits. */
  function Accumulate(sum: nat, word: nat, ghost exact: nat): (r: nat)
    requires sum == Low32(exact)
    ensures r == Low32(exact + word)
  {
    LowSum(exact, word);
    Low32(sum + word)
  }

  lemma LowSum(exact: nat, word: nat)
    ensures Low32(Low32(exact) + word) == Low32(exact + word)
  {
    var q, s := exact / TWO32, Low32(exact);
    var p, r := (s + word) / TWO32, Low32(s + word);
    ModOf(exact + word, q + p, r);
  }

  lemma Fits32(x: nat)
    requires x < TWO32
    ensures Low32(x) == x
  {
  }
}
