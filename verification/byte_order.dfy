/** The two byte swaps of lib/seen.c, on 64-bit patterns written as naturals
    below 2^64. */
module ByteOrder {
  const TWO_TO_32: nat := 0x1_0000_0000
  /** sizeof(int64_t) */
  const LINK_BYTES: nat := 8

  function Pow256(k: nat): (p: nat)
    ensures p > 0
  {
    if k == 0 then 1 else 256 * Pow256(k - 1)
  }

  /** The k low bytes of n, least significant first. */
  function Bytes(n: nat, k: nat): (b: seq<nat>)
    ensures |b| == k && forall i :: 0 <= i < k ==> b[i] < 256
  {
    if k == 0 then [] else [n % 256] + Bytes(n / 256, k - 1)
  }

  function Number(b: seq<nat>): nat
  {
    if b == [] then 0 else b[0] + 256 * Number(b[1..])
  }

  function Reverse(b: seq<nat>): (r: seq<nat>)
    ensures |r| == |b|
    ensures forall i :: 0 <= i < |b| ==> r[i] == b[|b| - 1 - i]
  {
    if b == [] then [] else Reverse(b[1..]) + [b[0]]
  }

  /** Move the k low bytes of n onto the low end of acc, lowest byte first. */
  function Swap(n: nat, k: nat, acc: nat): nat
  {
    if k == 0 then acc else Swap(n / 256, k - 1, 256 * acc + n % 256)
  }

  /** The bswap instruction: both helpers on amd64. */
  function FileOrder(n: nat): nat { Swap(n, LINK_BYTES, 0) }

  function NativeOrder(n: nat): nat { Swap(n, LINK_BYTES, 0) }

  /** The portable branch of both helpers: swap the two 32-bit halves, then the
      bytes of each (htonl and ntohl are the same swap). */
  function PortableOrder(n: nat): nat
  {
    TWO_TO_32 * Swap(n % TWO_TO_32, 4, 0) + Swap(n / TWO_TO_32, 4, 0)
  }

  // ----- proofs -----------------------------------------------------------------

  lemma {:induction false} NumberOfBytes(n: nat, k: nat)
    requires n < Pow256(k)
    ensures Number(Bytes(n, k)) == n
  {
    if k > 0 {
      NumberOfBytes(n / 256, k - 1);
      assert Bytes(n, k)[1..] == Bytes(n / 256, k - 1);
    }
  }

  lemma {:induction false} BytesOfNumber(b: seq<nat>)
    requires forall i :: 0 <= i < |b| ==> b[i] < 256
    ensures Bytes(Number(b), |b|) == b
    ensures Number(b) < Pow256(|b|)
  {
    if b != [] {
      BytesOfNumber(b[1..]);
      assert Number(b) % 256 == b[0] && Number(b) / 256 == Number(b[1..]);
    }
  }

  lemma NumberCons(d: nat, a: seq<nat>)
    ensures Number([d] + a) == d + 256 * Number(a)
  {
    assert ([d] + a)[1..] == a;
  }

  /** Swapping reverses the bytes. */
  lemma {:induction false} SwapReverses(n: nat, k: nat, a: seq<nat>)
    ensures Swap(n, k, Number(a)) == Number(Reverse(Bytes(n, k)) + a)
  {
    if k == 0 {
      assert Reverse(Bytes(n, k)) + a == a;
    } else {
      var d := n % 256;
      SwapReverses(n / 256, k - 1, [d] + a);
      NumberCons(d, a);
      ReverseBytesStep(n, k, a);
      hide Bytes, Reverse, Number;
    }
  }

  lemma ReverseBytesStep(n: nat, k: nat, a: seq<nat>)
    requires k > 0
    ensures Reverse(Bytes(n, k)) + a == Reverse(Bytes(n / 256, k - 1)) + ([n % 256] + a)
  {
    var d, rest := n % 256, Bytes(n / 256, k - 1);
    assert Bytes(n, k) == [d] + rest && ([d] + rest)[1..] == rest;
    assert Reverse([d] + rest) == Reverse(rest) + [d];
  }

  lemma SwapIsReverse(n: nat, k: nat)
    ensures Swap(n, k, 0) == Number(Reverse(Bytes(n, k)))
  {
    SwapReverses(n, k, []);
    assert Reverse(Bytes(n, k)) + [] == Reverse(Bytes(n, k));
  }

  lemma SwapTwice(n: nat, k: nat)
    requires n < Pow256(k)
    ensures Swap(Swap(n, k, 0), k, 0) == n
    ensures Swap(n, k, 0) < Pow256(k)
  {
    var b := Bytes(n, k);
    SwapIsReverse(n, k);
    BytesOfNumber(Reverse(b));
    SwapIsReverse(Number(Reverse(b)), k);
    assert Reverse(Reverse(b)) == b;
    NumberOfBytes(n, k);
  }

  lemma {:induction false} SwapZero(k: nat)
    ensures Swap(0, k, 0) == 0
  {
    if k > 0 {
      SwapZero(k - 1);
    }
  }

  /** A stored link survives the round trip through the file, and 0 is stored
      as 0, so it still means "no child". */
  lemma LinksSurviveSwap(n: nat)
    requires n < Pow256(LINK_BYTES)
    ensures NativeOrder(FileOrder(n)) == n
    ensures FileOrder(n) < Pow256(LINK_BYTES)
    ensures FileOrder(n) == 0 <==> n == 0
  {
    SwapTwice(n, LINK_BYTES);
    SwapZero(LINK_BYTES);
  }

  /** What is stored is the link's eight bytes, the most significant first. */
  lemma StoredBigEndian(n: nat)
    ensures Bytes(FileOrder(n), LINK_BYTES) == Reverse(Bytes(n, LINK_BYTES))
  {
    var b := Reverse(Bytes(n, LINK_BYTES));
    SwapIsReverse(n, LINK_BYTES);
    BytesOfNumber(b);
  }

  lemma {:induction false} NumberOfConcat(a: seq<nat>, b: seq<nat>)
    ensures Number(a + b) == Number(a) + Pow256(|a|) * Number(b)
  {
    if a == [] {
      assert a + b == b;
    } else {
      NumberOfConcat(a[1..], b);
      assert (a + b)[1..] == a[1..] + b;
      calc {
        256 * Pow256(|a| - 1) * Number(b);
        256 * (Pow256(|a| - 1) * Number(b));
      }
    }
  }

  lemma PowStep(k: nat, h: nat)
    requires k > 0
    ensures Pow256(k) * h == 256 * (Pow256(k - 1) * h)
  {
  }

  lemma LowByte(m: nat, z: nat)
    ensures (m + 256 * z) % 256 == m % 256 && (m + 256 * z) / 256 == m / 256 + z
  {
  }

  /** The k low bytes do not depend on what lies above them. */
  lemma {:induction false} HighBytesIgnored(m: nat, h: nat, k: nat)
    ensures Bytes(m + Pow256(k) * h, k) == Bytes(m, k)
  {
    if k > 0 {
      var z := Pow256(k - 1) * h;
      PowStep(k, h);
      LowByte(m, z);
      HighBytesIgnored(m / 256, h, k - 1);
      hide Pow256;
    }
  }

  lemma LowWord(n: nat)
    ensures Bytes(n % TWO_TO_32, 4) == Bytes(n, 4)
  {
    assert Pow256(4) == TWO_TO_32;
    HighBytesIgnored(n % TWO_TO_32, n / TWO_TO_32, 4);
  }

  lemma HighWord(n: nat)
    ensures Shift(n, 4) == n / TWO_TO_32
  {
    assert Shift(n, 4) == Shift(n / 256, 3) == Shift(n / 256 / 256, 2) == Shift(n / 256 / 256 / 256, 1);
  }

  lemma {:induction false} BytesSplit(n: nat, j: nat, k: nat)
    ensures Bytes(n, j + k) == Bytes(n, j) + Bytes(Shift(n, j), k)
  {
    if j > 0 {
      BytesSplit(n / 256, j - 1, k);
    }
  }

  /** n shifted right by j bytes. */
  function Shift(n: nat, j: nat): nat
  {
    if j == 0 then n else Shift(n / 256, j - 1)
  }

  /** The assembler and the portable branch are the same function. */
  lemma PortableIsBswap(n: nat)
    requires n < Pow256(LINK_BYTES)
    ensures PortableOrder(n) == FileOrder(n)
  {
    LowWord(n);
    BytesSplit(n, 4, 4);
    HighWord(n);
    assert Pow256(4) == TWO_TO_32;
    SwapIsReverse(n, LINK_BYTES);
    SwapIsReverse(n % TWO_TO_32, 4);
    SwapIsReverse(n / TWO_TO_32, 4);
    SwapOfConcat(Bytes(n % TWO_TO_32, 4), Bytes(n / TWO_TO_32, 4));
  }

  lemma SwapOfConcat(a: seq<nat>, b: seq<nat>)
    ensures Number(Reverse(a + b)) == Pow256(|b|) * Number(Reverse(a)) + Number(Reverse(b))
  {
    ReverseOfConcat(a, b);
    NumberOfConcat(Reverse(b), Reverse(a));
  }

  lemma ReverseOfConcat(a: seq<nat>, b: seq<nat>)
    ensures Reverse(a + b) == Reverse(b) + Reverse(a)
  {
  }
}
