/** Bit strings, most significant bit first, and the numbers and bytes they stand for. */
module BitNumbers {
  import opened Common

  function Pow2(n: nat): (p: nat)
    ensures p >= 1
  {
    if n == 0 then 1 else 2 * Pow2(n - 1)
  }

  /** The low `w` bits of `v`. */
  function ToBits(v: nat, w: nat): (b: seq<bool>)
    ensures |b| == w
  {
    if w == 0 then [] else ToBits(v / 2, w - 1) + [v % 2 == 1]
  }

  function FromBits(b: seq<bool>): (v: nat)
    ensures v < Pow2(|b|)
  {
    if b == [] then 0
    else 2 * FromBits(b[..|b| - 1]) + if b[|b| - 1] then 1 else 0
  }

  /** The bits of a byte string. */
  function BitsOf(data: seq<byte>): (b: seq<bool>)
    ensures |b| == 8 * |data|
  {
    if data == [] then [] else ToBits(data[0], 8) + BitsOf(data[1..])
  }

  /** The unsigned big-endian number of a byte string. */
  function BigEndian(data: seq<byte>): nat {
    if data == [] then 0 else 256 * BigEndian(data[..|data| - 1]) + data[|data| - 1]
  }

  /** `v` in `n` big-endian bytes. */
  function ToBytes(v: nat, n: nat): (data: seq<byte>)
    ensures |data| == n
  {
    if n == 0 then [] else ToBytes(v / 256, n - 1) + [v % 256]
  }

  // ---------------------------------------------------------------- arithmetic

  lemma {:induction false} Pow2Sum(a: nat, b: nat)
    ensures Pow2(a + b) == Pow2(a) * Pow2(b)
  {
    if a > 0 {
      Pow2Sum(a - 1, b);
      var p, q := Pow2(a - 1), Pow2(b);
      assert Pow2(a + b) == 2 * (p * q) == (2 * p) * q;
    }
  }

  lemma MulAtLeast(k: nat, d: nat)
    requires k >= 1
    ensures k * d >= d
  {
    assert k * d == (k - 1) * d + d;
  }

  /** Division with remainder is unique. */
  lemma DivMod(d: nat, q: nat, r: nat)
    requires r < d
    ensures (q * d + r) / d == q && (q * d + r) % d == r
  {
    var n := q * d + r;
    var q', r' := n / d, n % d;
    assert n == d * q' + r';
    assert (q' - q) * d == r - r';
    if q' > q { MulAtLeast(q' - q, d); }
    if q' < q { MulAtLeast(q - q', d); }
  }

  /** The top bit of a number of `2 * p` values. */
  lemma TopBit(v: nat, p: nat)
    requires p >= 1 && v < 2 * p
    ensures v / p % 2 == 1 <==> v >= p
  {
    if v >= p { DivMod(p, 1, v - p); } else { DivMod(p, 0, v); }
  }

  lemma Horner(x: nat, p: nat, y: nat, bit: nat)
    ensures x * (2 * p) + (2 * y + bit) == 2 * (x * p + y) + bit
  {
  }

  lemma HalfThenDivide(v: nat, p: nat)
    requires p >= 1
    ensures v / 2 / p == v / (2 * p)
  {
    var q, r := v / 2 / p, v / 2 % p;
    assert v / 2 == q * p + r;
    assert v == q * (2 * p) + (2 * r + v % 2) by {
      assert v == 2 * (q * p + r) + v % 2;
      assert 2 * (q * p) == q * (2 * p);
    }
    DivMod(2 * p, q, 2 * r + v % 2);
  }

  // ---------------------------------------------------------------- slices of bits

  lemma DropDrop(bits: seq<bool>, a: nat, b: nat)
    requires a + b <= |bits|
    ensures bits[a..][b..] == bits[a + b..]
  {
  }

  lemma Behind(a: seq<bool>, b: seq<bool>)
    ensures (a + b)[|a|..] == b
  {
  }

  // ---------------------------------------------------------------- numbers and bits

  lemma {:induction false} FromToBits(v: nat, w: nat)
    requires v < Pow2(w)
    ensures FromBits(ToBits(v, w)) == v
  {
    if w > 0 {
      FromToBits(v / 2, w - 1);
      var b := ToBits(v, w);
      assert b[..|b| - 1] == ToBits(v / 2, w - 1);
    }
  }

  lemma {:induction false} ToFromBits(b: seq<bool>)
    ensures ToBits(FromBits(b), |b|) == b
    decreases |b|
  {
    if b != [] {
      ToFromBits(b[..|b| - 1]);
      assert b == b[..|b| - 1] + [b[|b| - 1]];
    }
  }

  lemma {:induction false} FromBitsConcat(a: seq<bool>, b: seq<bool>)
    ensures FromBits(a + b) == FromBits(a) * Pow2(|b|) + FromBits(b)
    decreases |b|
  {
    if b == [] {
      assert a + b == a;
    } else {
      var b', last := b[..|b| - 1], if b[|b| - 1] then 1 else 0;
      FromBitsConcat(a, b');
      assert FromBits(a + b) == 2 * FromBits(a + b') + last by {
        assert (a + b)[..|a + b| - 1] == a + b' && (a + b)[|a + b| - 1] == b[|b| - 1];
      }
      Horner(FromBits(a), Pow2(|b'|), FromBits(b'), last);
    }
  }

  lemma {:induction false} ToBitsAt(v: nat, w: nat, j: nat)
    requires j < w
    ensures ToBits(v, w)[j] == (v / Pow2(w - 1 - j) % 2 == 1)
  {
    if j < w - 1 {
      ToBitsAt(v / 2, w - 1, j);
      HalfThenDivide(v, Pow2(w - 2 - j));
    }
  }

  lemma {:induction false} ToBitsConcat(a: nat, b: nat, m: nat, n: nat)
    requires b < Pow2(n)
    ensures ToBits(a * Pow2(n) + b, m + n) == ToBits(a, m) + ToBits(b, n)
  {
    if n == 0 {
      assert ToBits(a, m) + [] == ToBits(a, m);
    } else {
      var v, p := a * Pow2(n) + b, Pow2(n - 1);
      assert v == 2 * (a * p + b / 2) + b % 2 by { assert a * (2 * p) == 2 * (a * p); }
      ToBitsConcat(a, b / 2, m, n - 1);
    }
  }

  lemma {:induction false} AllFalse(b: seq<bool>)
    requires forall i :: 0 <= i < |b| ==> !b[i]
    ensures FromBits(b) == 0
    decreases |b|
  {
    if b != [] { AllFalse(b[..|b| - 1]); }
  }

  // ---------------------------------------------------------------- bytes

  lemma {:induction false} BitsOfConcat(a: seq<byte>, b: seq<byte>)
    ensures BitsOf(a + b) == BitsOf(a) + BitsOf(b)
    decreases |a|
  {
    if a == [] {
      assert a + b == b;
    } else {
      BitsOfConcat(a[1..], b);
      assert (a + b)[1..] == a[1..] + b;
    }
  }

  lemma {:induction false} BitsOfAt(data: seq<byte>, k: nat)
    requires k < 8 * |data|
    ensures BitsOf(data)[k] == (data[k / 8] / Pow2(7 - k % 8) % 2 == 1)
    decreases |data|
  {
    hide ToBits, Pow2;
    if k < 8 {
      ToBitsAt(data[0], 8, k);
    } else {
      assert (k - 8) / 8 == k / 8 - 1 && (k - 8) % 8 == k % 8;
      BitsOfAt(data[1..], k - 8);
    }
  }

  lemma BitsOfByte(v: byte)
    ensures BitsOf([v]) == ToBits(v, 8)
  {
    assert [v][1..] == [];
    assert ToBits(v, 8) + [] == ToBits(v, 8);
  }

  lemma Pow2Of8()
    ensures Pow2(8) == 256
  {
    assert Pow2(4) == 16;
  }

  /** The bits of a byte string spell its big-endian number. */
  lemma {:induction false} BitsOfIsBigEndian(data: seq<byte>)
    ensures FromBits(BitsOf(data)) == BigEndian(data)
    decreases |data|
  {
    if data != [] {
      var init, last := data[..|data| - 1], data[|data| - 1];
      assert data == init + [last];
      BitsOfIsBigEndian(init);
      BitsOfConcat(init, [last]);
      BitsOfByte(last);
      Pow2Of8();
      FromToBits(last, 8);
      FromBitsConcat(BitsOf(init), ToBits(last, 8));
    }
  }

  /** Big-endian bytes carry the low bits of a number. */
  lemma {:induction false} BitsOfToBytes(v: nat, n: nat)
    ensures BitsOf(ToBytes(v, n)) == ToBits(v, 8 * n)
  {
    if n > 0 {
      BitsOfToBytes(v / 256, n - 1);
      BitsOfConcat(ToBytes(v / 256, n - 1), [v % 256]);
      BitsOfByte(v % 256);
      Pow2Of8();
      ToBitsConcat(v / 256, v % 256, 8 * (n - 1), 8);
    }
  }

  /** Whole bytes of bits. */
  function BytesOf(bits: seq<bool>): (data: seq<byte>)
    requires |bits| % 8 == 0
    ensures 8 * |data| == |bits|
  {
    if bits == [] then []
    else
      assert Pow2(8) == 256 by { Pow2Of8(); }
      [FromBits(bits[..8]) as byte] + BytesOf(bits[8..])
  }

  lemma {:induction false} BitsOfBytesOf(bits: seq<bool>)
    requires |bits| % 8 == 0
    ensures BitsOf(BytesOf(bits)) == bits
    decreases |bits|
  {
    if bits != [] {
      hide Pow2;
      BitsOfBytesOf(bits[8..]);
      ToFromBits(bits[..8]);
      assert BytesOf(bits)[1..] == BytesOf(bits[8..]);
      assert bits == bits[..8] + bits[8..];
    }
  }
}
