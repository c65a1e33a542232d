/** CRC-16/XMODEM as a shift register over bits: polynomial 0x1021, initial value 0
    (crc16_xmodem in tools/firmware_service.py). */
module Crc {
  import opened Common
  import opened BitNumbers

  /** Sixteen bits, most significant first. */
  type Register = c: seq<bool> | |c| == 16 witness seq(16, _ => false)

  function Zeros(n: nat): (z: seq<bool>)
    ensures |z| == n && forall i :: 0 <= i < n ==> !z[i]
  {
    seq(n, _ => false)
  }

  /** Bit `i` of 0x1021. */
  predicate Tap(i: nat) {
    i == 3 || i == 10 || i == 15
  }

  /** Absorbs one bit: shift left, and reduce by the polynomial if the bit shifted out differs
      from it. */
  function Step(c: Register, b: bool): Register {
    var out := c[0] != b;
    seq(16, i requires 0 <= i < 16 => (i < 15 && c[i + 1]) != (out && Tap(i)))
  }

  function Feed(c: Register, bits: seq<bool>): Register
    decreases |bits|
  {
    if bits == [] then c else Feed(Step(c, bits[0]), bits[1..])
  }

  function CrcRegister(data: seq<byte>): Register {
    Feed(Zeros(16), BitsOf(data))
  }

  lemma Pow2Of16()
    ensures Pow2(16) == 0x10000
  {
    Pow2Of8();
    Pow2Sum(8, 8);
  }

  function Crc16(data: seq<byte>): (c: nat)
    ensures c < 0x10000
  {
    Pow2Of16();
    FromBits(CrcRegister(data))
  }

  // ---------------------------------------------------------------- the register

  lemma {:induction false} FeedConcat(c: Register, a: seq<bool>, b: seq<bool>)
    ensures Feed(c, a + b) == Feed(Feed(c, a), b)
    decreases |a|
  {
    hide Step;
    if a == [] {
      assert a + b == b;
    } else {
      FeedConcat(Step(c, a[0]), a[1..], b);
      assert (a + b)[1..] == a[1..] + b;
    }
  }

  /** A step ends in a register whose last bit is clear only if it did not reduce. */
  lemma StepPlain(c: Register, b: bool, next: seq<bool>)
    requires |next| == 15
    ensures Step(c, b) == next + [false] <==> c == [b] + next
  {
    var s, t := Step(c, b), next + [false];
    if s == t {
      assert s[15] == t[15];
      assert c[0] == b;
      forall i | 0 <= i < 15 ensures c[i + 1] == next[i] { assert s[i] == t[i]; }
    }
  }

  /** Up to sixteen bits empty the register exactly when they are its first bits and the rest of
      it is clear. */
  lemma {:induction false} Emptied(c: Register, bits: seq<bool>)
    requires |bits| <= 16
    ensures Feed(c, bits) == Zeros(16) <==> c == bits + Zeros(16 - |bits|)
    decreases |bits|
  {
    if bits == [] {
      assert [] + Zeros(16) == Zeros(16);
    } else {
      var b, rest := bits[0], bits[1..];
      Emptied(Step(c, b), rest);
      hide Step, Feed;
      var z := Zeros(16 - |bits|);
      assert rest + Zeros(16 - |rest|) == (rest + z) + [false];
      StepPlain(c, b, rest + z);
      assert [b] + (rest + z) == bits + z;
    }
  }

  // ---------------------------------------------------------------- the check

  lemma ZeroNumber(c: Register)
    ensures FromBits(c) == 0 <==> c == Zeros(16)
  {
    ToFromBits(c);
    ToFromBits(Zeros(16));
    AllFalse(Zeros(16));
  }

  lemma {:induction false} BitsOfInjective(a: seq<byte>, b: seq<byte>)
    requires |a| == |b| && BitsOf(a) == BitsOf(b)
    ensures a == b
    decreases |a|
  {
    if a != [] {
      var s, t := BitsOf(a), BitsOf(b);
      assert s[..8] == ToBits(a[0], 8) && t[..8] == ToBits(b[0], 8);
      assert s[8..] == BitsOf(a[1..]) && t[8..] == BitsOf(b[1..]);
      Pow2Of8();
      FromToBits(a[0], 8);
      FromToBits(b[0], 8);
      BitsOfInjective(a[1..], b[1..]);
    }
  }

  /** The receiver's check: data and two bytes leave the register empty if and only if the two
      bytes are the big-endian CRC of the data, for data of any length. */
  lemma ResidueIffCrc(data: seq<byte>, tail: seq<byte>)
    requires |tail| == 2
    ensures Crc16(data + tail) == 0 <==> tail == ToBytes(Crc16(data), 2)
  {
    var c, t := CrcRegister(data), BitsOf(tail);
    BitsOfConcat(data, tail);
    FeedConcat(Zeros(16), BitsOf(data), t);
    Emptied(c, t);
    assert t + Zeros(0) == t;
    ZeroNumber(CrcRegister(data + tail));
    BitsOfToBytes(Crc16(data), 2);
    ToFromBits(c);
    hide Feed, BitsOf, ToBytes, FromBits, ToBits;
    if t == c { BitsOfInjective(tail, ToBytes(Crc16(data), 2)); }
  }

  /** A CRC that is off by one, with wrap-around, never verifies. */
  lemma OffByOneNeverVerifies(data: seq<byte>)
    ensures Crc16(data + ToBytes((Crc16(data) + 1) % 0x10000, 2)) != 0
  {
    var c := Crc16(data);
    var wrong := (c + 1) % 0x10000;
    ResidueIffCrc(data, ToBytes(wrong, 2));
    Pow2Of16();
    BitsOfToBytes(c, 2);
    BitsOfToBytes(wrong, 2);
    FromToBits(c, 16);
    FromToBits(wrong, 16);
  }

  // ---------------------------------------------------------------- error bursts

  function Xor(a: seq<bool>, b: seq<bool>): (x: seq<bool>)
    requires |a| == |b|
    ensures |x| == |a|
  {
    seq(|a|, i requires 0 <= i < |a| => a[i] != b[i])
  }

  lemma StepLinear(c: Register, d: Register, a: bool, b: bool)
    ensures Xor(Step(c, a), Step(d, b)) == Step(Xor(c, d), a != b)
  {
  }

  lemma {:induction false} FeedLinear(c: Register, d: Register, a: seq<bool>, b: seq<bool>)
    requires |a| == |b|
    ensures Xor(Feed(c, a), Feed(d, b)) == Feed(Xor(c, d), Xor(a, b))
    decreases |a|
  {
    if a != [] {
      StepLinear(c, d, a[0], b[0]);
      FeedLinear(Step(c, a[0]), Step(d, b[0]), a[1..], b[1..]);
      assert Xor(a, b)[1..] == Xor(a[1..], b[1..]);
    }
  }

  lemma StepInjective(c: Register, d: Register, b: bool)
    requires Step(c, b) == Step(d, b)
    ensures c == d
  {
    var s, t := Step(c, b), Step(d, b);
    assert s[15] == t[15];
    assert c[0] == d[0];
    forall i | 1 <= i < 16 ensures c[i] == d[i] { assert s[i - 1] == t[i - 1]; }
  }

  lemma {:induction false} FeedInjective(c: Register, d: Register, bits: seq<bool>)
    requires Feed(c, bits) == Feed(d, bits)
    ensures c == d
    decreases |bits|
  {
    if bits != [] {
      FeedInjective(Step(c, bits[0]), Step(d, bits[0]), bits[1..]);
      StepInjective(c, d, bits[0]);
    }
  }

  lemma {:induction false} SameWindow(c: Register, x: seq<bool>, y: seq<bool>)
    requires |x| == |y| <= 16 && Feed(c, x) == Feed(c, y)
    ensures x == y
  {
    FeedLinear(c, c, x, y);
    hide Feed, Step;
    assert Xor(c, c) == Zeros(16);
    assert Xor(Feed(c, x), Feed(c, y)) == Zeros(16);
    var e := Xor(x, y);
    Emptied(Zeros(16), e);
    forall i | 0 <= i < |x| ensures x[i] == y[i] { assert (e + Zeros(16 - |e|))[i] == e[i]; }
  }

  /** Two bit strings that differ only inside a window of sixteen bits have different CRCs. */
  lemma BurstDetected(before: seq<bool>, x: seq<bool>, y: seq<bool>, after: seq<bool>)
    requires |x| == |y| <= 16
    ensures Feed(Zeros(16), before + x + after) == Feed(Zeros(16), before + y + after) <==> x == y
  {
    hide *;
    var c := Feed(Zeros(16), before);
    FeedConcat(Zeros(16), before, x);
    FeedConcat(Zeros(16), before, y);
    FeedConcat(Zeros(16), before + x, after);
    FeedConcat(Zeros(16), before + y, after);
    if Feed(Zeros(16), before + x + after) == Feed(Zeros(16), before + y + after) {
      FeedInjective(Feed(c, x), Feed(c, y), after);
      SameWindow(c, x, y);
    }
  }

  // ---------------------------------------------------------------- the polynomial

  /** Schoolbook division of polynomials over two elements: while the dividend is longer than the
      remainder, subtract the generator from its front if it starts with one, and drop the front. */
  function Remainder(dividend: seq<bool>): (r: seq<bool>)
    requires |dividend| >= 16
    ensures |r| == 16
    decreases |dividend|
  {
    if |dividend| == 16 then dividend
    else if dividend[0] then Remainder(Xor(dividend, ToBits(0x11021, 17) + Zeros(|dividend| - 17))[1..])
    else Remainder(dividend[1..])
  }

  lemma Powers()
    ensures Pow2(0) == 1 && Pow2(1) == 2 && Pow2(2) == 4 && Pow2(3) == 8 && Pow2(4) == 16 && Pow2(5) == 32
    ensures Pow2(6) == 64 && Pow2(7) == 128 && Pow2(8) == 256 && Pow2(9) == 512 && Pow2(10) == 1024
    ensures Pow2(11) == 2048 && Pow2(12) == 4096 && Pow2(13) == 8192 && Pow2(14) == 16384 && Pow2(15) == 32768
  {
    assert Pow2(4) == 16 && Pow2(8) == 256 && Pow2(12) == 4096;
  }

  lemma PolynomialQuotient(k: nat)
    requires k < 16
    ensures 0x1021 / Pow2(k) % 2 == 1 <==> k == 12 || k == 5 || k == 0
  {
    Powers();
    hide Pow2;
    if k < 4 {
      assert k == 0 || k == 1 || k == 2 || k == 3;
    } else if k < 8 {
      assert k == 4 || k == 5 || k == 6 || k == 7;
    } else if k < 12 {
      assert k == 8 || k == 9 || k == 10 || k == 11;
    } else {
      assert k == 12 || k == 13 || k == 14 || k == 15;
    }
  }

  lemma PolynomialBit(v: nat, w: nat, i: nat)
    requires v == 0x1021 && w == 16 && i < 16
    ensures ToBits(v, w)[i] == Tap(i)
  {
    hide ToBits, Pow2;
    ToBitsAt(v, w, i);
    PolynomialQuotient(15 - i);
  }

  lemma GeneratorBits()
    ensures ToBits(0x11021, 17) == [true] + ToBits(0x1021, 16)
  {
    assert ToBits(1, 1) == [] + [true];
    Pow2Of16();
    hide ToBits, Pow2;
    ToBitsConcat(1, 0x1021, 1, 16);
  }

  lemma GeneratorTaps()
    ensures ToBits(0x11021, 17)[0]
    ensures forall i :: 0 <= i < 16 ==> ToBits(0x11021, 17)[i + 1] == Tap(i)
  {
    GeneratorBits();
    hide ToBits, Tap;
    forall i | 0 <= i < 16 ensures ToBits(0x11021, 17)[i + 1] == Tap(i) { PolynomialBit(0x1021, 16, i); }
  }

  /** The register and the bits still to come, as one dividend. */
  function Ahead(c: Register, bits: seq<bool>): seq<bool> {
    Xor(c + Zeros(|bits|), bits + Zeros(16))
  }

  lemma OneDivision(w: seq<bool>)
    requires |w| > 16
    ensures Remainder(w)
            == Remainder((if w[0] then Xor(w, ToBits(0x11021, 17) + Zeros(|w| - 17)) else w)[1..])
  {
  }

  lemma DivisionStep(c: Register, bits: seq<bool>)
    requires bits != []
    ensures Remainder(Ahead(c, bits)) == Remainder(Ahead(Step(c, bits[0]), bits[1..]))
  {
    GeneratorTaps();
    hide ToBits, Remainder;
    var w, g := Ahead(c, bits), ToBits(0x11021, 17) + Zeros(|bits| - 1);
    var next := (if w[0] then Xor(w, g) else w)[1..];
    var ahead := Ahead(Step(c, bits[0]), bits[1..]);
    assert |next| == |ahead|;
    forall i | 0 <= i < |next| ensures next[i] == ahead[i] {
      assert w[i + 1] == (((i < 15) && c[i + 1]) != (i + 1 < |bits| && bits[i + 1]));
    }
    assert next == ahead;
    OneDivision(w);
  }

  lemma {:induction false} FeedDivides(c: Register, bits: seq<bool>)
    ensures Feed(c, bits) == Remainder(Ahead(c, bits))
    decreases |bits|
  {
    if bits == [] {
      assert Ahead(c, bits) == c;
    } else {
      DivisionStep(c, bits);
      hide Step, Ahead, Remainder;
      FeedDivides(Step(c, bits[0]), bits[1..]);
    }
  }

  /** The CRC is what its definition says: the remainder of the message, followed by sixteen zeros,
      divided by the polynomial 0x11021. */
  lemma CrcIsRemainder(data: seq<byte>)
    ensures ToBits(Crc16(data), 16) == Remainder(BitsOf(data) + Zeros(16))
  {
    FeedDivides(Zeros(16), BitsOf(data));
    assert Ahead(Zeros(16), BitsOf(data)) == BitsOf(data) + Zeros(16);
    ToFromBits(CrcRegister(data));
  }

  lemma {:induction false} ZerosStay(n: nat)
    ensures Feed(Zeros(16), Zeros(n)) == Zeros(16)
  {
    if n > 0 {
      assert Step(Zeros(16), false) == Zeros(16) && Zeros(n)[1..] == Zeros(n - 1);
      ZerosStay(n - 1);
    }
  }

  /** The generator, among zeros, leaves the register empty. */
  lemma GeneratorVanishes(before: nat, after: nat)
    ensures Feed(Zeros(16), Zeros(before) + ToBits(0x11021, 17) + Zeros(after)) == Zeros(16)
  {
    var g := ToBits(0x11021, 17);
    GeneratorTaps();
    hide ToBits;
    assert Step(Zeros(16), true) == g[1..];
    hide Step;
    Emptied(g[1..], g[1..]);
    assert g[1..] + Zeros(0) == g[1..];
    assert Feed(Zeros(16), g) == Zeros(16);
    hide Feed;
    ZerosStay(before);
    ZerosStay(after);
    FeedConcat(Zeros(16), Zeros(before), g);
    FeedConcat(Zeros(16), Zeros(before) + g, Zeros(after));
  }

  /** Adding the generator anywhere leaves the register as it is. */
  lemma GeneratorIsInvisible(bits: seq<bool>, before: nat)
    requires before + 17 <= |bits|
    ensures var after := |bits| - before - 17;
            Feed(Zeros(16), Xor(bits, Zeros(before) + ToBits(0x11021, 17) + Zeros(after))) == Feed(Zeros(16), bits)
  {
    var after, g := |bits| - before - 17, ToBits(0x11021, 17);
    GeneratorVanishes(before, after);
    hide ToBits;
    FeedLinear(Zeros(16), Zeros(16), bits, Zeros(before) + g + Zeros(after));
    hide Feed;
    assert Xor(Zeros(16), Zeros(16)) == Zeros(16);
    assert Xor(Feed(Zeros(16), bits), Zeros(16)) == Feed(Zeros(16), bits);
  }

  lemma {:induction false} LeadingZeros(n: nat, w: seq<bool>)
    requires |w| >= 16
    ensures Remainder(Zeros(n) + w) == Remainder(w)
  {
    hide Remainder;
    if n == 0 {
      assert Zeros(0) + w == w;
    } else {
      OneDivision(Zeros(n) + w);
      assert (Zeros(n) + w)[1..] == Zeros(n - 1) + w;
      LeadingZeros(n - 1, w);
    }
  }

  lemma {:induction false} ZeroBits(w: nat)
    ensures ToBits(0, w) == Zeros(w)
  {
    if w > 0 { ZeroBits(w - 1); }
  }

  lemma {:induction false} BitsOfZeros(n: nat)
    ensures BitsOf(seq(n, _ => 0)) == Zeros(8 * n)
  {
    if n > 0 {
      var data: seq<byte> := seq(n, _ => 0);
      assert data[1..] == seq(n - 1, _ => 0);
      BitsOfZeros(n - 1);
      ZeroBits(8);
    }
  }

  lemma OneAlone()
    ensures Remainder([true] + Zeros(16)) == ToBits(0x1021, 16)
  {
    var w, g := [true] + Zeros(16), ToBits(0x11021, 17);
    GeneratorBits();
    hide ToBits;
    assert g[1..] == ToBits(0x1021, 16);
    OneDivision(w);
    assert Xor(w, g + Zeros(0))[1..] == g[1..];
  }

  lemma OneAtTheEnd(n: nat)
    ensures BitsOf(seq(n, _ => 0) + [0x01]) + Zeros(16) == Zeros(8 * n + 7) + ([true] + Zeros(16))
  {
    var data: seq<byte> := seq(n, _ => 0);
    BitsOfConcat(data, [0x01]);
    BitsOfZeros(n);
    BitsOfByte(0x01);
    ZeroBits(7);
    assert ToBits(0x01, 8) == ToBits(0, 7) + [true];
    hide ToBits, BitsOf;
  }

  lemma SameNumber(a: nat, b: nat, w: nat)
    requires a < Pow2(w) && b < Pow2(w) && ToBits(a, w) == ToBits(b, w)
    ensures a == b
  {
    FromToBits(a, w);
    FromToBits(b, w);
  }

  /** A single one at the end of any number of zero bytes gives the polynomial itself. */
  lemma CrcOfOne(n: nat)
    ensures Crc16(seq(n, _ => 0) + [0x01]) == 0x1021
  {
    var data: seq<byte> := seq(n, _ => 0) + [0x01];
    CrcIsRemainder(data);
    OneAtTheEnd(n);
    Pow2Of16();
    hide *;
    LeadingZeros(8 * n + 7, [true] + Zeros(16));
    OneAlone();
    SameNumber(Crc16(data), 0x1021, 16);
  }
}
