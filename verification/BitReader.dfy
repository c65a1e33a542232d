/** The MSB-first bit cursor of the payload decoders (tools/packet_parser/messages.py). */
module BitReader {
  import opened Common
  import opened BitNumbers
  import opened Framing

  /** Bit `k` of the data: shift its byte right, keep the lowest bit. */
  function BitAt(data: seq<byte>, k: nat): nat
    requires k < 8 * |data|
  {
    data[k / 8] / Pow2(7 - k % 8) % 2
  }

  /** The bits from offset `k` on. */
  function From(data: seq<byte>, k: nat): seq<bool>
    requires k <= 8 * |data|
  {
    BitsOf(data)[k..]
  }

  /** What a read of `w` bits at offset `k` returns. */
  function Slice(data: seq<byte>, k: nat, w: nat): nat
    requires k + w <= 8 * |data|
  {
    FromBits(BitsOf(data)[k..k + w])
  }

  predicate InSignedRange(v: int, w: nat)
    requires w > 0
  {
    -(Pow2(w - 1) as int) <= v < Pow2(w - 1)
  }

  /** Two's complement of `v` in `w` bits. */
  function Wrapped(v: int, w: nat): (u: nat)
    requires w > 0 && InSignedRange(v, w)
    ensures u < Pow2(w)
  {
    assert Pow2(w) == 2 * Pow2(w - 1);
    if v < 0 then v + Pow2(w) else v
  }

  function SignedBits(v: int, w: nat): (b: seq<bool>)
    requires w > 0 && InSignedRange(v, w)
    ensures |b| == w
  {
    ToBits(Wrapped(v, w), w)
  }

  lemma NothingRead(data: seq<byte>, k: nat)
    requires k <= 8 * |data|
    ensures Slice(data, k, 0) == 0
  {
    assert BitsOf(data)[k..k] == [];
  }

  lemma OneMoreBit(data: seq<byte>, k: nat, i: nat)
    requires k + i < 8 * |data|
    ensures Slice(data, k, i + 1) == Slice(data, k, i) * 2 + BitAt(data, k + i)
  {
    hide BitsOf;
    BitsOfAt(data, k + i);
    var longer := BitsOf(data)[k..k + i + 1];
    assert longer[..i] == BitsOf(data)[k..k + i];
  }

  lemma ReadBits(data: seq<byte>, k: nat, w: nat)
    requires k + w <= 8 * |data|
    ensures Slice(data, k, w) < Pow2(w)
    ensures From(data, k) == ToBits(Slice(data, k, w), w) + From(data, k + w)
  {
    hide BitsOf, ToBits, FromBits, Pow2;
    var slice := BitsOf(data)[k..k + w];
    ToFromBits(slice);
    assert From(data, k) == slice + From(data, k + w);
  }

  lemma BitsOfFlag(b: bool)
    ensures ToBits(if b then 1 else 0, 1) == [b] && Pow2(1) == 2
  {
    assert ToBits(0, 0) == [] && Pow2(0) == 1;
  }

  class Bits {
    const data: seq<byte>
    var offset: nat

    ghost predicate Valid()
      reads this
    {
      offset <= 8 * |data|
    }

    /** The bits not read yet. */
    ghost function Rest(): seq<bool>
      reads this
      requires Valid()
    {
      From(data, offset)
    }

    constructor (payload: seq<byte>)
      ensures Valid() && data == payload && offset == 0 && Rest() == BitsOf(payload)
    {
      data, offset := payload, 0;
    }

    /** Reads `width` bits as one number, or refuses and stays where it is. */
    method Unsigned(width: int) returns (r: Result<nat, FrameError>)
      requires Valid()
      modifies this
      ensures Valid()
      ensures r.Success? <==> 0 < width <= 8 * |data| - old(offset)
      ensures r.Success? ==> offset == old(offset) + width && r.value < Pow2(width)
                             && r.value == Slice(data, old(offset), width)
                             && old(Rest()) == ToBits(r.value, width) + Rest()
      ensures r.Failure? ==> r.error == IncompleteFrame && offset == old(offset)
    {
      if width <= 0 || offset + width > |data| * 8 {
        return Failure(IncompleteFrame);
      }
      hide FromBits, BitsOf, ToBits, Pow2, BitAt, Slice;
      NothingRead(data, offset);
      var value := 0;
      var i := 0;
      while i < width
        invariant 0 <= i <= width && offset == old(offset) + i <= 8 * |data|
        invariant value == Slice(data, old(offset), i)
      {
        OneMoreBit(data, old(offset), i);
        value := value * 2 + BitAt(data, offset);
        offset := offset + 1;
        i := i + 1;
      }
      ReadBits(data, old(offset), width);
      return Success(value);
    }

    /** Reads `width` bits as a two's-complement number. */
    method Signed(width: int) returns (r: Result<int, FrameError>)
      requires Valid()
      modifies this
      ensures Valid()
      ensures r.Success? <==> 0 < width <= 8 * |data| - old(offset)
      ensures r.Success? ==> offset == old(offset) + width && InSignedRange(r.value, width)
                             && Wrapped(r.value, width) == Slice(data, old(offset), width)
                             && old(Rest()) == SignedBits(r.value, width) + Rest()
      ensures r.Failure? ==> r.error == IncompleteFrame && offset == old(offset)
    {
      var value :- Unsigned(width);
      var sign := Pow2(width - 1);
      TopBit(value, sign);
      return Success(if value / sign % 2 == 1 then value - Pow2(width) else value);
    }

    method Boolean() returns (r: Result<bool, FrameError>)
      requires Valid()
      modifies this
      ensures Valid()
      ensures r.Success? <==> old(offset) < 8 * |data|
      ensures r.Success? ==> offset == old(offset) + 1 && old(Rest()) == [r.value] + Rest()
                             && r.value == (Slice(data, old(offset), 1) != 0)
      ensures r.Failure? ==> r.error == IncompleteFrame && offset == old(offset)
    {
      var value :- Unsigned(1);
      BitsOfFlag(value != 0);
      return Success(value != 0);
    }
  }

  // ---------------------------------------------------------------- peeling packed bits

  /** The same bits cannot start with two different numbers of one width. */
  lemma Peel(x: nat, y: nat, w: nat, p: seq<bool>, q: seq<bool>)
    requires x < Pow2(w) && y < Pow2(w) && ToBits(x, w) + p == ToBits(y, w) + q
    ensures x == y && p == q
  {
    hide ToBits, Pow2;
    var bits := ToBits(x, w) + p;
    assert bits[..w] == ToBits(x, w) && bits[..w] == ToBits(y, w) && bits[w..] == p && bits[w..] == q;
    FromToBits(x, w);
    FromToBits(y, w);
  }

  /** Only one number in range has a given two's complement, so a signed read is determined. */
  lemma SignedIsUnique(x: int, y: int, w: nat)
    requires w > 0 && InSignedRange(x, w) && InSignedRange(y, w)
    ensures Wrapped(x, w) == Wrapped(y, w) <==> x == y
  {
    assert Pow2(w) == 2 * Pow2(w - 1);
  }

  lemma PeelSigned(x: int, y: int, w: nat, p: seq<bool>, q: seq<bool>)
    requires w > 0 && InSignedRange(x, w) && InSignedRange(y, w) && SignedBits(x, w) + p == SignedBits(y, w) + q
    ensures x == y && p == q
  {
    Peel(Wrapped(x, w), Wrapped(y, w), w, p, q);
    SignedIsUnique(x, y, w);
  }

  lemma PeelBit(x: bool, y: bool, p: seq<bool>, q: seq<bool>)
    requires [x] + p == [y] + q
    ensures x == y && p == q
  {
    var bits := [x] + p;
    assert bits[0] == x && bits[0] == y && bits[1..] == p && bits[1..] == q;
  }

  // ---------------------------------------------------------------- reader arithmetic

  /** A read is the payload as one big-endian number, shifted right and masked. */
  lemma ReadIsShiftAndMask(data: seq<byte>, k: nat, w: nat)
    requires k + w <= 8 * |data|
    ensures Slice(data, k, w) == BigEndian(data) / Pow2(8 * |data| - k - w) % Pow2(w)
  {
    hide FromBits, BigEndian, BitsOf, Pow2;
    var bits := BitsOf(data);
    var a, m, r := bits[..k], bits[k..k + w], bits[k + w..];
    assert bits == a + m + r;
    FromBitsConcat(a, m);
    FromBitsConcat(a + m, r);
    BitsOfIsBigEndian(data);
    DivMod(Pow2(|r|), FromBits(a + m), FromBits(r));
    DivMod(Pow2(w), FromBits(a), FromBits(m));
  }

  /** Reading a + b bits is reading a, then b, and combining. */
  lemma ReadsCombine(data: seq<byte>, k: nat, a: nat, b: nat)
    requires k + a + b <= 8 * |data|
    ensures Slice(data, k, a + b) == Slice(data, k, a) * Pow2(b) + Slice(data, k + a, b)
  {
    var bits := BitsOf(data);
    assert bits[k..k + a + b] == bits[k..k + a] + bits[k + a..k + a + b];
    FromBitsConcat(bits[k..k + a], bits[k + a..k + a + b]);
  }

  // ---------------------------------------------------------------- fields at absolute positions

  /** The two's-complement number of `w` bits at offset `k`. */
  function SignedAt(p: seq<byte>, k: nat, w: nat): int
    requires w > 0 && k + w <= 8 * |p|
  {
    var u := Slice(p, k, w);
    if u >= Pow2(w - 1) then u - Pow2(w) else u
  }

  lemma TakeField(p: seq<byte>, k: nat, x: nat, w: nat, rest: seq<bool>)
    requires k <= 8 * |p| && From(p, k) == ToBits(x, w) + rest && x < Pow2(w)
    ensures k + w <= 8 * |p| && Slice(p, k, w) == x && From(p, k + w) == rest
  {
    hide BitsOf, ToBits, FromBits, Pow2;
    var bits := From(p, k);
    assert |bits| == w + |rest|;
    assert BitsOf(p)[k..k + w] == bits[..w] == ToBits(x, w);
    assert From(p, k + w) == bits[w..] == rest;
    FromToBits(x, w);
  }

  lemma TakeSigned(p: seq<byte>, k: nat, x: int, w: nat, rest: seq<bool>)
    requires w > 0 && InSignedRange(x, w) && k <= 8 * |p| && From(p, k) == SignedBits(x, w) + rest
    ensures k + w <= 8 * |p| && SignedAt(p, k, w) == x && From(p, k + w) == rest
  {
    hide BitsOf, From, ToBits, FromBits;
    TakeField(p, k, Wrapped(x, w), w, rest);
    assert Pow2(w) == 2 * Pow2(w - 1);
  }

  lemma TakeBit(p: seq<byte>, k: nat, b: bool, rest: seq<bool>)
    requires k <= 8 * |p| && From(p, k) == [b] + rest
    ensures k + 1 <= 8 * |p| && (b <==> Slice(p, k, 1) == 1) && From(p, k + 1) == rest
  {
    BitsOfFlag(b);
    hide BitsOf, From, ToBits, FromBits, Pow2;
    TakeField(p, k, if b then 1 else 0, 1, rest);
  }
}
