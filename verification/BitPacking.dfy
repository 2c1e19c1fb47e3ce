/** codec2's frames of bits: most significant first, eight to a byte.  c2enc unpacks them
    one per element, hard or soft; c2dec packs them again and may inject bit errors. */
module BitPacking {

  type Byte = bv8

  /** Bit k of a byte, 0 being the least significant. */
  function Bit(b: Byte, k: int): Byte
    requires 0 <= k < 8
  {
    (b >> k) & 1
  }

  /** Bit i of a frame: the most significant bit of byte 0 is bit 0. */
  function BitAt(bits: seq<Byte>, i: int): Byte
    requires 0 <= i < 8 * |bits|
  {
    Bit(bits[i / 8], 7 - i % 8)
  }

  function Unpacked(bits: seq<Byte>, nbit: nat): seq<Byte>
    requires nbit <= 8 * |bits|
  {
    seq(nbit, i requires 0 <= i < nbit => BitAt(bits, i))
  }

  // Value v shifted in at bit k.
  function WithValue(b: Byte, v: Byte, k: int): Byte
    requires 0 <= k < 8
  {
    b | (v << k)
  }

  /** The packed frame after the first n values have been shifted into cleared bytes. */
  function Packed(values: seq<Byte>, nbyte: nat, n: nat): (p: seq<Byte>)
    requires n <= |values| && n <= 8 * nbyte
    ensures |p| == nbyte
  {
    if n == 0 then seq(nbyte, _ => 0)
    else
      var p := Packed(values, nbyte, n - 1);
      var i := n - 1;
      p[i / 8 := WithValue(p[i / 8], values[i], 7 - i % 8)]
  }

  function Flipped(b: Byte, k: int): Byte
    requires 0 <= k < 8
  {
    b ^ (1 << k)
  }

  // The frame with bit i inverted; there is none beyond its bytes.
  function FlippedAt(bits: seq<Byte>, i: nat): (f: seq<Byte>)
    ensures |f| == |bits|
  {
    if i < 8 * |bits| then bits[i / 8 := Flipped(bits[i / 8], 7 - i % 8)] else bits
  }

  function Soft(b: Byte): real {
    1.0 - 2.0 * (b as int as real)
  }

  function Hard(x: real): Byte {
    if x < 0.0 then 1 else 0
  }

  function HardAll(soft: seq<real>): seq<Byte> {
    seq(|soft|, i requires 0 <= i < |soft| => Hard(soft[i]))
  }

  // ---- One bit of one byte ----

  lemma BitIsBit(b: Byte, k: int)
    requires 0 <= k < 8
    ensures Bit(b, k) == 0 || Bit(b, k) == 1
  {
  }

  lemma OneBit(k: int, j: int)
    requires 0 <= k < 8 && 0 <= j < 8
    ensures (((1 as Byte) << k) >> j) & 1 == if j == k then 1 else 0
    ensures (((0 as Byte) << k) >> j) & 1 == 0
  {
  }

  lemma SetBit(b: Byte, v: Byte, k: int, j: int)
    requires 0 <= k < 8 && 0 <= j < 8 && (v == 0 || v == 1) && Bit(b, k) == 0
    ensures Bit(WithValue(b, v, k), j) == if j == k then v else Bit(b, j)
  {
    OneBit(k, j);
    assert (WithValue(b, v, k) >> j) & 1 == ((b >> j) & 1) | (((v << k) >> j) & 1);
  }

  lemma SetOne(bits: seq<Byte>, i: int, v: Byte, j: int)
    requires 0 <= i < 8 * |bits| && 0 <= j < 8 * |bits| && (v == 0 || v == 1) && BitAt(bits, i) == 0
    ensures BitAt(bits[i / 8 := WithValue(bits[i / 8], v, 7 - i % 8)], j) == if j == i then v else BitAt(bits, j)
  {
    if j / 8 == i / 8 {
      SetBit(bits[i / 8], v, 7 - i % 8, 7 - j % 8);
    }
  }

  lemma FlipBit(b: Byte, k: int, j: int)
    requires 0 <= k < 8 && 0 <= j < 8
    ensures Bit(Flipped(b, k), j) == if j == k then 1 - Bit(b, j) else Bit(b, j)
  {
    OneBit(k, j);
    assert (Flipped(b, k) >> j) & 1 == ((b >> j) & 1) ^ (((1 << k) >> j) & 1);
  }

  lemma FlipOne(bits: seq<Byte>, i: nat, j: nat)
    requires j < 8 * |bits|
    ensures BitAt(FlippedAt(bits, i), j) == if j == i then 1 - BitAt(bits, j) else BitAt(bits, j)
  {
    if j / 8 == i / 8 {
      FlipBit(bits[j / 8], 7 - i % 8, 7 - j % 8);
    }
  }

  lemma BitIsMasked(b: Byte, k: int)
    requires 0 <= k < 8
    ensures Bit(b, 7 - k) == 1 <==> b & ((0x80 as Byte) >> k) != 0
  {
  }

  /** Bit 0 of a frame is the most significant of its first byte: bit i is what a mask of the
      uppermost bit, shifted down by i % 8, finds in byte i / 8. */
  lemma MostSignificantFirst(bits: seq<Byte>, i: int)
    requires 0 <= i < 8 * |bits|
    ensures BitAt(bits, i) == if bits[i / 8] & ((0x80 as Byte) >> (i % 8)) != 0 then 1 else 0
  {
    BitIsMasked(bits[i / 8], i % 8);
    BitIsBit(bits[i / 8], 7 - i % 8);
  }

  lemma SameBitsSameByte(a: Byte, b: Byte)
    requires forall k :: 0 <= k < 8 ==> Bit(a, k) == Bit(b, k)
    ensures a == b
  {
    assert Bit(a, 0) == Bit(b, 0) && Bit(a, 1) == Bit(b, 1) && Bit(a, 2) == Bit(b, 2) && Bit(a, 3) == Bit(b, 3);
    assert Bit(a, 4) == Bit(b, 4) && Bit(a, 5) == Bit(b, 5) && Bit(a, 6) == Bit(b, 6) && Bit(a, 7) == Bit(b, 7);
  }

  /** A frame is determined by its bits. */
  lemma SameBitsSameFrame(a: seq<Byte>, b: seq<Byte>)
    requires |a| == |b| && forall i :: 0 <= i < 8 * |a| ==> BitAt(a, i) == BitAt(b, i)
    ensures a == b
  {
    forall n | 0 <= n < |a|
      ensures a[n] == b[n]
    {
      forall k | 0 <= k < 8
        ensures Bit(a[n], k) == Bit(b[n], k)
      {
        var i := 8 * n + (7 - k);
        assert i / 8 == n && i % 8 == 7 - k;
        assert BitAt(a, i) == BitAt(b, i);
      }
      SameBitsSameByte(a[n], b[n]);
    }
  }

  // ---- The loops ----

  /** c2enc: a counter runs down the bits of a byte, another up the bytes. */
  method Unpack(bits: array<Byte>, nbit: nat, softBits: array<real>, charBits: array<Byte>)
    requires nbit <= 8 * bits.Length && softBits.Length == nbit && charBits.Length == nbit
    requires charBits != bits && softBits as object != bits as object && softBits as object != charBits as object
    modifies softBits, charBits
    ensures charBits[..] == Unpacked(bits[..], nbit)
    ensures forall i :: 0 <= i < nbit ==> softBits[i] == Soft(charBits[i])
  {
    ghost var frame := bits[..];
    var bit, byte := 7, 0;
    for i := 0 to nbit
      invariant byte == i / 8 && bit == 7 - i % 8
      invariant bits[..] == frame
      invariant forall j :: 0 <= j < i ==> charBits[j] == BitAt(frame, j)
      invariant forall j :: 0 <= j < i ==> softBits[j] == Soft(charBits[j])
    {
      assert bits[byte] == frame[byte];
      softBits[i] := 1.0 - 2.0 * (((bits[byte] >> bit) & 1) as int as real);
      charBits[i] := (bits[byte] >> bit) & 1;
      bit := bit - 1;
      if bit < 0 {
        bit := 7;
        byte := byte + 1;
      }
    }
  }

  method Clear(bits: array<Byte>)
    modifies bits
    ensures bits[..] == seq(bits.Length, _ => 0)
  {
    for k := 0 to bits.Length
      invariant forall j :: 0 <= j < k ==> bits[j] == 0
    {
      bits[k] := 0;
    }
  }

  method ShiftIn(bits: array<Byte>, byte: nat, v: Byte, bit: int)
    requires byte < bits.Length && 0 <= bit < 8
    modifies bits
    ensures bits[..] == old(bits[..])[byte := WithValue(old(bits[..])[byte], v, bit)]
  {
    bits[byte] := bits[byte] | (v << bit);
  }

  /** c2dec, one character per bit.  Any value is shifted in, not only 0 and 1. */
  method PackChars(bits: array<Byte>, values: array<Byte>)
    requires values.Length <= 8 * bits.Length && bits != values
    modifies bits
    ensures bits[..] == Packed(values[..], bits.Length, values.Length)
  {
    Clear(bits);
    var bit, byte := 7, 0;
    for i := 0 to values.Length
      invariant byte == i / 8 && bit == 7 - i % 8
      invariant values[..] == old(values[..])
      invariant bits[..] == Packed(values[..], bits.Length, i)
    {
      ShiftIn(bits, byte, values[i], bit);
      bit := bit - 1;
      if bit < 0 {
        bit := 7;
        byte := byte + 1;
      }
    }
  }

  /** c2dec, soft decisions: the sign is the bit. */
  method PackSoft(bits: array<Byte>, soft: array<real>)
    requires soft.Length <= 8 * bits.Length && soft as object != bits as object
    modifies bits
    ensures bits[..] == Packed(HardAll(soft[..]), bits.Length, soft.Length)
  {
    Clear(bits);
    var bit, byte := 7, 0;
    for i := 0 to soft.Length
      invariant byte == i / 8 && bit == 7 - i % 8
      invariant bits[..] == Packed(HardAll(soft[..]), bits.Length, i)
    {
      ShiftIn(bits, byte, if soft[i] < 0.0 then 1 else 0, bit);
      bit := bit - 1;
      if bit < 0 {
        bit := 7;
        byte := byte + 1;
      }
    }
  }

  // How many of the bits first..end-1 are hit.
  function Hits(hit: int -> bool, first: nat, end: int): nat
    decreases end - first
  {
    if end <= first then 0 else Hits(hit, first, end - 1) + if hit(end - 1) then 1 else 0
  }

  /** Exactly the hit bits among first..end-1 are inverted. */
  predicate Injected(before: seq<Byte>, after: seq<Byte>, first: nat, end: int, hit: int -> bool) {
    && |before| == |after|
    && forall i :: 0 <= i < 8 * |before| ==>
         BitAt(after, i) == if first <= i < end && hit(i) then 1 - BitAt(before, i) else BitAt(before, i)
  }

  // Inverts bit i where it lies; `inside` is false if that is past the bytes of the frame.
  method FlipInPlace(bits: array<Byte>, i: nat) returns (inside: bool)
    modifies bits
    ensures bits[..] == FlippedAt(old(bits[..]), i)
    ensures inside <==> i < 8 * bits.Length
  {
    var byte := i / 8;
    inside := byte < bits.Length;
    if inside {
      var mask := 1 << (7 - i + byte * 8);
      bits[byte] := bits[byte] ^ mask;
    }
  }

  /** The frame after the hit bits among first..end-1 have been inverted one by one. */
  function WithErrors(bits: seq<Byte>, first: nat, end: int, hit: int -> bool): (f: seq<Byte>)
    ensures |f| == |bits|
    decreases end - first
  {
    if end <= first then bits
    else
      var f := WithErrors(bits, first, end - 1, hit);
      if hit(end - 1) then FlippedAt(f, end - 1) else f
  }

  lemma {:induction false} WithErrorsBit(bits: seq<Byte>, first: nat, end: int, hit: int -> bool, j: nat)
    requires j < 8 * |bits|
    ensures BitAt(WithErrors(bits, first, end, hit), j)
         == if first <= j < end && hit(j) then 1 - BitAt(bits, j) else BitAt(bits, j)
    decreases end - first
  {
    if end <= first {
    } else {
      WithErrorsBit(bits, first, end - 1, hit, j);
      FlipOne(WithErrors(bits, first, end - 1, hit), end - 1, j);
    }
  }

  lemma WithErrorsIsInjected(bits: seq<Byte>, first: nat, end: int, hit: int -> bool)
    ensures Injected(bits, WithErrors(bits, first, end, hit), first, end, hit)
  {
    forall j | 0 <= j < 8 * |bits|
      ensures BitAt(WithErrors(bits, first, end, hit), j)
           == if first <= j < end && hit(j) then 1 - BitAt(bits, j) else BitAt(bits, j)
    {
      WithErrorsBit(bits, first, end, hit, j);
    }
  }

  /** c2dec's error injection: `hit` stands for the draws of the random generator.  The last
      bit may be the frame length, one past its last bit; when that is past its last byte too
      and is hit, the source writes outside the frame. */
  method InjectErrors(bits: array<Byte>, nbit: nat, first: nat, last: int, hit: int -> bool)
    returns (errors: nat, inside: bool)
    requires bits.Length == (nbit + 7) / 8 && last <= nbit
    modifies bits
    ensures errors == Hits(hit, first, last + 1)
    ensures Injected(old(bits[..]), bits[..], first, last + 1, hit)
    ensures inside <==> !(first <= last == 8 * bits.Length && hit(last))
  {
    errors, inside := 0, true;
    ghost var start := bits[..];
    var i := first;
    while i < last + 1
      invariant first <= i && (i <= last + 1 || i == first)
      invariant errors == Hits(hit, first, i)
      invariant bits[..] == WithErrors(start, first, i, hit)
      invariant inside <==> !(first <= 8 * bits.Length < i && hit(8 * bits.Length))
    {
      if hit(i) {
        var within := FlipInPlace(bits, i);
        inside := inside && within;
        errors := errors + 1;
      }
      i := i + 1;
    }
    WithErrorsIsInjected(start, first, last + 1, hit);
  }

  function HitSet(hit: int -> bool, first: nat, end: int): set<int> {
    set i | first <= i < end && hit(i)
  }

  lemma HitSetNext(hit: int -> bool, first: nat, end: int)
    requires first < end
    ensures HitSet(hit, first, end) == HitSet(hit, first, end - 1) + if hit(end - 1) then {end - 1} else {}
  {
  }

  lemma {:induction false} HitsIsSize(hit: int -> bool, first: nat, end: int)
    ensures Hits(hit, first, end) == |HitSet(hit, first, end)|
    decreases end - first
  {
    if end <= first {
      assert HitSet(hit, first, end) == {};
    } else {
      HitsIsSize(hit, first, end - 1);
      HitSetNext(hit, first, end);
    }
  }

  /** In particular the errors counted are the places where the two frames differ. */
  lemma {:induction false} HitsAreDifferences(before: seq<Byte>, after: seq<Byte>, first: nat, end: int,
                                              hit: int -> bool)
    requires end <= 8 * |before| && Injected(before, after, first, end, hit)
    ensures Hits(hit, first, end) == |set i | 0 <= i < 8 * |before| && BitAt(after, i) != BitAt(before, i)|
  {
    var differ := set i | 0 <= i < 8 * |before| && BitAt(after, i) != BitAt(before, i);
    var hits := HitSet(hit, first, end);
    forall i | 0 <= i < 8 * |before|
      ensures i in differ <==> i in hits
    {
      BitIsBit(before[i / 8], 7 - i % 8);
    }
    assert differ == hits;
    HitsIsSize(hit, first, end);
  }

  // ---- Round trips ----

  predicate IsBits(values: seq<Byte>) {
    forall i :: 0 <= i < |values| ==> values[i] == 0 || values[i] == 1
  }

  /** Packing puts value i at bit i and clears the padding. */
  lemma {:induction false} PackedBit(values: seq<Byte>, nbyte: nat, n: nat, j: nat)
    requires n <= |values| && n <= 8 * nbyte && IsBits(values) && j < 8 * nbyte
    ensures BitAt(Packed(values, nbyte, n), j) == if j < n then values[j] else 0
  {
    if n == 0 {
    } else {
      var i := n - 1;
      PackedBit(values, nbyte, i, j);
      PackedBit(values, nbyte, i, i);
      SetOne(Packed(values, nbyte, i), i, values[i], j);
    }
  }

  /** Packing and unpacking gives the values back exactly when each of them is 0 or 1. */
  lemma {:induction false} UnpackPacked(values: seq<Byte>, nbyte: nat)
    requires |values| <= 8 * nbyte
    ensures Unpacked(Packed(values, nbyte, |values|), |values|) == values <==> IsBits(values)
  {
    var u := Unpacked(Packed(values, nbyte, |values|), |values|);
    if IsBits(values) {
      forall i | 0 <= i < |values|
        ensures u[i] == values[i]
      {
        PackedBit(values, nbyte, |values|, i);
      }
    }
    forall i | 0 <= i < |values|
      ensures u[i] == 0 || u[i] == 1
    {
      BitIsBit(Packed(values, nbyte, |values|)[i / 8], 7 - i % 8);
    }
  }

  /** Unpacking nbit bits and packing them keeps those bits and clears the rest. */
  lemma {:induction false} PackUnpacked(bits: seq<Byte>, nbit: nat)
    requires nbit <= 8 * |bits|
    ensures var p := Packed(Unpacked(bits, nbit), |bits|, nbit);
            && (forall i :: 0 <= i < 8 * |bits| ==> BitAt(p, i) == if i < nbit then BitAt(bits, i) else 0)
            && (nbit == 8 * |bits| ==> p == bits)
  {
    var u := Unpacked(bits, nbit);
    var p := Packed(u, |bits|, nbit);
    forall i | 0 <= i < nbit
      ensures u[i] == 0 || u[i] == 1
    {
      BitIsBit(bits[i / 8], 7 - i % 8);
    }
    forall i | 0 <= i < 8 * |bits|
      ensures BitAt(p, i) == if i < nbit then BitAt(bits, i) else 0
    {
      PackedBit(u, |bits|, nbit, i);
    }
    if nbit == 8 * |bits| {
      SameBitsSameFrame(p, bits);
    }
  }

  /** The sign of the soft decision carries the bit, plus for 0 and minus for 1. */
  lemma SoftKeepsBits(values: seq<Byte>, soft: seq<real>)
    requires IsBits(values) && |soft| == |values|
    requires forall i :: 0 <= i < |values| ==> soft[i] == Soft(values[i])
    ensures HardAll(soft) == values
    ensures forall i :: 0 <= i < |values| ==> soft[i] == if values[i] == 0 then 1.0 else -1.0
  {
  }
}
