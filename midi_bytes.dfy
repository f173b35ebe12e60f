/** The byte-level reader of the Standard MIDI File parser: fixed-width
    big-endian reads through a DataView and variable-length quantities. */
module MidiBytes {
  import opened Wrappers

  type byte = x: int | 0 <= x < 256

  /** What the parser can throw. `OutOfBounds` is the DataView's RangeError
      for a read past the end of the buffer. */
  datatype Error = OutOfBounds | MissingHeader | BadTrackChunk(position: nat)

  /** A decoded variable-length quantity and the number of bytes it occupied. */
  datatype Vlq = Vlq(value: nat, length: nat)

  /** Two-byte big-endian value at `pos` (DataView.getUint16). */
  function ReadU16(buf: seq<byte>, pos: nat): (r: Result<nat, Error>)
  {
    if pos + 2 <= |buf| then Success(buf[pos] as int * 0x100 + buf[pos + 1]) else Failure(OutOfBounds)
  }

  /** Four-byte big-endian value at `pos` (DataView.getUint32). */
  function ReadU32(buf: seq<byte>, pos: nat): (r: Result<nat, Error>)
  {
    if pos + 4 <= |buf|
    then Success(((buf[pos] as int * 0x100 + buf[pos + 1]) * 0x100 + buf[pos + 2]) * 0x100 + buf[pos + 3])
    else Failure(OutOfBounds)
  }

  /** Big-endian two-byte encoding of the low 16 bits of a value. */
  function U16Bytes(v: nat): (s: seq<byte>)
  {
    [v / 0x100 % 0x100, v % 0x100]
  }

  /** Big-endian four-byte encoding of the low 32 bits of a value. */
  function U32Bytes(v: nat): (s: seq<byte>)
  {
    [v / 0x100_0000 % 0x100, v / 0x1_0000 % 0x100, v / 0x100 % 0x100, v % 0x100]
  }

  lemma ReadU16RoundTrip(buf: seq<byte>, pos: nat, v: nat)
    requires v < 0x1_0000
    requires pos + 2 <= |buf| && buf[pos..pos + 2] == U16Bytes(v)
    ensures ReadU16(buf, pos) == Success(v)
  {
    assert buf[pos] == U16Bytes(v)[0] && buf[pos + 1] == U16Bytes(v)[1];
  }

  lemma ReadU32RoundTrip(buf: seq<byte>, pos: nat, v: nat)
    requires v < 0x1_0000_0000
    requires pos + 4 <= |buf| && buf[pos..pos + 4] == U32Bytes(v)
    ensures ReadU32(buf, pos) == Success(v)
  {
    var s := U32Bytes(v);
    assert buf[pos] == s[0] && buf[pos + 1] == s[1] && buf[pos + 2] == s[2] && buf[pos + 3] == s[3];
    U32Digits(v);
  }

  lemma U32Digits(v: nat)
    requires v < 0x1_0000_0000
    ensures ((v / 0x100_0000 % 0x100 * 0x100 + v / 0x1_0000 % 0x100) * 0x100 + v / 0x100 % 0x100) * 0x100 + v % 0x100 == v
  {
    var a := v / 0x100;
    var b := a / 0x100;
    var c := b / 0x100;
    assert v / 0x1_0000 == b;
    assert v / 0x100_0000 == c;
    assert c < 0x100;
  }

  /** The big-endian base-128 fold of the low seven bits of each byte,
      starting from the accumulator `acc`. */
  function Fold7(acc: nat, s: seq<byte>): nat
    decreases |s|
  {
    if s == [] then acc else Fold7(acc * 0x80 + s[0] % 0x80, s[1..])
  }

  /** The loop of parseVLQ from the state (`value`, `length`): read the byte at
      `pos + length`, shift it in, stop after the first byte with bit 7 clear. */
  function VlqFrom(buf: seq<byte>, pos: nat, value: nat, length: nat): Result<Vlq, Error>
    decreases |buf| - (pos + length)
  {
    if pos + length >= |buf| then Failure(OutOfBounds)
    else
      var b := buf[pos + length];
      var v := value * 0x80 + b % 0x80;
      if b < 0x80 then Success(Vlq(v, length + 1)) else VlqFrom(buf, pos, v, length + 1)
  }

  /** parseVLQ(dv, pos). */
  function DecodeVlq(buf: seq<byte>, pos: nat): Result<Vlq, Error>
  {
    VlqFrom(buf, pos, 0, 0)
  }

  lemma {:induction false} VlqFromShape(buf: seq<byte>, pos: nat, value: nat, length: nat)
    ensures var r := VlqFrom(buf, pos, value, length);
      && (r.Success? ==>
            && length < r.value.length
            && pos + r.value.length <= |buf|
            && buf[pos + r.value.length - 1] < 0x80
            && (forall i :: pos + length <= i < pos + r.value.length - 1 ==> buf[i] >= 0x80)
            && r.value.value == Fold7(value, buf[pos + length..pos + r.value.length]))
      && (r.Failure? ==>
            r.error == OutOfBounds && forall i :: pos + length <= i < |buf| ==> buf[i] >= 0x80)
    decreases |buf| - (pos + length)
  {
    if pos + length < |buf| {
      var b := buf[pos + length];
      var v := value * 0x80 + b % 0x80;
      if b >= 0x80 {
        VlqFromShape(buf, pos, v, length + 1);
        var r := VlqFrom(buf, pos, value, length);
        if r.Success? {
          assert buf[pos + length..pos + r.value.length][1..] == buf[pos + length + 1..pos + r.value.length];
        }
      } else {
        assert buf[pos + length..pos + length + 1] == [b];
      }
    }
  }

  /** The shape of a decoded quantity: it ends at the first byte with bit 7
      clear, its value folds the low seven bits of exactly those bytes, and it
      fails (reading past the end) iff no such byte follows `pos`. */
  lemma DecodeVlqShape(buf: seq<byte>, pos: nat)
    ensures var r := DecodeVlq(buf, pos);
      && (r.Success? ==>
            && 1 <= r.value.length
            && pos + r.value.length <= |buf|
            && buf[pos + r.value.length - 1] < 0x80
            && (forall i :: pos <= i < pos + r.value.length - 1 ==> buf[i] >= 0x80)
            && r.value.value == Fold7(0, buf[pos..pos + r.value.length]))
      && (r.Failure? <==> forall i :: pos <= i < |buf| ==> buf[i] >= 0x80)
      && (r.Failure? ==> r.error == OutOfBounds)
  {
    VlqFromShape(buf, pos, 0, 0);
  }

  /** parseVLQ: the do-while loop that accumulates `value` and `length`. */
  method ParseVlq(buf: seq<byte>, pos: nat) returns (r: Result<Vlq, Error>)
    ensures r == DecodeVlq(buf, pos)
    ensures r.Success? ==> 1 <= r.value.length && pos + r.value.length <= |buf|
  {
    var value: nat, length: nat := 0, 0;
    while true
      invariant VlqFrom(buf, pos, value, length) == DecodeVlq(buf, pos)
      decreases |buf| - (pos + length)
    {
      if pos + length >= |buf| {
        return Failure(OutOfBounds);
      }
      var b := buf[pos + length];
      value := value * 0x80 + b % 0x80;
      length := length + 1;
      if b < 0x80 {
        r := Success(Vlq(value, length));
        DecodeVlqShape(buf, pos);
        return;
      }
    }
  }

  /** The continuation bytes (bit 7 set) that carry `w` above the last group. */
  function VlqHigh(w: nat): seq<byte>
  {
    if w == 0 then [] else VlqHigh(w / 0x80) + [0x80 + w % 0x80]
  }

  /** The Standard MIDI Files variable-length encoding of `v`. */
  function EncodeVlq(v: nat): seq<byte>
  {
    VlqHigh(v / 0x80) + [v % 0x80]
  }

  lemma {:induction false} Fold7Append(acc: nat, a: seq<byte>, b: seq<byte>)
    ensures Fold7(acc, a + b) == Fold7(Fold7(acc, a), b)
    decreases |a|
  {
    if a == [] {
      assert a + b == b;
    } else {
      assert (a + b)[0] == a[0] && (a + b)[1..] == a[1..] + b;
      Fold7Append(acc * 0x80 + a[0] % 0x80, a[1..], b);
    }
  }

  lemma {:induction false} VlqHighShape(w: nat)
    ensures Fold7(0, VlqHigh(w)) == w
    ensures forall i :: 0 <= i < |VlqHigh(w)| ==> VlqHigh(w)[i] >= 0x80
    ensures w < 0x80 ==> |VlqHigh(w)| <= 1
    ensures w < 0x4000 ==> |VlqHigh(w)| <= 2
    ensures w < 0x20_0000 ==> |VlqHigh(w)| <= 3
    ensures w >= 0x20_0000 ==> |VlqHigh(w)| >= 4
    ensures w >= 0x4000 ==> |VlqHigh(w)| >= 3
    ensures w >= 0x80 ==> |VlqHigh(w)| >= 2
    ensures w > 0 ==> |VlqHigh(w)| >= 1
  {
    if w > 0 {
      var g: byte := 0x80 + w % 0x80;
      VlqHighShape(w / 0x80);
      Fold7Append(0, VlqHigh(w / 0x80), [g]);
      assert [g][1..] == [];
    }
  }

  /** The encoder emits its value's bytes, continuation bytes first, one
      terminating byte last; it takes at most four bytes exactly below 2^28. */
  lemma EncodeVlqShape(v: nat)
    ensures var e := EncodeVlq(v);
      && 1 <= |e|
      && e[|e| - 1] < 0x80
      && (forall i :: 0 <= i < |e| - 1 ==> e[i] >= 0x80)
      && Fold7(0, e) == v
      && (|e| <= 4 <==> v < 0x1000_0000)
  {
    var g: byte := v % 0x80;
    VlqHighShape(v / 0x80);
    Fold7Append(0, VlqHigh(v / 0x80), [g]);
    assert [g][1..] == [];
  }

  lemma {:induction false} VlqFromTerminated(buf: seq<byte>, pos: nat, value: nat, length: nat, n: nat)
    requires pos + length < n <= |buf|
    requires forall i :: pos + length <= i < n - 1 ==> buf[i] >= 0x80
    requires buf[n - 1] < 0x80
    ensures VlqFrom(buf, pos, value, length) == Success(Vlq(Fold7(value, buf[pos + length..n]), n - pos))
    decreases n - (pos + length)
  {
    var b := buf[pos + length];
    if pos + length < n - 1 {
      VlqFromTerminated(buf, pos, value * 0x80 + b % 0x80, length + 1, n);
      assert buf[pos + length..n][1..] == buf[pos + length + 1..n];
    } else {
      assert buf[pos + length..n] == [b];
    }
  }

  /** Decoding the encoding of `v`, wherever it sits in a buffer, returns `v`
      and the encoding's length. */
  lemma VlqRoundTrip(buf: seq<byte>, pos: nat, v: nat)
    requires pos + |EncodeVlq(v)| <= |buf|
    requires buf[pos..pos + |EncodeVlq(v)|] == EncodeVlq(v)
    ensures DecodeVlq(buf, pos) == Success(Vlq(v, |EncodeVlq(v)|))
  {
    var e := EncodeVlq(v);
    var n := |e|;
    EncodeVlqShape(v);
    forall i | pos <= i < pos + n - 1 ensures buf[i] >= 0x80 {
      assert buf[i] == e[i - pos];
    }
    assert buf[pos + n - 1] == e[n - 1];
    VlqFromTerminated(buf, pos, 0, 0, pos + n);
  }
}
