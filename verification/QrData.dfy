/** Byte-mode data encoding and its inverse, section 7.4 of ISO/IEC 18004:2015. */
module QrData {
  import opened Bits
  import opened Outcome
  import opened QrTables

  type BitString = seq<bool>

  // ---- bit strings and bytes -------------------------------------------------

  /** The `width` low bits of a value, highest first. */
  function BitsOf(value: nat, width: nat): (b: BitString)
    ensures |b| == width
  {
    seq(width, i requires 0 <= i < width => Bit(value, width - 1 - i))
  }

  /** The number a bit string spells, highest bit first. */
  function Value(bits: BitString): nat {
    if bits == [] then 0 else 2 * Value(bits[..|bits| - 1]) + (if bits[|bits| - 1] then 1 else 0)
  }

  lemma {:induction false} ValueBound(bits: BitString)
    ensures Value(bits) < Pow2(|bits|)
  {
    if bits != [] {
      ValueBound(bits[..|bits| - 1]);
    }
  }

  lemma {:induction false} ValueOfBits(value: nat, width: nat)
    requires value < Pow2(width)
    ensures Value(BitsOf(value, width)) == value
    decreases width
  {
    if width > 0 {
      ValueOfBits(value / 2, width - 1);
      var b, c := BitsOf(value, width), BitsOf(value / 2, width - 1);
      forall i | 0 <= i < width - 1 ensures b[i] == c[i] {
        BitNext(value, width - 2 - i);
      }
      assert b[..width - 1] == c;
      assert b[width - 1] == Bit(value, 0);
    }
  }

  lemma BitNext(v: nat, k: nat)
    ensures Bit(v, k + 1) == Bit(v / 2, k)
  {
  }

  lemma {:induction false} BitsOfValue(bits: BitString)
    ensures BitsOf(Value(bits), |bits|) == bits
  {
    if bits != [] {
      var n := |bits| - 1;
      var v, w := Value(bits[..n]), Value(bits);
      BitsOfValue(bits[..n]);
      assert w / 2 == v;
      forall i | 0 <= i <= n ensures BitsOf(w, n + 1)[i] == bits[i] {
        if i < n {
          BitNext(w, n - 1 - i);
          assert BitsOf(v, n)[i] == bits[..n][i];
        } else {
          assert BitsOf(w, n + 1)[n] == Bit(w, 0);
        }
      }
    }
  }

  /** Eight bits at a time, each group as a byte. */
  function Pack(bits: BitString): (b: seq<Byte>)
    requires |bits| % 8 == 0
    ensures |b| == |bits| / 8
  {
    seq(|bits| / 8, i requires 0 <= i < |bits| / 8 => PackAt(bits, i))
  }

  function PackAt(bits: BitString, i: nat): Byte
    requires 8 * i + 8 <= |bits|
  {
    ValueBound(bits[8 * i..8 * i + 8]);
    Pow2Values();
    Value(bits[8 * i..8 * i + 8])
  }

  /** Bit k of a codeword stream: `(codewords[k >> 3] >> (7 - (k & 7))) & 1`. */
  function StreamBit(data: seq<Byte>, k: nat): bool
    requires k < 8 * |data|
  {
    Bit(data[k / 8], 7 - k % 8)
  }

  function Unpack(data: seq<Byte>): (bits: BitString)
    ensures |bits| == 8 * |data|
  {
    seq(8 * |data|, k requires 0 <= k < 8 * |data| => StreamBit(data, k))
  }

  lemma UnpackPack(bits: BitString)
    requires |bits| % 8 == 0
    ensures Unpack(Pack(bits)) == bits
  {
    hide Value, Bit;
    forall k | 0 <= k < |bits| ensures Unpack(Pack(bits))[k] == bits[k] {
      var i := k / 8;
      var group := bits[8 * i..8 * i + 8];
      BitsOfValue(group);
      assert BitsOf(Value(group), 8)[k % 8] == group[k % 8];
    }
  }

  lemma UnpackConcat(a: seq<Byte>, b: seq<Byte>)
    ensures Unpack(a + b)[..8 * |a|] == Unpack(a)
  {
    forall k | 0 <= k < 8 * |a| ensures Unpack(a + b)[k] == Unpack(a)[k] {
      assert (a + b)[k / 8] == a[k / 8];
    }
  }

  // ---- the bit buffer ----------------------------------------------------------

  class BitBuffer {
    var bits: BitString

    constructor ()
      ensures bits == []
    {
      bits := [];
    }

    method Put(value: nat, width: nat)
      modifies this
      ensures bits == old(bits) + BitsOf(value, width)
    {
      var i: nat := width;
      ghost var all := BitsOf(value, width);
      while i > 0
        invariant 0 <= i <= width
        invariant bits == old(bits) + all[..width - i]
      {
        i := i - 1;
        bits := bits + [Bit(value, i)];
        assert all[..width - i] == all[..width - i - 1] + [Bit(value, i)];
      }
      assert all[..width] == all;
    }

    method ByteAt(i: nat) returns (byte: Byte)
      requires 8 * i + 8 <= |bits|
      ensures byte == PackAt(bits, i)
    {
      var sum := 0;
      for j := 0 to 8
        invariant sum == Value(bits[8 * i..8 * i + j]) * Pow2(8 - j)
      {
        AddBit(bits[8 * i..8 * i + j], bits[8 * i + j], j);
        assert bits[8 * i..8 * i + j] + [bits[8 * i + j]] == bits[8 * i..8 * i + j + 1];
        sum := sum + (if bits[8 * i + j] then Pow2(7 - j) else 0);
      }
      assert sum == PackAt(bits, i);
      byte := sum;
    }

    method ToBytes() returns (out: seq<Byte>)
      requires |bits| % 8 == 0
      ensures out == Pack(bits)
    {
      hide PackAt;
      out := [];
      for i := 0 to |bits| / 8
        invariant |out| == i
        invariant forall k :: 0 <= k < i ==> out[k] == PackAt(bits, k)
      {
        var byte := ByteAt(i);
        out := out + [byte];
      }
    }
  }

  lemma AddBitTimes(v: nat, b: bool, p: nat)
    ensures (2 * v + if b then 1 else 0) * p == v * (2 * p) + if b then p else 0
  {
    MulDouble(v, p);
  }

  lemma PowNext(n: nat)
    ensures Pow2(n + 1) == 2 * Pow2(n)
  {
  }

  lemma AddBit(bits: BitString, b: bool, j: nat)
    requires j < 8
    ensures Value(bits + [b]) * Pow2(7 - j)
         == Value(bits) * Pow2(8 - j) + (if b then Pow2(7 - j) else 0)
  {
    assert (bits + [b])[..|bits|] == bits;
    AddBitTimes(Value(bits), b, Pow2(7 - j));
    PowNext(7 - j);
  }

  // ---- the data codewords ------------------------------------------------------------

  const MODE_BYTE: nat := 4

  /** Mode, count and payload. */
  function Header(payload: seq<Byte>, version: Version): (b: BitString)
    ensures |b| == 4 + CountBits(version) + 8 * |payload|
  {
    BitsOf(MODE_BYTE, 4) + BitsOf(|payload|, CountBits(version)) + Unpack(payload)
  }

  function Off(n: nat): (b: BitString)
    ensures |b| == n
  {
    seq(n, _ => false)
  }

  lemma RoundUp(t: nat, capacity: nat)
    requires t <= 8 * capacity
    ensures (t + (8 - t % 8) % 8) % 8 == 0 && t + (8 - t % 8) % 8 <= 8 * capacity
  {
  }

  /** Terminator of up to four zero bits, then zeros to the byte boundary. */
  function Terminated(bits: BitString, capacity: nat): (b: BitString)
    requires |bits| <= 8 * capacity
    ensures |b| % 8 == 0 && |bits| <= |b| <= 8 * capacity
    ensures b[..|bits|] == bits
  {
    var room := 8 * capacity - |bits|;
    var t := |bits| + (if room < 4 then room else 4);
    RoundUp(t, capacity);
    bits + (Off(t - |bits|) + Off((8 - t % 8) % 8))
  }

  function PadBytes(n: nat): (b: seq<Byte>)
    ensures |b| == n
  {
    seq(n, i => if i % 2 == 0 then 0xEC else 0x11)
  }

  function DataBytes(payload: seq<Byte>, version: Version, level: Level): (d: seq<Byte>)
    requires Fits(version, level, |payload|)
    ensures |d| == DataCodewords(version, level)
  {
    var capacity := DataCodewords(version, level);
    var packed := Pack(Terminated(Header(payload, version), capacity));
    packed + PadBytes(capacity - |packed|)
  }

  // ---- the reader ----------------------------------------------------------------------

  /** Reads mode, count and bytes back; no result when the stream is not a byte-mode one. */
  function ReadPayload(data: seq<Byte>, version: Version): Option<seq<Byte>> {
    var bits := Unpack(data);
    var start := 4 + CountBits(version);
    if |bits| < start || Value(bits[..4]) != MODE_BYTE then None
    else
      var count := Value(bits[4..start]);
      if |bits| < start + 8 * count then None
      else Some(Pack(bits[start..start + 8 * count]))
  }

  lemma CountFits(version: Version, level: Level, n: nat)
    requires Fits(version, level, n)
    ensures n < Pow2(CountBits(version))
  {
    hide DataCodewords;
    TableFacts(version, level);
    Pow2Values();
    Pow2Add(8, 8);
  }

  lemma PackUnpack(data: seq<Byte>)
    ensures Pack(Unpack(data)) == data
  {
    hide Value, Bit;
    forall i | 0 <= i < |data| ensures Pack(Unpack(data))[i] == data[i] {
      var group := Unpack(data)[8 * i..8 * i + 8];
      assert group == BitsOf(data[i], 8);
      Pow2Values();
      ValueOfBits(data[i], 8);
    }
  }

  /** Reading undoes encoding, whatever is appended after the encoded bits. */
  lemma ReadHeader(payload: seq<Byte>, version: Version, data: seq<Byte>)
    requires |payload| < Pow2(CountBits(version))
    requires |Header(payload, version)| <= 8 * |data|
    requires Unpack(data)[..|Header(payload, version)|] == Header(payload, version)
    ensures ReadPayload(data, version) == Some(payload)
  {
    hide Value, Pow2, Unpack, BitsOf, Pack;
    var bits, h := Unpack(data), Header(payload, version);
    var start := 4 + CountBits(version);
    ModeFits();
    ValueOfBits(MODE_BYTE, 4);
    ValueOfBits(|payload|, CountBits(version));
    assert bits[..4] == h[..4] == BitsOf(MODE_BYTE, 4);
    assert bits[4..start] == h[4..start] == BitsOf(|payload|, CountBits(version));
    assert bits[start..start + 8 * |payload|] == h[start..] == Unpack(payload);
    PackUnpack(payload);
  }

  lemma ModeFits()
    ensures MODE_BYTE < Pow2(4)
  {
  }

  lemma ReadEncoded(payload: seq<Byte>, version: Version, level: Level)
    requires Fits(version, level, |payload|)
    ensures ReadPayload(DataBytes(payload, version, level), version) == Some(payload)
  {
    hide Unpack, Pack, DataCodewords, Terminated, PadBytes, Header;
    var capacity := DataCodewords(version, level);
    var h := Header(payload, version);
    var t := Terminated(h, capacity);
    var packed := Pack(t);
    var data := DataBytes(payload, version, level);
    UnpackPack(t);
    UnpackConcat(packed, PadBytes(capacity - |packed|));
    assert Unpack(data)[..|t|] == t;
    assert Unpack(data)[..|h|] == Unpack(data)[..|t|][..|h|];
    CountFits(version, level, |payload|);
    ReadHeader(payload, version, data);
  }

  // ---- the program ------------------------------------------------------------------------

  lemma {:induction false} BitsOfZero(k: nat)
    ensures BitsOf(0, k) == Off(k)
  {
    forall i | 0 <= i < k ensures !BitsOf(0, k)[i] {
      BitZero(k - 1 - i);
    }
  }

  method PutHeader(payload: seq<Byte>, version: Version) returns (buffer: BitBuffer)
    ensures fresh(buffer) && buffer.bits == Header(payload, version)
  {
    hide BitsOf, Unpack;
    buffer := new BitBuffer();
    buffer.Put(MODE_BYTE, 4);
    buffer.Put(|payload|, CountBits(version));
    ghost var start := buffer.bits;
    UnpackEmpty();
    for i := 0 to |payload|
      invariant buffer.bits == start + Unpack(payload[..i])
    {
      ByteBits(payload, i);
      buffer.Put(payload[i], 8);
    }
    assert payload[..|payload|] == payload;
  }

  lemma UnpackEmpty()
    ensures forall p: seq<Byte> :: Unpack(p[..0]) == []
  {
  }

  method PutTerminator(buffer: BitBuffer, capacity: nat)
    requires |buffer.bits| <= 8 * capacity
    modifies buffer
    ensures buffer.bits == Terminated(old(buffer.bits), capacity)
  {
    hide BitsOf, Off;
    var room := capacity * 8 - |buffer.bits|;
    var width := if room < 4 then room else 4;
    BitsOfZero(width);
    buffer.Put(0, width);
    PadToByte(buffer);
  }

  /** Zero bits up to the byte boundary. */
  method PadToByte(buffer: BitBuffer)
    modifies buffer
    ensures buffer.bits == old(buffer.bits) + Off((8 - |old(buffer.bits)| % 8) % 8)
  {
    ghost var n := |buffer.bits|;
    ghost var k := 0;
    while |buffer.bits| % 8 != 0
      invariant buffer.bits == old(buffer.bits) + Off(k)
      invariant k <= (8 - n % 8) % 8
      decreases 8 - k
    {
      Boundary(n, k);
      buffer.bits := buffer.bits + [false];
      k := k + 1;
    }
    Boundary(n, k);
  }

  lemma Boundary(n: nat, k: nat)
    requires k <= (8 - n % 8) % 8
    ensures (n + k) % 8 == 0 <==> k == (8 - n % 8) % 8
  {
  }

  method EncodeData(payload: seq<Byte>, version: Version, level: Level) returns (data: seq<Byte>)
    requires Fits(version, level, |payload|)
    ensures data == DataBytes(payload, version, level)
  {
    hide Pack, Header, Terminated, DataCodewords;
    var capacity := DataCodewords(version, level);
    var buffer := PutHeader(payload, version);
    PutTerminator(buffer, capacity);
    data := buffer.ToBytes();
    ghost var packed := data;
    var missing := capacity - |data|;
    for i := 0 to missing
      invariant data == packed + PadBytes(i)
    {
      data := data + [if i % 2 == 0 then 0xEC else 0x11];
    }
  }

  lemma ByteBits(payload: seq<Byte>, i: nat)
    requires i < |payload|
    ensures Unpack(payload[..i + 1]) == Unpack(payload[..i]) + BitsOf(payload[i], 8)
  {
  }
}
