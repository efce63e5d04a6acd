/** Galois/Counter Mode, sections 6.2 to 7.2 of SP 800-38D, over the AES of this project. */
module Gcm {
  import opened Bits
  import opened Outcome
  import opened BigEndian
  import opened ReflectedField
  import AesRound
  import AesCipher

  type Bytes = seq<Byte>
  type Block = AesRound.Block
  type Keys = seq<Block>

  // ---- the field ---------------------------------------------------------------

  const R: nat := 0xE1000000000000000000000000000000

  const GCM: Field := Field(128, R)

  lemma Pow2Large(a: nat, b: nat, c: nat, d: nat)
    requires a == 16 && b == 32 && c == 64 && d == 128
    ensures Pow2(b) == 0x1_0000_0000
    ensures Pow2(c) == 0x1_0000_0000_0000_0000
    ensures Pow2(d) == 0x1_0000_0000_0000_0000_0000_0000_0000_0000
  {
    hide Pow2;
    var e := 8;
    Pow2Values();
    Pow2Add(e, e);
    Pow2Add(a, a);
    Pow2Add(b, b);
    Pow2Add(c, c);
  }

  lemma GcmValid()
    ensures Valid(GCM)
  {
    hide Pow2;
    Pow2Large(16, 32, 64, 128);
  }

  /** The residue constant stands for x^7 + x^2 + x + 1, the GCM polynomial without x^128. */
  lemma ResidueIsGcmPolynomial(i: nat)
    requires i < 128
    ensures Coefficients(GCM, R)[i] <==> i == 0 || i == 1 || i == 2 || i == 7
  {
    hide Pow2, Bit;
    ResidueShifted(120);
    BitShiftUp(0xE1, 120, 127 - i);
    if i < 8 {
      TopByteBits(7 - i);
    }
  }

  lemma ResidueShifted(n: nat)
    requires n == 120
    ensures R == 0xE1 * Pow2(n)
  {
    hide Pow2;
    var e := 8;
    Pow2Large(16, 32, 64, 128);
    Pow2Values();
    Pow2Add(n, e);
  }

  lemma TopByteBits(j: nat)
    requires j < 8
    ensures Bit(0xE1, j) <==> j == 7 || j == 6 || j == 5 || j == 0
  {
    var a: nat, b: nat, c: nat := 0xE1, 0x1C, 0x3;
    if 3 <= j {
      BitShiftDown(a, 3, j);
      if 6 <= j {
        BitShiftDown(b, 3, j - 3);
        assert Bit(c, j - 6);
      }
    }
  }

  method FieldMul(f: Field, x: nat, y: nat) returns (z: nat)
    requires Valid(f) && In(f, x) && In(f, y)
    ensures z == Mul(f, x, y)
  {
    hide Xor, Pow2, Sum;
    z := 0;
    var v := y;
    SumZero(f, y, Quotient(x, Pow2(f.n)));
    for i := 0 to f.n
      invariant v == Shift(f, y, i)
      invariant z == Sum(f, y, Quotient(x, Pow2(f.n - i)), i)
    {
      SumNext(f, y, x, i);
      XorZero(z);
      if Bit(x, f.n - 1 - i) {
        z := Xor(z, v);
      }
      v := if v % 2 == 1 then Xor(v / 2, f.r) else v / 2;
    }
    PowZero();
  }

  /** One more bit of `x`, from the top. */
  lemma SumNext(f: Field, y: nat, x: nat, i: nat)
    requires i < f.n
    ensures Sum(f, y, Quotient(x, Pow2(f.n - (i + 1))), i + 1)
            == Xor(Sum(f, y, Quotient(x, Pow2(f.n - i)), i), if Bit(x, f.n - 1 - i) then Shift(f, y, i) else 0)
  {
    hide Xor, Pow2, Shift;
    var p := Pow2(f.n - 1 - i);
    PowAbove(f.n - 1 - i);
    DivDiv(x, p);
    BitShiftDown(x, f.n - 1 - i, f.n - 1 - i);
  }

  lemma PowAbove(n: nat)
    ensures Pow2(n + 1) == 2 * Pow2(n)
  {
  }

  lemma SumZero(f: Field, y: nat, x: nat)
    ensures Sum(f, y, x, 0) == 0
  {
  }

  lemma PowZero()
    ensures Pow2(0) == 1
  {
  }

  // ---- GHASH ---------------------------------------------------------------------

  /** Chunk i of the data as a number, a short last chunk padded with zeros on the right. */
  function ChunkValue(data: Bytes, i: nat): nat
    requires 16 * i < |data|
  {
    var chunk := data[16 * i..if 16 * i + 16 <= |data| then 16 * i + 16 else |data|];
    FromBytes(chunk + Zeros(16 - |chunk|))
  }

  function Zeros(n: nat): (z: Bytes)
    ensures |z| == n
  {
    seq(n, _ => 0)
  }

  function ChunkCount(data: Bytes): nat {
    (|data| + 15) / 16
  }

  function Chunks(data: Bytes): (xs: seq<nat>)
    ensures |xs| == ChunkCount(data)
  {
    seq(ChunkCount(data), i requires 0 <= i < ChunkCount(data) => ChunkValue(data, i))
  }

  lemma ChunksIn(data: Bytes, i: nat)
    requires i < ChunkCount(data)
    ensures In(GCM, Chunks(data)[i])
  {
    hide Pow2;
    var chunk := data[16 * i..if 16 * i + 16 <= |data| then 16 * i + 16 else |data|];
    FromBytesBound(chunk + Zeros(16 - |chunk|));
  }

  /** Horner's form, the loop of section 6.4. */
  function Fold(h: nat, xs: seq<nat>): nat {
    if xs == [] then 0
    else Mul(GCM, Xor(Fold(h, xs[..|xs| - 1]), xs[|xs| - 1]), h)
  }

  function Ghash(h: nat, data: Bytes): nat {
    Fold(h, Chunks(data))
  }

  function Power(h: nat, k: nat): nat {
    if k == 0 then Pow2(127) else Mul(GCM, Power(h, k - 1), h)
  }

  /** x1 h^m + x2 h^(m-1) + ... + xm h */
  function Polynomial(h: nat, xs: seq<nat>): nat {
    if xs == [] then 0
    else Xor(Mul(GCM, xs[0], Power(h, |xs|)), Polynomial(h, xs[1..]))
  }

  lemma MulIn(x: nat, y: nat)
    requires In(GCM, y)
    ensures In(GCM, Mul(GCM, x, y))
  {
    GcmValid();
    SumIn(GCM, y, x, 128);
  }

  lemma {:induction false} PowerIn(h: nat, k: nat)
    requires In(GCM, h)
    ensures In(GCM, Power(h, k))
  {
    hide Mul, Pow2;
    if k > 0 {
      MulIn(Power(h, k - 1), h);
    } else {
      PowAbove(127);
      GcmValid();
    }
  }

  lemma {:induction false} PolynomialAppend(h: nat, xs: seq<nat>, x: nat)
    requires In(GCM, h)
    requires forall i :: 0 <= i < |xs| ==> In(GCM, xs[i])
    requires In(GCM, x)
    ensures Polynomial(h, xs + [x])
         == Xor(Mul(GCM, Polynomial(h, xs), h), Mul(GCM, x, h))
  {
    hide Mul, Xor, Pow2;
    GcmValid();
    if xs == [] {
      assert xs + [x] == [x] && [x][1..] == [];
      SingleTerm(h, x);
      ZeroMul(GCM, h);
    } else {
      var p := Power(h, |xs|);
      PolynomialAppend(h, xs[1..], x);
      assert (xs + [x])[1..] == xs[1..] + [x];
      PowerIn(h, |xs|);
      MulAssoc(GCM, xs[0], p, h);
      MulXorLeft(GCM, Mul(GCM, xs[0], p), Polynomial(h, xs[1..]), h);
      XorAssoc(Mul(GCM, Mul(GCM, xs[0], p), h), Mul(GCM, Polynomial(h, xs[1..]), h), Mul(GCM, x, h));
    }
  }

  lemma SingleTerm(h: nat, x: nat)
    requires In(GCM, h)
    ensures Polynomial(h, [x]) == Mul(GCM, x, h)
    ensures forall v :: Xor(0, v) == v
  {
    hide Mul, Pow2;
    GcmValid();
    var one: nat := 1;
    OneMul(h);
    assert [x][1..] == [];
    XorZero(Mul(GCM, x, h));
  }

  lemma OneMul(h: nat)
    requires In(GCM, h)
    ensures Power(h, 1) == h
  {
    hide Mul, Pow2;
    GcmValid();
    var k := 1;
    assert Power(h, k - 1) == Pow2(127);
    PowAbove(127);
    MulComm(GCM, Pow2(127), h);
    MulOneRight(GCM, h);
  }

  /** GHASH is the polynomial in h with the padded blocks as coefficients. */
  lemma {:induction false} FoldIsPolynomial(h: nat, xs: seq<nat>)
    requires In(GCM, h)
    requires forall i :: 0 <= i < |xs| ==> In(GCM, xs[i])
    ensures Fold(h, xs) == Polynomial(h, xs)
  {
    hide Mul, Xor;
    if xs != [] {
      var init, x := xs[..|xs| - 1], xs[|xs| - 1];
      FoldIsPolynomial(h, init);
      PolynomialAppend(h, init, x);
      assert init + [x] == xs;
      MulXorLeft(GCM, Fold(h, init), x, h);
    }
  }

  lemma GhashIsPolynomial(h: nat, data: Bytes)
    requires In(GCM, h)
    ensures Ghash(h, data) == Polynomial(h, Chunks(data))
  {
    hide Polynomial, Fold, Chunks;
    forall i | 0 <= i < |Chunks(data)| ensures In(GCM, Chunks(data)[i]) {
      ChunksIn(data, i);
    }
    FoldIsPolynomial(h, Chunks(data));
  }

  lemma {:induction false} FoldIn(h: nat, xs: seq<nat>)
    requires In(GCM, h)
    ensures In(GCM, Fold(h, xs))
  {
    hide Mul, Pow2;
    if xs != [] {
      MulIn(Xor(Fold(h, xs[..|xs| - 1]), xs[|xs| - 1]), h);
    } else {
      GcmValid();
    }
  }

  method ComputeGhash(h: nat, data: Bytes) returns (y: nat)
    requires In(GCM, h)
    ensures y == Ghash(h, data)
  {
    hide Mul, Xor, Pow2;
    GcmValid();
    y := 0;
    var off := 0;
    ghost var n := 0;
    while off < |data|
      invariant off == 16 * n && n <= ChunkCount(data)
      invariant off >= |data| ==> n == ChunkCount(data)
      invariant y == Fold(h, Chunks(data)[..n])
    {
      var chunk := data[off..if off + 16 <= |data| then off + 16 else |data|];
      if |chunk| < 16 {
        chunk := chunk + Zeros(16 - |chunk|);
      } else {
        assert chunk + Zeros(0) == chunk;
      }
      assert FromBytes(chunk) == Chunks(data)[n];
      ChunksIn(data, n);
      FoldIn(h, Chunks(data)[..n]);
      XorBound(y, FromBytes(chunk), 128);
      assert Chunks(data)[..n + 1][..n] == Chunks(data)[..n];
      y := FieldMul(GCM, Xor(y, FromBytes(chunk)), h);
      n := n + 1;
      off := off + 16;
    }
    assert Chunks(data)[..n] == Chunks(data);
  }

  // ---- counters ------------------------------------------------------------------

  const WRAP: nat := 0x1_0000_0000

  /** `(c & ~0xFFFFFFFF) | ((c + 1) & 0xFFFFFFFF)` */
  function Increment(c: nat): nat {
    c / WRAP * WRAP + (c + 1) % WRAP
  }

  function Counter(icb: nat, i: nat): nat {
    if i == 0 then icb else Increment(Counter(icb, i - 1))
  }

  lemma IncrementForm(c: nat)
    ensures Increment(c) / WRAP == c / WRAP
    ensures Increment(c) % WRAP == (c + 1) % WRAP
  {
  }

  /** Only the low 32 bits move, and they wrap. */
  lemma {:induction false} CounterForm(icb: nat, i: nat)
    ensures Counter(icb, i) / WRAP == icb / WRAP
    ensures Counter(icb, i) % WRAP == (icb + i) % WRAP
  {
    hide Increment;
    if i > 0 {
      CounterForm(icb, i - 1);
      IncrementForm(Counter(icb, i - 1));
      NextResidue(Counter(icb, i - 1), icb + (i - 1));
    }
  }

  lemma NextResidue(a: nat, b: nat)
    requires a % WRAP == b % WRAP
    ensures (a + 1) % WRAP == (b + 1) % WRAP
  {
  }

  /** Two counters of one message coincide only after a full wrap of 2^32 blocks. */
  lemma CountersCollide(icb: nat, i: nat, j: nat)
    ensures Counter(icb, i) == Counter(icb, j) <==> i % WRAP == j % WRAP
  {
    CounterForm(icb, i);
    CounterForm(icb, j);
    SameResidue(icb, i, j);
  }

  lemma SameResidue(c: nat, i: nat, j: nat)
    ensures (c + i) % WRAP == (c + j) % WRAP <==> i % WRAP == j % WRAP
  {
  }

  lemma CounterBound(icb: nat, i: nat, top: nat)
    requires icb < top * WRAP
    ensures Counter(icb, i) < top * WRAP
  {
    CounterForm(icb, i);
    assert icb / WRAP < top;
  }

  // ---- GCTR ----------------------------------------------------------------------

  /** The AES input block for one counter value. */
  function CounterBlock(icb: nat, i: nat): Block {
    ToBytes(Counter(icb, i), 16)
  }

  /** Byte j of the key stream. */
  function KeyByte(keys: Keys, icb: nat, j: nat): Byte
    requires |keys| >= 2
  {
    AesCipher.Encrypt(keys, CounterBlock(icb, j / 16))[j % 16]
  }

  function Gctr(keys: Keys, icb: nat, data: Bytes): (out: Bytes)
    requires |keys| >= 2
    ensures |out| == |data|
  {
    seq(|data|, j requires 0 <= j < |data| => XorByte(data[j], KeyByte(keys, icb, j)))
  }

  /** Counter mode is its own inverse. */
  lemma GctrInvolution(keys: Keys, icb: nat, data: Bytes)
    requires |keys| >= 2
    ensures Gctr(keys, icb, Gctr(keys, icb, data)) == data
  {
    hide KeyByte;
    var once := Gctr(keys, icb, data);
    forall j | 0 <= j < |data| ensures Gctr(keys, icb, once)[j] == data[j] {
      XorCancel(data[j], KeyByte(keys, icb, j));
    }
  }

  /** `bytes(a ^ b for a, b in zip(chunk, keystream))` */
  method XorZip(chunk: Bytes, stream: Block) returns (out: Bytes)
    requires |chunk| <= 16
    ensures |out| == |chunk|
    ensures forall k :: 0 <= k < |chunk| ==> out[k] == XorByte(chunk[k], stream[k])
  {
    hide Xor;
    out := [];
    for k := 0 to |chunk|
      invariant |out| == k
      invariant forall j :: 0 <= j < k ==> out[j] == XorByte(chunk[j], stream[j])
    {
      out := out + [XorByte(chunk[k], stream[k])];
    }
  }

  function ChunkEnd(data: Bytes, off: nat): (e: nat)
    requires off <= |data|
    ensures off <= e <= |data| && e <= off + 16
    ensures e == |data| || e == off + 16
  {
    if off + 16 <= |data| then off + 16 else |data|
  }

  lemma GctrChunk(keys: Keys, icb: nat, data: Bytes, n: nat, piece: Bytes)
    requires |keys| >= 2 && 16 * n < |data|
    requires |piece| == ChunkEnd(data, 16 * n) - 16 * n
    requires var stream := AesCipher.Encrypt(keys, CounterBlock(icb, n));
             forall k :: 0 <= k < |piece| ==> piece[k] == XorByte(data[16 * n + k], stream[k])
    ensures piece == Gctr(keys, icb, data)[16 * n..ChunkEnd(data, 16 * n)]
  {
    hide *;
    var out := Gctr(keys, icb, data);
    forall k | 0 <= k < |piece| ensures piece[k] == out[16 * n + k] {
      GctrAt(keys, icb, data, 16 * n + k);
      KeyByteAt(keys, icb, n, k);
    }
  }

  lemma GctrAt(keys: Keys, icb: nat, data: Bytes, j: nat)
    requires |keys| >= 2 && j < |data|
    ensures Gctr(keys, icb, data)[j] == XorByte(data[j], KeyByte(keys, icb, j))
  {
    hide XorByte, KeyByte;
  }

  lemma KeyByteAt(keys: Keys, icb: nat, n: nat, k: nat)
    requires |keys| >= 2 && k < 16
    ensures KeyByte(keys, icb, 16 * n + k) == AesCipher.Encrypt(keys, CounterBlock(icb, n))[k]
  {
    hide CounterBlock, AesCipher.Encrypt;
    IndexSplit(n, k);
  }

  lemma IndexSplit(n: nat, k: nat)
    requires k < 16
    ensures (16 * n + k) / 16 == n && (16 * n + k) % 16 == k
  {
  }

  method ComputeGctr(cipher: AesCipher.Cipher, icb: nat, data: Bytes) returns (out: Bytes)
    requires cipher.rounds >= 1 && |cipher.roundKeys| == cipher.rounds + 1
    ensures out == Gctr(cipher.roundKeys, icb, data)
  {
    hide Increment, XorByte, Gctr, ChunkEnd, ToBytes, AesCipher.Encrypt, KeyByte;
    if data == [] {
      return [];
    }
    out := [];
    var counter := icb;
    var off := 0;
    ghost var n := 0;
    ghost var goal := Gctr(cipher.roundKeys, icb, data);
    while off < |data|
      invariant off == 16 * n
      invariant counter == Counter(icb, n)
      invariant off <= |data| ==> out == goal[..off]
      invariant off > |data| ==> out == goal
    {
      var stream := AesCipher.EncryptBlock(cipher, ToBytes(counter, 16));
      var end := ChunkEnd(data, off);
      var piece := XorZip(data[off..end], stream.value);
      GctrChunk(cipher.roundKeys, icb, data, n, piece);
      assert goal[..off] + goal[off..end] == goal[..end];
      out := out + piece;
      counter := Increment(counter);
      n := n + 1;
      off := off + 16;
    }
  }

  // ---- authenticated encryption ------------------------------------------------------

  datatype GcmError = BadNonce | BadKey | LengthOverflow | TooShort | AuthenticationFailed

  const LENGTH_LIMIT: nat := 0x1_0000_0000_0000_0000

  /** Both bit lengths fit the eight bytes they are written in. */
  predicate LengthsFit(aad: Bytes, text: Bytes) {
    8 * |aad| < LENGTH_LIMIT && 8 * |text| < LENGTH_LIMIT
  }

  /** `(-n) % 16` */
  function PadLength(n: nat): (p: nat)
    ensures p < 16 && (n + p) % 16 == 0
  {
    (16 - n % 16) % 16
  }

  /** A || pad || C || pad || len(A) || len(C) */
  function HashInput(aad: Bytes, text: Bytes): Bytes {
    aad + Zeros(PadLength(|aad|)) + text + Zeros(PadLength(|text|))
    + ToBytes(8 * |aad|, 8) + ToBytes(8 * |text|, 8)
  }

  /** Different (aad, ciphertext) pairs give different GHASH inputs. */
  lemma HashInputInjective(a: Bytes, c: Bytes, b: Bytes, d: Bytes)
    requires LengthsFit(a, c) && LengthsFit(b, d)
    requires HashInput(a, c) == HashInput(b, d)
    ensures a == b && c == d
  {
    hide ToBytes, PadLength;
    Pow2Large(16, 32, 64, 128);
    var x, y := HashInput(a, c), HashInput(b, d);
    assert ToBytes(8 * |c|, 8) == x[|x| - 8..] == ToBytes(8 * |d|, 8);
    assert ToBytes(8 * |a|, 8) == x[|x| - 16..|x| - 8] == ToBytes(8 * |b|, 8);
    ToBytesInjective(8 * |c|, 8 * |d|, 8);
    ToBytesInjective(8 * |a|, 8 * |b|, 8);
    assert a == x[..|a|] && b == y[..|a|];
    var at := |a| + PadLength(|a|);
    assert c == x[at..at + |c|] && d == y[at..at + |c|];
  }

  function HashKey(keys: Keys): nat
    requires |keys| >= 2
  {
    FromBytes(AesCipher.Encrypt(keys, Zeros(16)))
  }

  function InitialCounter(nonce: Bytes): nat {
    FromBytes(nonce + [0, 0, 0, 1])
  }

  function Tag(keys: Keys, nonce: Bytes, text: Bytes, aad: Bytes): (t: Bytes)
    requires |keys| >= 2
    ensures |t| == 16
  {
    Gctr(keys, InitialCounter(nonce), ToBytes(Ghash(HashKey(keys), HashInput(aad, text)), 16))
  }

  /** Encrypt-then-authenticate, section 7.1. */
  function Seal(key: Bytes, nonce: Bytes, plain: Bytes, aad: Bytes): Result<Bytes, GcmError> {
    if |nonce| != 12 then Err(BadNonce)
    else if !AesCipher.ValidKey(key) then Err(BadKey)
    else if !LengthsFit(aad, plain) then Err(LengthOverflow)
    else
      var keys := AesCipher.RoundKeys(key);
      var text := Gctr(keys, InitialCounter(nonce) + 1, plain);
      Ok(text + Tag(keys, nonce, text, aad))
  }

  /** Verify-then-decrypt, section 7.2. */
  function Open(key: Bytes, nonce: Bytes, data: Bytes, aad: Bytes): Result<Bytes, GcmError> {
    if |nonce| != 12 then Err(BadNonce)
    else if |data| < 16 then Err(TooShort)
    else if !AesCipher.ValidKey(key) then Err(BadKey)
    else
      var text, tag := data[..|data| - 16], data[|data| - 16..];
      if !LengthsFit(aad, text) then Err(LengthOverflow)
      else
        var keys := AesCipher.RoundKeys(key);
        if Tag(keys, nonce, text, aad) != tag then Err(AuthenticationFailed)
        else Ok(Gctr(keys, InitialCounter(nonce) + 1, text))
  }

  /** Opening accepts exactly the sealed messages and returns what was sealed. */
  lemma OpenIffSealed(key: Bytes, nonce: Bytes, plain: Bytes, data: Bytes, aad: Bytes)
    ensures Open(key, nonce, data, aad) == Ok(plain) <==> Seal(key, nonce, plain, aad) == Ok(data)
  {
    hide Gctr, Tag, LengthsFit;
    if |nonce| == 12 && AesCipher.ValidKey(key) {
      var keys := AesCipher.RoundKeys(key);
      var j := InitialCounter(nonce) + 1;
      GctrInvolution(keys, j, plain);
      SameLengthsFit(aad, plain, Gctr(keys, j, plain));
      if |data| >= 16 {
        var text := data[..|data| - 16];
        GctrInvolution(keys, j, text);
        SameLengthsFit(aad, text, Gctr(keys, j, text));
        assert data == text + data[|data| - 16..];
      }
      var t := Gctr(keys, j, plain);
      var sealed := t + Tag(keys, nonce, t, aad);
      assert sealed[..|sealed| - 16] == t && sealed[|sealed| - 16..] == Tag(keys, nonce, t, aad);
    }
  }

  lemma SameLengthsFit(aad: Bytes, a: Bytes, b: Bytes)
    requires |a| == |b|
    ensures LengthsFit(aad, a) == LengthsFit(aad, b)
  {
  }

  // ---- counters of one message ---------------------------------------------------------

  lemma InitialCounterForm(nonce: Bytes)
    requires |nonce| == 12
    ensures InitialCounter(nonce) == FromBytes(nonce) * WRAP + 1
    ensures FromBytes(nonce) < Pow2(96)
  {
    hide Pow2;
    FromConcat(nonce, [0, 0, 0, 1]);
    LastWord();
    Pow2Large(16, 32, 64, 128);
    FromBytesBound(nonce);
  }

  lemma LastWord()
    ensures FromBytes([0, 0, 0, 1]) == 1
  {
    var a: Bytes, b: Bytes, c: Bytes, d: Bytes := [], [0], [0, 0], [0, 0, 0];
    FromAppend(a, 0);
    FromAppend(b, 0);
    FromAppend(c, 0);
    FromAppend(d, 1);
    assert a + [0] == b && b + [0] == c && c + [0] == d && d + [1] == [0, 0, 0, 1];
  }

  /** Within 2^32 - 2 blocks no AES input repeats, and none is the one that masks the tag. */
  lemma CounterBlocksDistinct(nonce: Bytes, i: nat, j: nat)
    requires |nonce| == 12 && i < j < WRAP - 2
    ensures CounterBlock(InitialCounter(nonce) + 1, i) != CounterBlock(InitialCounter(nonce) + 1, j)
    ensures CounterBlock(InitialCounter(nonce) + 1, j) != CounterBlock(InitialCounter(nonce), 0)
    ensures CounterBlock(InitialCounter(nonce) + 1, i) != CounterBlock(InitialCounter(nonce), 0)
  {
    hide ToBytes, Counter;
    var j0 := InitialCounter(nonce);
    InitialCounterForm(nonce);
    CountersCollide(j0 + 1, i, j);
    NotInitial(j0, i);
    NotInitial(j0, j);
    CounterFits(nonce, i);
    CounterFits(nonce, j);
    if CounterBlock(j0 + 1, i) == CounterBlock(j0 + 1, j) {
      ToBytesInjective(Counter(j0 + 1, i), Counter(j0 + 1, j), 16);
    }
    if CounterBlock(j0 + 1, i) == CounterBlock(j0, 0) {
      ToBytesInjective(Counter(j0 + 1, i), Counter(j0, 0), 16);
    }
    if CounterBlock(j0 + 1, j) == CounterBlock(j0, 0) {
      ToBytesInjective(Counter(j0 + 1, j), Counter(j0, 0), 16);
    }
  }

  lemma NotInitial(j0: nat, i: nat)
    requires j0 % WRAP == 1 && i < WRAP - 2
    ensures Counter(j0 + 1, i) != Counter(j0, 0)
  {
    hide Counter;
    CounterForm(j0 + 1, i);
    CounterForm(j0, 0);
    DivUnique(j0 + 1 + i, WRAP, j0 / WRAP, i + 2);
  }

  lemma CounterFits(nonce: Bytes, i: nat)
    requires |nonce| == 12
    ensures Counter(InitialCounter(nonce) + 1, i) < Pow2(8 * 16)
    ensures Counter(InitialCounter(nonce), 0) < Pow2(8 * 16)
  {
    hide Pow2;
    InitialCounterForm(nonce);
    Pow2Large(16, 32, 64, 128);
    Pow2Add(96, 32);
    CounterBound(InitialCounter(nonce) + 1, i, Pow2(96));
  }

  // ---- the program's two entry points ----------------------------------------------------

  lemma HashKeyIn(keys: Keys)
    requires |keys| >= 2
    ensures In(GCM, HashKey(keys))
  {
    hide Pow2, AesCipher.Encrypt;
    FromBytesBound(AesCipher.Encrypt(keys, Zeros(16)));
  }

  /** The tag of a ciphertext; the hash always fits the sixteen bytes it is written in. */
  method ComputeTag(cipher: AesCipher.Cipher, nonce: Bytes, text: Bytes, aad: Bytes) returns (tag: Bytes)
    requires cipher.rounds >= 1 && |cipher.roundKeys| == cipher.rounds + 1
    ensures tag == Tag(cipher.roundKeys, nonce, text, aad)
  {
    hide Gctr, ToBytes, FromBytes, Zeros, Fold;
    var block := AesCipher.EncryptBlock(cipher, Zeros(16));
    var h := FromBytes(block.value);
    HashKeyIn(cipher.roundKeys);
    var input := aad + Zeros(PadLength(|aad|)) + text + Zeros(PadLength(|text|))
    + ToBytes(8 * |aad|, 8) + ToBytes(8 * |text|, 8);
    var s := ComputeGhash(h, input);
    FoldIn(h, Chunks(input));
    assert s < Pow2(128);
    tag := ComputeGctr(cipher, FromBytes(nonce + [0, 0, 0, 1]), ToBytes(s, 16));
    tag := tag[..16];
  }

  method EncryptPure(key: Bytes, nonce: Bytes, plain: Bytes, aad: Bytes) returns (r: Result<Bytes, GcmError>)
    ensures r == Seal(key, nonce, plain, aad)
  {
    hide Gctr, Tag, FromBytes;
    if |nonce| != 12 {
      return Err(BadNonce);
    }
    var made := AesCipher.NewCipher(key);
    if made.Err? {
      return Err(BadKey);
    }
    var j0 := FromBytes(nonce + [0, 0, 0, 1]);
    var text := ComputeGctr(made.value, j0 + 1, plain);
    if !LengthsFit(aad, text) {
      return Err(LengthOverflow);
    }
    var tag := ComputeTag(made.value, nonce, text, aad);
    r := Ok(text + tag);
  }

  method DecryptPure(key: Bytes, nonce: Bytes, data: Bytes, aad: Bytes) returns (r: Result<Bytes, GcmError>)
    ensures r == Open(key, nonce, data, aad)
  {
    hide Gctr, Tag, FromBytes;
    if |nonce| != 12 {
      return Err(BadNonce);
    }
    if |data| < 16 {
      return Err(TooShort);
    }
    var text, tag := data[..|data| - 16], data[|data| - 16..];
    var made := AesCipher.NewCipher(key);
    if made.Err? {
      return Err(BadKey);
    }
    if !LengthsFit(aad, text) {
      return Err(LengthOverflow);
    }
    var expected := ComputeTag(made.value, nonce, text, aad);
    if expected != tag {
      return Err(AuthenticationFailed);
    }
    var plain := ComputeGctr(made.value, FromBytes(nonce + [0, 0, 0, 1]) + 1, text);
    r := Ok(plain);
  }
}
