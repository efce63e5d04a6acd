/** What the tag covers and what each sealed byte is, sections 7.1 and 7.2 of SP 800-38D. */
module GcmTag {
  import opened Bits
  import opened Outcome
  import opened BigEndian
  import opened ReflectedField
  import opened Gcm
  import AesCipher

  // ---- the hashed blocks ----------------------------------------------------------------------

  lemma {:induction false} ChunksConcat(a: Bytes, b: Bytes)
    requires |a| % 16 == 0
    ensures Chunks(a + b) == Chunks(a) + Chunks(b)
  {
    hide FromBytes;
    var n := |a| / 16;
    assert ChunkCount(a) == n && ChunkCount(a + b) == n + ChunkCount(b);
    forall i | 0 <= i < ChunkCount(a + b) ensures Chunks(a + b)[i] == (Chunks(a) + Chunks(b))[i] {
      if i < n {
        assert (a + b)[16 * i..16 * i + 16] == a[16 * i..16 * i + 16];
      } else {
        var j := i - n;
        var from := 16 * j;
        var upTo := if from + 16 <= |b| then from + 16 else |b|;
        assert (a + b)[16 * i..|a| + upTo] == b[from..upTo];
      }
    }
  }

  /** Padding with zeros to a full block changes no block. */
  lemma ChunksPadded(a: Bytes)
    ensures |a + Zeros(PadLength(|a|))| % 16 == 0
    ensures Chunks(a + Zeros(PadLength(|a|))) == Chunks(a)
  {
    hide FromBytes;
    var p := a + Zeros(PadLength(|a|));
    assert ChunkCount(p) == ChunkCount(a);
    forall i | 0 <= i < ChunkCount(a) ensures Chunks(p)[i] == Chunks(a)[i] {
      var upTo := if 16 * i + 16 <= |a| then 16 * i + 16 else |a|;
      var chunk := a[16 * i..upTo];
      assert p[16 * i..16 * i + 16] == chunk + Zeros(16 - |chunk|);
      assert p[16 * i..16 * i + 16] + Zeros(0) == p[16 * i..16 * i + 16];
    }
  }

  lemma PowSixtyFour(n: nat)
    requires n == 64
    ensures Pow2(n) == LENGTH_LIMIT
  {
    hide Pow2;
    Pow2Large(16, 32, 64, 128);
  }

  /** The block of the two bit lengths. */
  lemma LengthBlock(x: nat, y: nat)
    requires x < LENGTH_LIMIT && y < LENGTH_LIMIT
    ensures Chunks(ToBytes(x, 8) + ToBytes(y, 8)) == [x * LENGTH_LIMIT + y]
  {
    hide FromBytes, ToBytes, Pow2;
    var b := ToBytes(x, 8) + ToBytes(y, 8);
    PowSixtyFour(64);
    FromToBytes(x, 8);
    FromToBytes(y, 8);
    FromConcat(ToBytes(x, 8), ToBytes(y, 8));
    assert b[0..16] == b && b + Zeros(0) == b;
    assert Chunks(b)[0] == FromBytes(b);
  }

  /** The blocks of the associated data, those of the text, and the lengths. */
  function HashBlocks(aad: Bytes, text: Bytes): (xs: seq<nat>)
    ensures |xs| == ChunkCount(aad) + ChunkCount(text) + 1
  {
    Chunks(aad) + Chunks(text) + [8 * |aad| * LENGTH_LIMIT + 8 * |text|]
  }

  /** The hash runs over exactly these blocks. */
  lemma HashedBlocks(aad: Bytes, text: Bytes)
    requires LengthsFit(aad, text)
    ensures Chunks(HashInput(aad, text)) == HashBlocks(aad, text)
  {
    hide Chunks, PadLength, ToBytes;
    var a, c := aad + Zeros(PadLength(|aad|)), text + Zeros(PadLength(|text|));
    var l := ToBytes(8 * |aad|, 8) + ToBytes(8 * |text|, 8);
    ChunksPadded(aad);
    ChunksPadded(text);
    LengthBlock(8 * |aad|, 8 * |text|);
    ChunksConcat(a, c + l);
    ChunksConcat(c, l);
    assert HashInput(aad, text) == a + (c + l);
  }

  // ---- the tag ---------------------------------------------------------------------------------------

  lemma FirstCounterBlock(nonce: Bytes)
    requires |nonce| == 12
    ensures CounterBlock(InitialCounter(nonce), 0) == nonce + [0, 0, 0, 1]
  {
    hide ToBytes, FromBytes;
    ToFromBytes(nonce + [0, 0, 0, 1]);
  }

  /** The hash key: the encrypted zero block. */
  function Subkey(keys: Keys): nat
    requires |keys| >= 2
  {
    hide AesCipher.Encrypt;
    FromBytes(AesCipher.Encrypt(keys, seq(16, _ => 0)))
  }

  /** The encrypted J0. */
  function TagMask(keys: Keys, nonce: Bytes): Block
    requires |keys| >= 2 && |nonce| == 12
  {
    hide AesCipher.Encrypt;
    AesCipher.Encrypt(keys, nonce + [0, 0, 0, 1])
  }

  lemma SubkeyIs(keys: Keys)
    requires |keys| >= 2
    ensures HashKey(keys) == Subkey(keys) && In(GCM, Subkey(keys))
  {
    hide AesCipher.Encrypt, FromBytes;
    assert Zeros(16) == seq(16, _ => 0);
    HashKeyIn(keys);
  }

  /** Every byte of the tag: GHASH of data, text and lengths under the encrypted zero block, masked by the encrypted J0. */
  lemma TagByte(keys: Keys, nonce: Bytes, text: Bytes, aad: Bytes, k: nat)
    requires |keys| >= 2 && |nonce| == 12 && LengthsFit(aad, text) && k < 16
    ensures Tag(keys, nonce, text, aad)[k]
            == Xor(ToBytes(Polynomial(Subkey(keys), HashBlocks(aad, text)), 16)[k], TagMask(keys, nonce)[k])
  {
    hide ToBytes, FromBytes, AesCipher.Encrypt, Xor, Polynomial, HashBlocks, HashInput, Chunks, Fold, CounterBlock, Subkey,
         HashKey, LengthsFit, InitialCounter, Gctr, KeyByte;
    SubkeyIs(keys);
    GhashIsPolynomial(HashKey(keys), HashInput(aad, text));
    HashedBlocks(aad, text);
    FirstCounterBlock(nonce);
    GctrAt(keys, InitialCounter(nonce), ToBytes(Ghash(HashKey(keys), HashInput(aad, text)), 16), k);
    KeyByteAt(keys, InitialCounter(nonce), 0, k);
  }

  // ---- equal tags ------------------------------------------------------------------------------------

  /** Zero blocks in front. */
  function PadFront(xs: seq<nat>, n: nat): (r: seq<nat>)
    requires |xs| <= n
    ensures |r| == n
  {
    seq(n - |xs|, _ => 0) + xs
  }

  function XorLists(xs: seq<nat>, ys: seq<nat>): (r: seq<nat>)
    requires |xs| == |ys|
    ensures |r| == |xs|
  {
    seq(|xs|, i requires 0 <= i < |xs| => Xor(xs[i], ys[i]))
  }

  lemma {:induction false} PolynomialXor(h: nat, xs: seq<nat>, ys: seq<nat>)
    requires |xs| == |ys|
    ensures Polynomial(h, XorLists(xs, ys)) == Xor(Polynomial(h, xs), Polynomial(h, ys))
  {
    hide Mul, Xor, Power;
    if xs == [] {
      XorZero(0);
    } else {
      PolynomialXor(h, xs[1..], ys[1..]);
      assert XorLists(xs, ys)[1..] == XorLists(xs[1..], ys[1..]);
      MulXorRightOf(xs[0], ys[0], Power(h, |xs|));
      XorSwap(Mul(GCM, xs[0], Power(h, |xs|)), Mul(GCM, ys[0], Power(h, |xs|)),
              Polynomial(h, xs[1..]), Polynomial(h, ys[1..]));
    }
  }

  lemma MulXorRightOf(x: nat, y: nat, p: nat)
    ensures Mul(GCM, Xor(x, y), p) == Xor(Mul(GCM, x, p), Mul(GCM, y, p))
  {
    MulXorLeft(GCM, x, y, p);
  }

  lemma {:induction false} PolynomialPadded(h: nat, xs: seq<nat>, n: nat)
    requires |xs| <= n && In(GCM, h)
    ensures Polynomial(h, PadFront(xs, n)) == Polynomial(h, xs)
    decreases n
  {
    hide Mul, Xor, Power;
    if n == |xs| {
      assert PadFront(xs, n) == xs;
    } else {
      var padded := PadFront(xs, n);
      assert padded[0] == 0 && padded[1..] == PadFront(xs, n - 1);
      PolynomialPadded(h, xs, n - 1);
      PowerIn(h, n);
      GcmValid();
      ZeroMul(GCM, Power(h, n));
      XorZero(Polynomial(h, xs));
    }
  }

  /** The blocks in which two hashed messages differ, aligned at their ends. */
  function Difference(aad: Bytes, text: Bytes, aad': Bytes, text': Bytes): seq<nat> {
    var xs, ys := HashBlocks(aad, text), HashBlocks(aad', text');
    var n := if |xs| <= |ys| then |ys| else |xs|;
    XorLists(PadFront(xs, n), PadFront(ys, n))
  }

  lemma DifferencePolynomial(h: nat, aad: Bytes, text: Bytes, aad': Bytes, text': Bytes)
    requires In(GCM, h)
    ensures Polynomial(h, Difference(aad, text, aad', text'))
            == Xor(Polynomial(h, HashBlocks(aad, text)), Polynomial(h, HashBlocks(aad', text')))
  {
    hide Polynomial, HashBlocks, Xor;
    var xs, ys := HashBlocks(aad, text), HashBlocks(aad', text');
    var n := if |xs| <= |ys| then |ys| else |xs|;
    PolynomialXor(h, PadFront(xs, n), PadFront(ys, n));
    PolynomialPadded(h, xs, n);
    PolynomialPadded(h, ys, n);
  }

  lemma HashFits(keys: Keys, aad: Bytes, text: Bytes)
    requires |keys| >= 2 && LengthsFit(aad, text)
    ensures Polynomial(Subkey(keys), HashBlocks(aad, text)) < Pow2(8 * 16)
  {
    hide Polynomial, HashBlocks, Subkey, HashInput, Chunks, Pow2, HashKey, LengthsFit, Fold;
    SubkeyIs(keys);
    GhashIsPolynomial(HashKey(keys), HashInput(aad, text));
    HashedBlocks(aad, text);
    FoldIn(HashKey(keys), Chunks(HashInput(aad, text)));
  }

  lemma XorCancelRight(a: nat, b: nat, m: nat)
    requires Xor(a, m) == Xor(b, m)
    ensures a == b
  {
    hide Xor;
    XorAssoc(a, m, m);
    XorAssoc(b, m, m);
    XorSelf(m);
    XorZero(a);
    XorZero(b);
  }

  /** Two messages have the same tag exactly when the hash key is a root of the polynomial of their difference. */
  lemma TagsEqualIffRoot(keys: Keys, nonce: Bytes, text: Bytes, aad: Bytes, text': Bytes, aad': Bytes)
    requires |keys| >= 2 && |nonce| == 12 && LengthsFit(aad, text) && LengthsFit(aad', text')
    ensures Tag(keys, nonce, text, aad) == Tag(keys, nonce, text', aad')
            <==> Polynomial(Subkey(keys), Difference(aad, text, aad', text')) == 0
  {
    hide ToBytes, Xor, Polynomial, HashBlocks, Subkey, TagMask, Difference, Tag, LengthsFit, Pow2;
    var h := Subkey(keys);
    SubkeyIs(keys);
    var x, y := Polynomial(h, HashBlocks(aad, text)), Polynomial(h, HashBlocks(aad', text'));
    DifferencePolynomial(h, aad, text, aad', text');
    var s, t := Tag(keys, nonce, text, aad), Tag(keys, nonce, text', aad');
    forall k | 0 <= k < 16
      ensures s[k] == Xor(ToBytes(x, 16)[k], TagMask(keys, nonce)[k])
      ensures t[k] == Xor(ToBytes(y, 16)[k], TagMask(keys, nonce)[k])
    {
      TagByte(keys, nonce, text, aad, k);
      TagByte(keys, nonce, text', aad', k);
    }
    if s == t {
      forall k | 0 <= k < 16 ensures ToBytes(x, 16)[k] == ToBytes(y, 16)[k] {
        assert s[k] == t[k];
        XorCancelRight(ToBytes(x, 16)[k], ToBytes(y, 16)[k], TagMask(keys, nonce)[k]);
      }
      assert ToBytes(x, 16) == ToBytes(y, 16);
      HashFits(keys, aad, text);
      HashFits(keys, aad', text');
      ToBytesInjective(x, y, 16);
      XorSelf(x);
    }
    if Xor(x, y) == 0 {
      XorZeroOnly(x, y);
      assert s == t;
    }
  }

  // ---- different messages differ in some block ---------------------------------------------------------

  lemma PaddedDetermines(x: Bytes, y: Bytes)
    requires |x| == |y| <= 16 && FromBytes(x + Zeros(16 - |x|)) == FromBytes(y + Zeros(16 - |y|))
    ensures x == y
  {
    hide FromBytes, ToBytes, Zeros;
    var p, q := x + Zeros(16 - |x|), y + Zeros(16 - |y|);
    ToFromBytes(p);
    ToFromBytes(q);
    assert x == p[..|x|] && y == q[..|y|];
  }

  lemma ChunkDetermines(a: Bytes, b: Bytes, k: nat)
    requires |a| == |b| && Chunks(a) == Chunks(b) && k < |a|
    ensures a[k] == b[k]
  {
    hide FromBytes, Zeros;
    var i := k / 16;
    assert Chunks(a)[i] == Chunks(b)[i];
    var upTo := if 16 * i + 16 <= |a| then 16 * i + 16 else |a|;
    PaddedDetermines(a[16 * i..upTo], b[16 * i..upTo]);
    assert a[16 * i..upTo][k - 16 * i] == a[k] && b[16 * i..upTo][k - 16 * i] == b[k];
  }

  lemma ChunksDetermine(a: Bytes, b: Bytes)
    requires |a| == |b| && Chunks(a) == Chunks(b)
    ensures a == b
  {
    hide Chunks;
    forall k | 0 <= k < |a| ensures a[k] == b[k] {
      ChunkDetermines(a, b, k);
    }
  }

  lemma LengthsDetermine(x: nat, y: nat, x': nat, y': nat)
    requires y < LENGTH_LIMIT && y' < LENGTH_LIMIT && x * LENGTH_LIMIT + y == x' * LENGTH_LIMIT + y'
    ensures x == x' && y == y'
  {
  }

  lemma BlocksDetermine(aad: Bytes, text: Bytes, aad': Bytes, text': Bytes)
    requires LengthsFit(aad, text) && LengthsFit(aad', text')
    requires var xs, ys := HashBlocks(aad, text), HashBlocks(aad', text');
             xs[|xs| - 1] == ys[|ys| - 1] && (|xs| == |ys| ==> xs == ys)
    ensures aad == aad' && text == text'
  {
    hide Chunks;
    LengthsDetermine(8 * |aad|, 8 * |text|, 8 * |aad'|, 8 * |text'|);
    var xs, ys := HashBlocks(aad, text), HashBlocks(aad', text');
    var n, m := ChunkCount(aad), ChunkCount(text);
    assert Chunks(aad) == xs[..n] == ys[..n] == Chunks(aad');
    assert Chunks(text) == xs[n..n + m] == ys[n..n + m] == Chunks(text');
    ChunksDetermine(aad, aad');
    ChunksDetermine(text, text');
  }

  /** The difference of two different messages has a non-zero block. */
  lemma DifferenceNonzero(aad: Bytes, text: Bytes, aad': Bytes, text': Bytes)
    requires LengthsFit(aad, text) && LengthsFit(aad', text') && (aad != aad' || text != text')
    ensures exists i :: 0 <= i < |Difference(aad, text, aad', text')| && Difference(aad, text, aad', text')[i] != 0
  {
    hide HashBlocks, Xor, LengthsFit;
    var d := Difference(aad, text, aad', text');
    if forall i :: 0 <= i < |d| ==> d[i] == 0 {
      var xs, ys := HashBlocks(aad, text), HashBlocks(aad', text');
      var n := |d|;
      forall i | 0 <= i < n ensures PadFront(xs, n)[i] == PadFront(ys, n)[i] {
        assert d[i] == Xor(PadFront(xs, n)[i], PadFront(ys, n)[i]);
        XorZeroOnly(PadFront(xs, n)[i], PadFront(ys, n)[i]);
      }
      assert PadFront(xs, n)[n - 1] == xs[|xs| - 1] && PadFront(ys, n)[n - 1] == ys[|ys| - 1];
      if |xs| == |ys| {
        assert PadFront(xs, n) == xs && PadFront(ys, n) == ys;
        assert xs == ys;
      }
      BlocksDetermine(aad, text, aad', text');
      assert false;
    }
  }

  /**
    * Replacing text or associated data under a tag is accepted exactly when the hash key is a root of
    * the polynomial of the difference, which is not the zero polynomial if anything changed.
    */
  lemma ForgeryIffRoot(key: Bytes, nonce: Bytes, plain: Bytes, aad: Bytes, text': Bytes, aad': Bytes)
    requires Seal(key, nonce, plain, aad).Ok?
    ensures var sealed := Seal(key, nonce, plain, aad).value;
            var text, tag := sealed[..|plain|], sealed[|plain|..];
            && |sealed| == |plain| + 16
            && (Open(key, nonce, text' + tag, aad').Ok?
                <==> LengthsFit(aad', text')
                     && Polynomial(Subkey(AesCipher.RoundKeys(key)), Difference(aad, text, aad', text')) == 0)
  {
    hide Gctr, Tag, Polynomial, Difference, Subkey, LengthsFit, AesCipher.RoundKeys, InitialCounter;
    var keys := AesCipher.RoundKeys(key);
    var text := Gctr(keys, InitialCounter(nonce) + 1, plain);
    var tag := Tag(keys, nonce, text, aad);
    var sealed := text + tag;
    assert sealed[..|plain|] == text && sealed[|plain|..] == tag;
    var data := text' + tag;
    assert data[..|data| - 16] == text' && data[|data| - 16..] == tag;
    SameLengthsFit(aad, plain, text);
    if LengthsFit(aad', text') {
      TagsEqualIffRoot(keys, nonce, text, aad, text', aad');
    }
  }

  // ---- the sealed bytes -----------------------------------------------------------------------------------

  lemma {:induction false} ToBytesSplit(a: nat, b: nat, n: nat, k: nat)
    requires b < Pow2(8 * k)
    ensures ToBytes(a * Pow2(8 * k) + b, n + k) == ToBytes(a, n) + ToBytes(b, k)
    decreases k
  {
    hide Pow2;
    if k == 0 {
      PowZero();
    } else {
      Pow2Step(k);
      var p := Pow2(8 * (k - 1));
      ToBytesSplit(a, b / 256, n, k - 1);
      Scale(a, p);
      var v := a * Pow2(8 * k) + b;
      assert v == 256 * (a * p) + b;
      assert v / 256 == a * p + b / 256 && v % 256 == b % 256;
      assert ToBytes(v, n + k) == ToBytes(v / 256, n + k - 1) + [v % 256];
      assert ToBytes(b, k) == ToBytes(b / 256, k - 1) + [b % 256];
    }
  }

  /** The n-th block of the key stream of a message encrypts the nonce followed by the counter 2 + n. */
  lemma StreamBlock(nonce: Bytes, n: nat)
    requires |nonce| == 12
    ensures CounterBlock(InitialCounter(nonce) + 1, n) == nonce + ToBytes((2 + n) % WRAP, 4)
  {
    hide ToBytes, FromBytes, Pow2, Counter;
    var j0 := InitialCounter(nonce);
    InitialCounterForm(nonce);
    CounterForm(j0 + 1, n);
    Pow2Large(16, 32, 64, 128);
    var high := FromBytes(nonce);
    var c := Counter(j0 + 1, n);
    HighPart(high, j0 + 1, n);
    assert c == high * WRAP + (2 + n) % WRAP;
    ToBytesSplit(high, (2 + n) % WRAP, 12, 4);
    ToFromBytes(nonce);
  }

  lemma HighPart(high: nat, icb: nat, n: nat)
    requires icb == high * WRAP + 2
    ensures icb / WRAP == high && (icb + n) % WRAP == (2 + n) % WRAP
  {
    assert icb + n == WRAP * high + (2 + n);
  }

  /** One byte of the key stream, from the key, the nonce and the position. */
  function StreamByte(key: Bytes, nonce: Bytes, j: nat): Byte
    requires AesCipher.ValidKey(key) && |nonce| == 12
  {
    hide AesCipher.Encrypt, AesCipher.RoundKeys;
    AesCipher.Encrypt(AesCipher.RoundKeys(key), nonce + ToBytes((2 + j / 16) % WRAP, 4))[j % 16]
  }

  /** Every sealed byte is the plain byte xor the key stream, and sixteen bytes of tag follow. */
  lemma SealedByte(key: Bytes, nonce: Bytes, plain: Bytes, aad: Bytes, j: nat)
    requires Seal(key, nonce, plain, aad).Ok? && j < |plain|
    ensures |Seal(key, nonce, plain, aad).value| == |plain| + 16
    ensures Seal(key, nonce, plain, aad).value[j] == Xor(plain[j], StreamByte(key, nonce, j))
  {
    hide Tag, LengthsFit, AesCipher.Encrypt, AesCipher.RoundKeys, Xor, ToBytes, Gctr, KeyByte, CounterBlock, InitialCounter;
    var keys := AesCipher.RoundKeys(key);
    var icb := InitialCounter(nonce) + 1;
    GctrAt(keys, icb, plain, j);
    KeyByteAt(keys, icb, j / 16, j % 16);
    assert j == 16 * (j / 16) + j % 16;
    StreamBlock(nonce, j / 16);
  }

  /** Sealing is refused exactly for a nonce that is not twelve bytes, a wrong key size or lengths that do not fit. */
  lemma SealSucceeds(key: Bytes, nonce: Bytes, plain: Bytes, aad: Bytes)
    ensures Seal(key, nonce, plain, aad).Ok?
            <==> |nonce| == 12 && (|key| == 16 || |key| == 24 || |key| == 32)
                 && 8 * |aad| < 0x1_0000_0000_0000_0000 && 8 * |plain| < 0x1_0000_0000_0000_0000
  {
    hide Tag, Gctr, AesCipher.RoundKeys;
  }
}
