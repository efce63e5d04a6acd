/** AES key expansion and block encryption, sections 5.1 and 5.2 of FIPS 197. */
module AesCipher {
  import opened Bits
  import opened Outcome
  import opened AesTables
  import opened AesRound

  type Word = w: seq<Byte> | |w| == 4 witness [0, 0, 0, 0]

  const RCON: seq<Byte> := [0x01, 0x02, 0x04, 0x08, 0x10, 0x20, 0x40, 0x80, 0x1B, 0x36]

  predicate ValidKey(key: seq<Byte>) {
    |key| == 16 || |key| == 24 || |key| == 32
  }

  // ---- the key schedule ------------------------------------------------------

  function XorWord(a: Word, b: Word): Word {
    [XorByte(a[0], b[0]), XorByte(a[1], b[1]), XorByte(a[2], b[2]), XorByte(a[3], b[3])]
  }

  function SubWord(w: Word): Word {
    [SubByte(w[0]), SubByte(w[1]), SubByte(w[2]), SubByte(w[3])]
  }

  function RotWord(w: Word): Word {
    [w[1], w[2], w[3], w[0]]
  }

  /** Round constants are asked for only at indices the table has. */
  lemma RconInRange(nk: nat, i: nat)
    requires (nk == 4 || nk == 6 || nk == 8) && nk <= i < 4 * (nk + 7)
    ensures 0 <= i / nk - 1 < |RCON|
  {
  }

  /** The word that is added to the one nk places back. */
  function ScheduleTemp(nk: nat, i: nat, prev: Word): Word
    requires (nk == 4 || nk == 6 || nk == 8) && nk <= i < 4 * (nk + 7)
  {
    RconInRange(nk, i);
    if i % nk == 0 then XorWord(SubWord(RotWord(prev)), [RCON[i / nk - 1], 0, 0, 0])
    else if nk > 6 && i % nk == 4 then SubWord(prev)
    else prev
  }

  /** Word i of the schedule, by the recurrence of section 5.2. */
  function KeyWord(key: seq<Byte>, i: nat): Word
    requires ValidKey(key) && i < 4 * (|key| / 4 + 7)
  {
    var nk := |key| / 4;
    if i < nk then key[4 * i..4 * i + 4]
    else XorWord(KeyWord(key, i - nk), ScheduleTemp(nk, i, KeyWord(key, i - 1)))
  }

  function RoundKey(key: seq<Byte>, r: nat): Block
    requires ValidKey(key) && r < |key| / 4 + 7
  {
    KeyWord(key, 4 * r) + KeyWord(key, 4 * r + 1) + KeyWord(key, 4 * r + 2) + KeyWord(key, 4 * r + 3)
  }

  function RoundKeys(key: seq<Byte>): (r: seq<Block>)
    requires ValidKey(key)
    ensures |r| == |key| / 4 + 7
  {
    seq(|key| / 4 + 7, r requires 0 <= r < |key| / 4 + 7 => RoundKey(key, r))
  }

  method MakeTemp(nk: nat, i: nat, prev: Word) returns (temp: Word)
    requires (nk == 4 || nk == 6 || nk == 8) && nk <= i < 4 * (nk + 7)
    ensures temp == ScheduleTemp(nk, i, prev)
  {
    hide SubByte, Xor;
    temp := prev;
    if i % nk == 0 {
      temp := RotWord(temp);
      temp := SubWord(temp);
      RconInRange(nk, i);
      XorZero(temp[1]);
      XorZero(temp[2]);
      XorZero(temp[3]);
      temp := temp[0 := XorByte(temp[0], RCON[i / nk - 1])];
    } else if nk > 6 && i % nk == 4 {
      temp := SubWord(temp);
    }
  }

  lemma KeyWordStart(key: seq<Byte>, i: nat)
    requires ValidKey(key) && i < |key| / 4
    ensures KeyWord(key, i) == key[4 * i..4 * i + 4]
  {
  }

  lemma KeyWordNext(key: seq<Byte>, i: nat)
    requires ValidKey(key) && |key| / 4 <= i < 4 * (|key| / 4 + 7)
    ensures KeyWord(key, i)
            == XorWord(KeyWord(key, i - |key| / 4), ScheduleTemp(|key| / 4, i, KeyWord(key, i - 1)))
  {
    hide XorWord, ScheduleTemp;
  }

  method ExpandWords(key: seq<Byte>) returns (words: seq<Word>)
    requires ValidKey(key)
    ensures |words| == 4 * (|key| / 4 + 7)
    ensures forall k :: 0 <= k < |words| ==> words[k] == KeyWord(key, k)
  {
    hide XorWord, ScheduleTemp, KeyWord;
    var nk := |key| / 4;
    words := [];
    for i := 0 to nk
      invariant |words| == i
      invariant forall k :: 0 <= k < i ==> words[k] == KeyWord(key, k)
    {
      KeyWordStart(key, i);
      words := words + [key[4 * i..4 * i + 4]];
    }
    for i := nk to 4 * (nk + 7)
      invariant |words| == i
      invariant forall k :: 0 <= k < i ==> words[k] == KeyWord(key, k)
    {
      KeyWordNext(key, i);
      var temp := MakeTemp(nk, i, words[i - 1]);
      words := words + [XorWord(words[i - nk], temp)];
    }
  }

  /** The schedule has exactly rounds + 1 keys of sixteen bytes, given by the recurrence. */
  method ExpandKey(key: seq<Byte>) returns (roundKeys: seq<Block>)
    requires ValidKey(key)
    ensures roundKeys == RoundKeys(key)
  {
    hide KeyWord;
    var words := ExpandWords(key);
    roundKeys := [];
    for r := 0 to |key| / 4 + 7
      invariant |roundKeys| == r
      invariant forall k :: 0 <= k < r ==> roundKeys[k] == RoundKey(key, k)
    {
      var bytes: seq<Byte> := words[4 * r];
      bytes := bytes + words[4 * r + 1] + words[4 * r + 2] + words[4 * r + 3];
      roundKeys := roundKeys + [bytes];
    }
  }

  // ---- encryption and its inverse ---------------------------------------------

  /** The state after the initial key addition and rounds 1..r. */
  function Rounds(keys: seq<Block>, s: Block, r: nat): Block
    requires r < |keys|
  {
    if r == 0 then AddKey(s, keys[0])
    else AddKey(MixColumns(ShiftRows(SubBytes(Rounds(keys, s, r - 1)))), keys[r])
  }

  function Encrypt(keys: seq<Block>, s: Block): Block
    requires |keys| >= 2
  {
    var n := |keys| - 1;
    AddKey(ShiftRows(SubBytes(Rounds(keys, s, n - 1))), keys[n])
  }

  function InvRounds(keys: seq<Block>, s: Block, r: nat): Block
    requires r < |keys|
    decreases r
  {
    if r == 0 then AddKey(s, keys[0])
    else InvRounds(keys, InvSubBytes(InvShiftRows(InvMixColumns(AddKey(s, keys[r])))), r - 1)
  }

  function Decrypt(keys: seq<Block>, s: Block): Block
    requires |keys| >= 2
  {
    var n := |keys| - 1;
    InvRounds(keys, InvSubBytes(InvShiftRows(AddKey(s, keys[n]))), n - 1)
  }

  lemma {:induction false} RoundsInverse(keys: seq<Block>, s: Block, r: nat)
    requires r < |keys|
    ensures InvRounds(keys, Rounds(keys, s, r), r) == s
    ensures Rounds(keys, InvRounds(keys, s, r), r) == s
    decreases r
  {
    hide AddKey, SubBytes, InvSubBytes, ShiftRows, InvShiftRows, MixColumns, InvMixColumns;
    if r == 0 {
      AddKeyInverse(s, keys[0]);
    } else {
      var t := Rounds(keys, s, r - 1);
      RoundsInverse(keys, s, r - 1);
      SubBytesInverse(t);
      ShiftRowsInverse(SubBytes(t));
      MixColumnsInverse(ShiftRows(SubBytes(t)));
      AddKeyInverse(MixColumns(ShiftRows(SubBytes(t))), keys[r]);

      var u := AddKey(s, keys[r]);
      AddKeyInverse(s, keys[r]);
      MixColumnsInverse(u);
      ShiftRowsInverse(InvMixColumns(u));
      SubBytesInverse(InvShiftRows(InvMixColumns(u)));
      RoundsInverse(keys, InvSubBytes(InvShiftRows(InvMixColumns(u))), r - 1);
    }
  }

  /** Under every key schedule, encryption is a permutation of the 16-byte blocks. */
  lemma EncryptIsPermutation(keys: seq<Block>, s: Block)
    requires |keys| >= 2
    ensures Decrypt(keys, Encrypt(keys, s)) == s
    ensures Encrypt(keys, Decrypt(keys, s)) == s
  {
    hide AddKey, SubBytes, InvSubBytes, ShiftRows, InvShiftRows, Rounds, InvRounds;
    var n := |keys| - 1;
    var t := Rounds(keys, s, n - 1);
    RoundsInverse(keys, s, n - 1);
    SubBytesInverse(t);
    ShiftRowsInverse(SubBytes(t));
    AddKeyInverse(ShiftRows(SubBytes(t)), keys[n]);

    var u := AddKey(s, keys[n]);
    AddKeyInverse(s, keys[n]);
    ShiftRowsInverse(u);
    SubBytesInverse(InvShiftRows(u));
    RoundsInverse(keys, InvSubBytes(InvShiftRows(u)), n - 1);
  }

  // ---- the program's cipher ------------------------------------------------------

  datatype ValueError = ValueError(message: string)

  datatype Cipher = Cipher(rounds: nat, roundKeys: seq<Block>)

  /** The cipher a valid key yields. */
  function CipherOf(key: seq<Byte>): (c: Cipher)
    requires ValidKey(key)
    ensures c.rounds >= 10 && |c.roundKeys| == c.rounds + 1
  {
    Cipher(|key| / 4 + 6, RoundKeys(key))
  }

  method NewCipher(key: seq<Byte>) returns (r: Result<Cipher, ValueError>)
    ensures ValidKey(key) <==> r.Ok?
    ensures ValidKey(key) ==> r.value == CipherOf(key)
  {
    if !(|key| == 16 || |key| == 24 || |key| == 32) {
      return Err(ValueError("AES key must be 16, 24 or 32 bytes"));
    }
    var keys := ExpandKey(key);
    r := Ok(Cipher(|key| / 4 + 6, keys));
  }

  method AddRoundKey(state: array<Byte>, rk: Block)
    requires state.Length == 16
    modifies state
    ensures state[..] == AddKey(old(state[..]), rk)
  {
    hide Xor;
    for i := 0 to 16
      invariant forall k :: 0 <= k < i ==> state[k] == XorByte(old(state[k]), rk[k])
      invariant forall k :: i <= k < 16 ==> state[k] == old(state[k])
    {
      state[i] := XorByte(state[i], rk[i]);
    }
  }

  method SubstituteBytes(state: array<Byte>)
    requires state.Length == 16
    modifies state
    ensures state[..] == SubBytes(old(state[..]))
  {
    hide SubByte;
    for i := 0 to 16
      invariant forall k :: 0 <= k < i ==> state[k] == SubByte(old(state[k]))
      invariant forall k :: i <= k < 16 ==> state[k] == old(state[k])
    {
      state[i] := SubByte(state[i]);
    }
  }

  /** Position `k` is in the first `c` columns of the row. */
  predicate Turned(k: nat, row: nat, c: nat) {
    k % 4 == row && k / 4 < c
  }

  lemma TurnedNext(row: nat, c: nat)
    requires row < 4 && c < 4
    ensures forall k: nat :: Turned(k, row, c + 1) <==> Turned(k, row, c) || k == row + 4 * c
    ensures !Turned(row + 4 * c, row, c)
  {
  }

  lemma TurnedEnds(row: nat)
    ensures forall k: nat :: !Turned(k, row, 0)
    ensures forall k: nat :: k < 16 ==> (Turned(k, row, 4) <==> k % 4 == row)
  {
  }

  method RotateRow(state: array<Byte>, row: nat)
    requires state.Length == 16 && 1 <= row < 4
    modifies state
    ensures forall k :: 0 <= k < 16 ==>
              state[k] == if k % 4 == row then old(state[ShiftSource(k)]) else old(state[k])
  {
    hide ShiftSource, Turned;
    TurnedEnds(row);
    var tmp := [state[row], state[row + 4], state[row + 8], state[row + 12]];
    for c := 0 to 4
      invariant forall k :: 0 <= k < 16 ==>
                  state[k] == if Turned(k, row, c) then old(state[ShiftSource(k)]) else old(state[k])
    {
      SourceOf(row, c);
      TurnIsModular(c, row);
      TurnedNext(row, c);
      state[row + 4 * c] := tmp[(c + row) % 4];
    }
  }

  method RotateRows(state: array<Byte>)
    requires state.Length == 16
    modifies state
    ensures state[..] == ShiftRows(old(state[..]))
  {
    hide ShiftSource;
    forall k | 0 <= k < 16 && k % 4 == 0 ensures ShiftSource(k) == k {
      SourceOf(0, k / 4);
    }
    for row := 1 to 4
      invariant forall k :: 0 <= k < 16 ==>
                  state[k] == if k % 4 < row then old(state[ShiftSource(k)]) else old(state[k])
    {
      RotateRow(state, row);
    }
  }

  /** The four sums in the order the program writes them. */
  lemma MixOrders(a: nat, b: nat, p: nat, q: nat)
    ensures Xor(Xor(Xor(a, p), q), b) == Xor(Xor(Xor(p, q), b), a)
    ensures Xor(Xor(Xor(a, b), p), q) == Xor(Xor(Xor(p, q), a), b)
    ensures Xor(Xor(Xor(q, a), b), p) == Xor(Xor(Xor(p, q), a), b)
  {
    hide Xor;
    XorAssoc(a, p, q);
    XorAssoc(a, Xor(p, q), b);
    XorComm(a, Xor(Xor(p, q), b));
    XorAssoc(Xor(a, b), p, q);
    XorComm(Xor(a, b), Xor(p, q));
    XorAssoc(Xor(p, q), a, b);
    XorComm(Xor(Xor(q, a), b), p);
    XorAssoc(p, Xor(q, a), b);
    XorAssoc(p, q, a);
  }

  method MixOneColumn(x: Column) returns (y: Column)
    ensures y == MixColumn(x)
  {
    hide Xor;
    var a2 := Mul(x.a, 2);
    var a3 := Mul(x.a, 3);
    var b2 := Mul(x.b, 2);
    var b3 := Mul(x.b, 3);
    var c2 := Mul(x.c, 2);
    var c3 := Mul(x.c, 3);
    var d2 := Mul(x.d, 2);
    var d3 := Mul(x.d, 3);
    MixOrders(x.a, x.d, b2, c3);
    MixOrders(x.a, x.b, c2, d3);
    MixOrders(x.b, x.c, d2, a3);
    y := Column(XorByte(XorByte(XorByte(a2, b3), x.c), x.d),
                XorByte(XorByte(XorByte(x.a, b2), c3), x.d),
                XorByte(XorByte(XorByte(x.a, x.b), c2), d3),
                XorByte(XorByte(XorByte(a3, x.b), x.c), d2));
  }

  method MixAllColumns(state: array<Byte>)
    requires state.Length == 16
    modifies state
    ensures state[..] == MixColumns(old(state[..]))
  {
    hide MixColumn, MixColumns;
    ghost var before := state[..];
    ghost var goal := MixColumns(before);
    for c := 0 to 4
      invariant forall k :: 0 <= k < 4 * c ==> state[k] == goal[k]
      invariant forall k :: 4 * c <= k < 16 ==> state[k] == before[k]
    {
      var mixed := MixOneColumn(Column(state[4 * c], state[4 * c + 1], state[4 * c + 2], state[4 * c + 3]));
      ColumnMixed(before, c);
      state[4 * c] := mixed.a;
      state[4 * c + 1] := mixed.b;
      state[4 * c + 2] := mixed.c;
      state[4 * c + 3] := mixed.d;
    }
  }

  /** `encrypt_block` computes Encrypt and rejects every other block length. */
  method EncryptBlock(cipher: Cipher, block: seq<Byte>) returns (r: Result<Block, ValueError>)
    requires cipher.rounds >= 1 && |cipher.roundKeys| == cipher.rounds + 1
    ensures r.Ok? <==> |block| == 16
    ensures |block| == 16 ==> r.value == Encrypt(cipher.roundKeys, block)
  {
    hide AddKey, SubBytes, ShiftRows, MixColumns;
    if |block| != 16 {
      return Err(ValueError("AES operates on 16-byte blocks"));
    }
    ghost var s: Block := block;
    var state := new Byte[16](i requires 0 <= i < 16 => block[i]);
    assert state[..] == s;
    AddRoundKey(state, cipher.roundKeys[0]);
    for round := 1 to cipher.rounds
      invariant state[..] == Rounds(cipher.roundKeys, s, round - 1)
    {
      SubstituteBytes(state);
      RotateRows(state);
      MixAllColumns(state);
      AddRoundKey(state, cipher.roundKeys[round]);
    }
    SubstituteBytes(state);
    RotateRows(state);
    AddRoundKey(state, cipher.roundKeys[cipher.rounds]);
    var out: Block := state[..];
    r := Ok(out);
  }
}
