/** Capacity tables of the QR encoder, versions 1 to 40, levels L and M. */
module QrTables {

  datatype Level = Low | Medium

  type Version = v: int | 1 <= v <= 40 witness 1

  function Pick(i: int, v0: nat, v1: nat, v2: nat, v3: nat, v4: nat,
                v5: nat, v6: nat, v7: nat, v8: nat, v9: nat): nat {
    if i < 5 then (if i < 2 then (if i < 1 then v0 else v1) else (if i < 3 then v2 else if i < 4 then v3 else v4))
    else (if i < 7 then (if i < 6 then v5 else v6) else (if i < 8 then v7 else if i < 9 then v8 else v9))
  }

  /** Total codewords of a version. */
  function TotalCodewords(version: Version): nat {
    if version <= 10 then Pick(version - 1, 26, 44, 70, 100, 134, 172, 196, 242, 292, 346)
    else if version <= 20 then Pick(version - 11, 404, 466, 532, 581, 655, 733, 815, 901, 991, 1085)
    else if version <= 30 then Pick(version - 21, 1156, 1258, 1364, 1474, 1588, 1706, 1828, 1921, 2051, 2185)
    else Pick(version - 31, 2323, 2465, 2611, 2761, 2876, 3034, 3196, 3362, 3462, 3606)
  }

  /** Error-correction codewords in each block. */
  function EccPerBlock(level: Level, version: Version): nat {
    match level
    case Low =>
      if version <= 10 then Pick(version - 1, 7, 10, 15, 20, 26, 18, 20, 24, 30, 18)
      else if version <= 20 then Pick(version - 11, 20, 24, 26, 30, 22, 24, 28, 30, 28, 28)
      else if version <= 30 then Pick(version - 21, 28, 28, 30, 30, 26, 28, 30, 30, 30, 30)
      else Pick(version - 31, 30, 30, 30, 30, 30, 30, 30, 30, 30, 30)
    case Medium =>
      if version <= 10 then Pick(version - 1, 10, 16, 26, 18, 24, 16, 18, 22, 22, 26)
      else if version <= 20 then Pick(version - 11, 30, 22, 22, 24, 24, 28, 24, 28, 28, 26)
      else if version <= 30 then Pick(version - 21, 28, 28, 28, 28, 28, 28, 28, 28, 28, 28)
      else Pick(version - 31, 28, 28, 28, 28, 28, 28, 28, 28, 28, 28)
  }

  /** Number of blocks. */
  function NumBlocks(level: Level, version: Version): nat {
    match level
    case Low =>
      if version <= 10 then Pick(version - 1, 1, 1, 1, 1, 1, 2, 2, 2, 2, 4)
      else if version <= 20 then Pick(version - 11, 4, 4, 4, 4, 6, 6, 6, 6, 7, 8)
      else if version <= 30 then Pick(version - 21, 8, 9, 9, 10, 12, 12, 12, 13, 14, 15)
      else Pick(version - 31, 16, 17, 18, 19, 19, 20, 21, 22, 24, 25)
    case Medium =>
      if version <= 10 then Pick(version - 1, 1, 1, 1, 2, 2, 4, 4, 4, 5, 5)
      else if version <= 20 then Pick(version - 11, 5, 8, 9, 9, 10, 10, 11, 13, 14, 16)
      else if version <= 30 then Pick(version - 21, 17, 17, 18, 20, 21, 23, 25, 26, 28, 29)
      else Pick(version - 31, 31, 33, 35, 37, 38, 40, 43, 45, 47, 49)
  }

  function DataCodewords(version: Version, level: Level): int {
    TotalCodewords(version) - EccPerBlock(level, version) * NumBlocks(level, version)
  }

  /** Width of the byte count field. */
  function CountBits(version: Version): nat {
    if version <= 9 then 8 else 16
  }

  predicate Fits(version: Version, level: Level, nbytes: nat) {
    4 + CountBits(version) + 8 * nbytes <= DataCodewords(version, level) * 8
  }

  lemma LowFacts(version: Version)
    ensures EccPerBlock(Low, version) >= 7 && NumBlocks(Low, version) >= 1
    ensures EccPerBlock(Low, version) <= 30
    ensures 19 <= DataCodewords(version, Low) <= 4000
    ensures version <= 9 ==> DataCodewords(version, Low) < 256
  {
  }

  lemma MediumFacts(version: Version)
    ensures EccPerBlock(Medium, version) >= 7 && NumBlocks(Medium, version) >= 1
    ensures EccPerBlock(Medium, version) <= 30
    ensures 16 <= DataCodewords(version, Medium) <= 4000
    ensures version <= 9 ==> DataCodewords(version, Medium) < 256
  {
  }

  /** What the encoder relies on about every entry. */
  lemma TableFacts(version: Version, level: Level)
    ensures 7 <= EccPerBlock(level, version) <= 30 && NumBlocks(level, version) >= 1
    ensures 16 <= DataCodewords(version, level) <= 4000
    ensures version <= 9 ==> DataCodewords(version, level) < 256
  {
    hide *;
    if level == Low {
      LowFacts(version);
    } else {
      MediumFacts(version);
    }
  }

  lemma LowBlocks(version: Version)
    ensures DataCodewords(version, Low) <= 200 * NumBlocks(Low, version)
  {
  }

  lemma MediumBlocks(version: Version)
    ensures DataCodewords(version, Medium) <= 200 * NumBlocks(Medium, version)
  {
  }

  /** No block is longer than a Reed-Solomon code over bytes allows. */
  lemma BlockSizes(version: Version, level: Level)
    ensures DataCodewords(version, level) <= 200 * NumBlocks(level, version)
  {
    hide *;
    if level == Low {
      LowBlocks(version);
    } else {
      MediumBlocks(version);
    }
  }
}
