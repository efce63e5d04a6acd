# Verified model of a VPN control panel

This project models the parts of the panel that carry the hardest guarantees and proves them for every
input, every run and every reachable state. It covers eight systems.

* **QR codes** (`app/cores/qr.py`). `QrField`, `ReedSolomon` and `RsDistance` hold the arithmetic of GF(256)
  and of polynomials over it; `QrTables`, `QrData`, `QrBlocks`, `QrGeometry`, `QrMatrix`, `QrBch` and `QrCapacity`
  follow the encoder from payload to modules; `QrCode` adds a reader and proves that it recovers every
  payload from every symbol the encoder draws, each of whose modules is pinned;
  `QrCorrection` reads damaged symbols. `QrMasks`, `QrPatterns` and `QrStream` say the same symbol in rows, columns,
  pictures, half bytes and stream positions; `QrFilling` counts the data modules of every version.
* **AES-GCM** (`app/crypto/aesgcm.py`). `AesTables`, `AesSbox`, `AesRound`, `AesCipher`, `ReflectedField`, `BigEndian`
  and `Gcm` model the pure-Python cipher after FIPS 197 and SP 800-38D. `AesSchedule` has the key schedule and the
  rounds byte by byte; `GcmTag` proves what the tag covers and exactly when a changed message keeps it.
* **Application authority** (`app/applicationapi/repository.py`). `AuthorityTables` and `AuthoritySteps` are
  the tables and the committed transactions, `AuthoritySweep` the reconciliation pass, `AuthorityRepository`
  the same transactions updating tables in place. `AuthorityChains`, `AuthorityRows`, `AuthorityRuns`,
  `AuthoritySafety`, `AuthorityRevocations` and `AuthorityLapses` prove the invariants over every interleaving;
  `AuthorityStanding` says field by field who is let through and `AuthorityEffects` what each row becomes. A refresh
  rotation is two steps, a read and a conditional claim, so any number of workers can interleave between
  them. Administrative revocations are two steps each because the code commits twice.
* **Builds** (`app/builder/repository.py`): `Builds`, `BuildRows`, `BuildRecords`.
* **Usage accounting** (`app/cores/stats.py`, `app/cores/quota.py`): `UsageCounters`, `Quota`,
  `UsageConservation`.
* **Client refresh tokens** (`app/clientapi/service.py`, `app/clientapi/stores.py`): `ClientTokens`,
  `ClientLifetimes`.
* **Consolidation and database merge** (`app/cores/consolidation.py`, `app/dbmerge.py`): `Consolidation`,
  `ConsolidationAccess`, `DbMerge`.
* **Paged usage history** (`app/applicationapi/connection_service.py`): `UsagePages`, `Ordering`.

`Basics`, `Bits`, `ByteField`, `Decimals` and `Outcome` are shared. Clocks, random secrets, fresh identifiers and the
mask score are parameters. `dafny verify dfyconfig.toml` checks everything.

Where the code and its own words differ, the model follows the code:

* the module text of `app/dbmerge.py` says the legacy database is never touched; the code retires it once
  the marker is committed, and that is what is modelled;
* the sweep is said to converge after a crash following any revocation
  (app/applicationapi/repository.py:2457-2459). It looks at the presence of a user grant, not at its status, so
  a crash between the two commits of `revoke_user_grant` leaves a context that is refused and a lease that no
  pass returns: `AuthorityRevocations.CrashBetweenCommits` is such a state,
  `AuthorityRevocations.FirstCommitIsNotSeen` shows that the first commit never changes what is due, and
  `AuthorityRevocations.UserGrantRevocationIsSeen` that the second one always does;
* a connection reused by a reservation keeps the user it was opened for. If its device has changed hands the new
  lease has no authority at once: `AuthoritySafety.ReservedLeaseAuthority` gives the exact condition, and
  `AuthoritySafety.OwnersKeptForever` shows that it cannot arise while devices keep their owners, which is all the
  program's own inserts do;
* the refresh grace is said to be one-shot per chain (app/clientapi/service.py:165-168); it is one-shot per token:
  `ClientTokens.GraceTwiceInOneLogin` has one login served in grace twice. What holds exactly is
  `ClientTokens.GraceLeavesOneToken`: of all tokens of the login, only the one a grace answer issues can ever be
  answered again;
* a QR mask from -8 to -1 is accepted, because Python counts list indices from the end, but the format word then no
  longer names the level (`QrCode.WordNamesLevel`): it carries level code 3, which the reader of this project, made
  for levels L and M, refuses (`QrCode.NegativeMaskLosesLevel`);
* the capacity table of the QR encoder is said to be that of the standard. In versions 1 to 38 the codewords fill the
  data modules with fewer than eight left over; the entries for versions 39 and 40 leave 560 and 800 modules that
  carry the mask only, as many as 70 and 100 more codewords. `QrFilling.CodewordsFillIff` is the exact statement, for
  all versions, and `QrFilling.DataModules` the number of data modules it rests on;
* a build number taken by another request is meant to be reported as a conflict; it fails at a flush outside the
  handler, so the database error escapes (`BuildRecords.CreateBuild`);
* a lease that was torn down and is then completed late stays active for ever, because nothing clears its removal
  time (`AuthorityRevocations.LateCompletionEscapes`). A completed lease can be swept later exactly when it had not
  been torn down before (`AuthorityRevocations.CompletedLeaseSweepable`);
* counters are described as losing nothing across resets; a reset that clears unread bytes, or whose counter
  has outgrown its baseline again by the next reading, does lose bytes. `UsageCounters.ExactIffResetsShow`
  gives the exact condition, `UsageCounters.UnreadResetUnderReports` and `UsageCounters.HiddenResetUnderReports`
  an input for each kind of loss;
* unknown cores are said to pass through consolidation untouched; a core id that contains a colon can be
  caught by the rename of another core. `ConsolidationAccess.OtherAccessIff` gives the exact condition;
* access is preserved by consolidation unless a grant dangles: a grant of a tag that its core does not have reaches
  whatever inbound carries that tag afterwards (`ConsolidationAccess.MergedAccess`,
  `ConsolidationAccess.ExistingAccess`);
* a build created with no targets can be cancelled at progress 0 with no cancelled job.
  `Builds.EndsTogetherIffTargets` shows that having a target is the exact condition; the service layer in
  front of the repository asks for one.

## Model

| member | source | states |
|---|---|---|
| `ByteField.ProductAssoc` | app/crypto/aesgcm.py:59-67 | shift-and-xor multiplication of bytes is associative for every reduction polynomial |
| `ByteField.ProductComm` | app/crypto/aesgcm.py:59-67 | and commutative |
| `ByteField.ProductXorLeft` | app/crypto/aesgcm.py:59-67 | and distributes over xor |
| `QrField.AlphaOrder` | app/cores/qr.py:107-123 | the element 2 has order exactly 255 modulo 0x11D |
| `QrField.Discrete` | app/cores/qr.py:107-123 | every non-zero byte is a power of 2 |
| `QrField.BuildTables` | app/cores/qr.py:107-123 | the exp table lists the powers of 2 over 512 places and the log table inverts it on non-zero bytes |
| `QrField.GfMul` | app/cores/qr.py:125-128 | multiplication through the tables is multiplication in the field |
| `ReedSolomon.EvalTimes` | app/cores/qr.py:131-141 | evaluation turns products of polynomials into products of values |
| `ReedSolomon.GeneratorRoots` | app/cores/qr.py:131-141 | the generator of degree d vanishes exactly at alpha^0 to alpha^(d-1) |
| `ReedSolomon.TimesRoot` | app/cores/qr.py:131-141 | one pass of the generator loop multiplies by (x + root) |
| `ReedSolomon.RsGenerator` | app/cores/qr.py:131-141 | the loop builds the product of the d linear factors |
| `ReedSolomon.RemainderDivides` | app/cores/qr.py:144-153 | data followed by its remainder is the quotient times the generator |
| `ReedSolomon.RemainderUnique` | app/cores/qr.py:144-153 | and no other remainder of that length makes it a multiple |
| `ReedSolomon.CodewordVanishes` | app/cores/qr.py:144-153 | data followed by its remainder evaluates to zero at all d roots (section 7.5 of ISO/IEC 18004:2015) |
| `ReedSolomon.RsRemainder` | app/cores/qr.py:144-153 | the in-place division loop computes that remainder |
| `RsDistance.Vandermonde` | app/cores/qr.py:144-153 | as many vanishing power sums as terms of distinct degrees force every coefficient to be zero |
| `RsDistance.MinimumDistance` | app/cores/qr.py:144-153 | two distinct codewords of one length, at most 255, with d error-correction bytes differ in at least d + 1 places |
| `RsDistance.UniqueCorrection` | app/cores/qr.py:144-153 | at most d / 2 wrong bytes leave exactly one codeword in reach |
| `RsDistance.BlocksFarApart` | app/cores/qr.py:144-153 | blocks of different data, with their remainders, are that far apart |
| `QrCorrection.CorrectedIs` | app/cores/qr.py:144-153 | the codeword within half the distance of a received word is unique, so correction finds it |
| `QrTables.TableFacts` | app/cores/qr.py:42-97 | bounds on the tables, and counts that fit the eight-bit length field up to version 9 |
| `QrData.BitBuffer.Put` | app/cores/qr.py:188-201 | appends exactly the low bits of the value, highest first |
| `QrData.BitBuffer.ToBytes` | app/cores/qr.py:188-201 | packs the bits eight to a byte |
| `QrData.PackUnpack` | app/cores/qr.py:188-201 | unpacking and packing bytes is the identity |
| `QrData.EncodeData` | app/cores/qr.py:204-218 | mode, count, payload, terminator, byte boundary and alternating padding |
| `QrData.ReadEncoded` | app/cores/qr.py:204-218 | reading mode, count and bytes back from the data codewords returns the payload |
| `QrStream.ModeNibble` | app/cores/qr.py:204-208 | the data codewords start with the half byte 4 |
| `QrStream.CountNibbles` | app/cores/qr.py:204-208 | the next two half bytes, four from version 10 on, spell the payload length |
| `QrStream.PayloadNibbles` | app/cores/qr.py:209-212 | then come the half bytes of the payload in order and a zero half byte |
| `QrStream.PaddingBytes` | app/cores/qr.py:213-218 | all further codewords are 0xEC and 0x11 in turn |
| `QrStream.FitsIff` | app/cores/qr.py:165-171 | a payload fits exactly when it leaves two data codewords free, three from version 10 on |
| `QrBlocks.LayoutFacts` | app/cores/qr.py:221-254 | every version and level splits into whole blocks that use all codewords |
| `QrBlocks.SplitBlocks` | app/cores/qr.py:221-254 | the blocks partition the data in order and carry their Reed-Solomon remainders |
| `QrBlocks.AddEccAndInterleave` | app/cores/qr.py:221-254 | the interleaving loops produce the codeword sequence that the reader undoes |
| `QrBlocks.ReadInterleaved` | app/cores/qr.py:221-254 | de-interleaving returns the data |
| `QrStream.InterleavedAt` | app/cores/qr.py:230-250 | position blocks * i + j of the codewords holds byte i of block j, found in the data by the number and length of the blocks before it |
| `QrStream.InterleavedLast` | app/cores/qr.py:230-250 | the last data row holds the extra byte of the longer blocks, which come last |
| `QrStream.InterleavedEcc` | app/cores/qr.py:239-253 | the error correction bytes follow, interleaved alike, each block with the remainder of its own data |
| `QrBlocks.BlockIsCodeword` | app/cores/qr.py:221-254 | every de-interleaved block with its error correction vanishes at all roots |
| `QrCorrection.CorrectionRestores` | app/cores/qr.py:221-254 | if no block has more wrong bytes than half its error correction bytes, correcting the blocks restores the data |
| `QrCorrection.BlocksFit` | app/cores/qr.py:42-97 | in every version and level a block with its error correction is at most 255 bytes long |
| `QrGeometry.StepIsNew` | app/cores/qr.py:368-390 | the zigzag never visits a module twice |
| `QrGeometry.DataCellsInside` | app/cores/qr.py:368-390 | data modules lie inside the symbol and outside function patterns |
| `QrGeometry.EveryModule` | app/cores/qr.py:368-390 | every module is a function module or a data module of the zigzag |
| `QrCapacity.CapacitySuffices` | app/cores/qr.py:305-390 | in all 40 versions the free modules number at least eight times the codewords |
| `QrFilling.DataModules` | app/cores/qr.py:305-390 | the exact number of data modules of every version |
| `QrFilling.CodewordsFillIff` | app/cores/qr.py:41-47 | the codewords leave fewer than eight data modules unfilled exactly in versions 1 to 38; 560 stay unfilled in version 39 and 800 in version 40 |
| `QrMatrix.ComputeFormatBits` | app/cores/qr.py:264-269 | the shift register loop computes the format word |
| `QrMatrix.ComputeVersionBits` | app/cores/qr.py:272-276 | the shift register loop computes the version word |
| `QrBch.FormatIsCodeword` | app/cores/qr.py:264-269 | unmasked, every format word is a multiple of its BCH generator polynomial |
| `QrBch.VersionIsCodeword` | app/cores/qr.py:272-276 | every version word is a multiple of its BCH generator polynomial |
| `QrMatrix.MatrixBuilder.DrawFinder` | app/cores/qr.py:329-335 | colours exactly the finder square and its separator, clipped to the symbol, and reserves it |
| `QrMatrix.MatrixBuilder.DrawAlignment` | app/cores/qr.py:337-340 | colours exactly the five by five square and reserves it |
| `QrMatrix.MatrixBuilder.DrawTiming` | app/cores/qr.py:305-312 | colours and reserves exactly the modules of row and column 6 between the finders |
| `QrMatrix.MatrixBuilder.DrawFormat` | app/cores/qr.py:342-356 | writes both copies of the format word and the dark module, nothing else |
| `QrMatrix.MatrixBuilder.DrawFormatWord` | app/cores/qr.py:342-356 | reserves exactly the format area and gives each of its modules the colour of its bit in both copies |
| `QrMatrix.MatrixBuilder.DrawVersion` | app/cores/qr.py:358-366 | writes both copies of the version word, nothing else |
| `QrMatrix.MatrixBuilder.DrawVersionWord` | app/cores/qr.py:358-366 | the same for the version area |
| `QrMatrix.MatrixBuilder.DrawFunctionPatterns` | app/cores/qr.py:305-327 | the reserved modules are exactly the function patterns of the version, each in its colour: finders, timing, alignment squares, format and version words |
| `QrMatrix.MatrixBuilder.constructor` | app/cores/qr.py:292-298 | a new builder has the function patterns reserved and coloured and all else light |
| `QrMatrix.MatrixBuilder.DrawData` | app/cores/qr.py:368-390 | the k-th free module of the zigzag holds bit k of the codewords xor the mask, and reserved modules keep their colours; what the zigzag and each mask are is stated by the `QrPatterns` and `QrMasks` rows |
| `QrMasks.SumMasks` | app/cores/qr.py:279-284 | against the unmasked bits, a drawn data module is toggled exactly when row and column have equal parity (mask 0), the row is even (1), the column is a multiple of 3 (2), row plus column is one (3), or the numbers of its two-row and three-column bands have equal parity (4) |
| `QrMasks.ProductMasks` | app/cores/qr.py:285-287 | or when row times column is a multiple of 6 (mask 5), leaves less than 3 modulo 6 (6), or row plus column is odd exactly when the product leaves 1 modulo 3 (7) |
| `QrMasks.MaskOneIsRows` | app/cores/qr.py:279-288 | mask 1 toggles whole rows, one of any two neighbours |
| `QrMasks.MaskTwoIsColumns` | app/cores/qr.py:279-288 | mask 2 toggles whole columns, with period 3 |
| `QrMasks.MaskFourIsBlocks` | app/cores/qr.py:279-288 | mask 4 is constant on blocks two rows high and three columns wide, and blocks that share a side differ |
| `QrMasks.MaskIsSymmetric` | app/cores/qr.py:279-288 | masks 0, 3, 5, 6 and 7 treat a module and its mirror image in the diagonal alike |
| `QrMasks.CornerIsMasked` | app/cores/qr.py:279-288 | every mask toggles the corner |
| `QrMasks.NegativeMaskToggles` | app/cores/qr.py:368-390 | a negative mask toggles as the one eight higher |
| `QrMasks.MaskShows` | app/cores/qr.py:264-269 | no symbol is that of two different masks |
| `QrPatterns.WalkStarts` | app/cores/qr.py:368-390 | the walk starts in the bottom right corner |
| `QrPatterns.WalkWithinPair` | app/cores/qr.py:374-380 | it takes the right module of a row, then the left one, then the next row away from where the column pair began |
| `QrPatterns.WalkTurns` | app/cores/qr.py:368-390 | at the end of a pair it turns into the next two columns in the same row, stepping over column 6 |
| `QrPatterns.DataOrder` | app/cores/qr.py:381-389 | the number of a data module is the count of data modules the walk met before it |
| `QrPatterns.FunctionModules` | app/cores/qr.py:305-366 | the function modules are the corner blocks, row and column 6, the version blocks from version 7 on, and the squares of the alignment centres outside the corners |
| `QrPatterns.AlignmentCentres` | app/cores/qr.py:82-97 | the alignment centres of every version: 6, then evenly spaced back from the one six modules off the far edge |
| `QrPatterns.FinderPicture` | app/cores/qr.py:329-335 | the three corners of every drawn symbol, module by module as a picture |
| `QrPatterns.AlignmentPicture` | app/cores/qr.py:337-340 | the square around every alignment centre as a picture |
| `QrPatterns.TimingPicture` | app/cores/qr.py:309-312 | row and column 6 alternate between the finders, through the alignment squares as well |
| `QrPatterns.FormatPlaces` | app/cores/qr.py:342-356 | row and column of every bit of the format word in both copies |
| `QrPatterns.FormatWord` | app/cores/qr.py:264-269 | the format word without its mask is a codeword that starts with level and mask |
| `QrPatterns.PlainWord` | app/cores/qr.py:261-269 | for level M and mask 0 it is 0x5412 |
| `QrPatterns.VersionPlaces` | app/cores/qr.py:358-366 | row and column of every bit of the version word in both copies |
| `QrPatterns.VersionWord` | app/cores/qr.py:272-276 | the version word is a codeword that starts with the version |
| `QrCode.FormatIsFunction` | app/cores/qr.py:342-356 | drawing the format word later touches no data module and no other pattern |
| `QrCode.DrawSymbol` | app/cores/qr.py:469-517 | a drawn symbol carries the masked codewords in its data modules and the right colour in every function module |
| `QrCode.SymbolUnique` | app/cores/qr.py:469-517 | that pins every module: version, level, mask and codewords determine the symbol |
| `QrCode.FormatCopies` | app/cores/qr.py:342-356 | both copies of the format word hold its bits and the dark module is dark |
| `QrCode.DecodeSymbol` | app/cores/qr.py:204-254 | for every version, level, mask and payload that fits, reading a drawn symbol returns the payload |
| `QrCorrection.DamagedSymbolReads` | app/cores/qr.py:204-254 | any symbol of that size and format word whose blocks are damaged no more than that is read back to the payload |
| `QrCode.WordNamesLevel` | app/cores/qr.py:264-269 | the format word tells the two levels apart exactly when the mask is not negative |
| `QrCode.NegativeMaskLosesLevel` | app/cores/qr.py:264-269 | with a mask from -8 to -1 the word carries level code 3 and the mask that was applied, whatever the level, and the reader of this project, which knows levels L and M, refuses it |
| `QrCode.SelectVersion` | app/cores/qr.py:174-181 | the smallest version that fits, or none does |
| `QrCode.ChooseVersion` | app/cores/qr.py:469-517 | the asked version, the smallest one at the asked level, or the smallest one at level L when none fits there |
| `QrCode.BestSymbol` | app/cores/qr.py:469-517 | for any score, the first of the eight masks with the smallest score |
| `QrCode.EncodeMatrix` | app/cores/qr.py:469-517 | every payload that fits is encoded with the asked mask or the first best one; the reader of this project returns it exactly when the mask is automatic or from 0 to 7; exactly the empty payload, the oversized one and masks outside -8 to 7 are refused; the drawn grid is the symbol that the `QrMasks`, `QrPatterns` and `QrStream` rows describe |
| `AesTables.SubByteInverse` | app/crypto/aesgcm.py:28-45 | the substitution box is a bijection with an explicit inverse |
| `AesSbox.SboxIsAffineInverse` | app/crypto/aesgcm.py:28-45 | the box maps zero to the affine image of zero and every other byte to that of its field inverse (section 5.1.1 of FIPS 197) |
| `AesSbox.InverseExists` | app/crypto/aesgcm.py:28-45 | every non-zero byte has a field inverse |
| `AesSbox.AffineBits` | app/crypto/aesgcm.py:28-45 | the affine map bit by bit: five bits of the argument and one of 0x63 |
| `AesRound.TimesTwoThree` | app/crypto/aesgcm.py:52-67 | doubling and tripling are the field products by 2 and 3 |
| `AesRound.Mul` | app/crypto/aesgcm.py:59-67 | the loop computes the field product (section 4.2 of FIPS 197) |
| `AesRound.ShiftRowsInverse` | app/crypto/aesgcm.py:113-118 | row rotation has an explicit inverse |
| `AesRound.MixOrderFour` | app/crypto/aesgcm.py:120-130 | mixing a column four times is the identity |
| `AesRound.MixColumnsInverse` | app/crypto/aesgcm.py:120-130 | hence column mixing has an inverse on both sides |
| `AesCipher.RconInRange` | app/crypto/aesgcm.py:81-97 | every round constant index of the schedule exists |
| `AesCipher.ExpandKey` | app/crypto/aesgcm.py:81-97 | exactly rounds + 1 keys of sixteen bytes, the words of the schedule; `AesSchedule.ScheduleBytes` states their bytes |
| `AesSchedule.ScheduleBytes` | app/crypto/aesgcm.py:81-97 | every byte of the expanded key by the recurrence of section 5.2 of FIPS 197: at multiples of the key length the rotated, substituted word and a power of x in the field, the middle substitution of 256-bit keys, and the plain sum |
| `AesSchedule.RconPowers` | app/crypto/aesgcm.py:81-97 | the round constants are the powers of x |
| `AesSchedule.WindowDetermines` | app/crypto/aesgcm.py:81-97 | as many consecutive words of the schedule as the key has determine the key |
| `AesCipher.NewCipher` | app/crypto/aesgcm.py:73-79 | accepts exactly keys of 16, 24 or 32 bytes |
| `AesCipher.AddRoundKey` | app/crypto/aesgcm.py:104-107 | adds the round key to the state in place |
| `AesCipher.SubstituteBytes` | app/crypto/aesgcm.py:109-111 | substitutes every byte of the state in place |
| `AesCipher.RotateRows` | app/crypto/aesgcm.py:113-118 | rotates row r left by r columns in place |
| `AesCipher.MixAllColumns` | app/crypto/aesgcm.py:120-130 | mixes the four columns in place |
| `AesCipher.EncryptBlock` | app/crypto/aesgcm.py:99-137 | the in-place rounds compute the cipher; any other block length is refused |
| `AesSchedule.FirstBytes` | app/crypto/aesgcm.py:99-107 | the first round key is added to the block |
| `AesSchedule.RoundByte` | app/crypto/aesgcm.py:99-137 | every byte of every round: 2 and 3 times two bytes of its column, the two others, and the key, each byte taken from row r and column c + r |
| `AesSchedule.LastBytes` | app/crypto/aesgcm.py:131-137 | the last round leaves out the mixing |
| `AesCipher.EncryptIsPermutation` | app/crypto/aesgcm.py:99-137 | for all round keys, encryption is a permutation of blocks with an explicit inverse |
| `ReflectedField.MulComm` | app/crypto/aesgcm.py:147-159 | multiplication in the reflected field is commutative |
| `ReflectedField.MulXorLeft` | app/crypto/aesgcm.py:147-159 | and linear over xor |
| `ReflectedField.MulAssoc` | app/crypto/aesgcm.py:147-159 | and associative |
| `ReflectedField.MulIsPolynomialProduct` | app/crypto/aesgcm.py:147-159 | it is the polynomial product reduced modulo the field polynomial, lowest degree first |
| `Gcm.ResidueIsGcmPolynomial` | app/crypto/aesgcm.py:147-159 | the reduction constant stands for x^128 + x^7 + x^2 + x + 1 |
| `Gcm.FieldMul` | app/crypto/aesgcm.py:147-159 | the shift loop computes that product |
| `Gcm.ComputeGhash` | app/crypto/aesgcm.py:162-169 | the loop folds the padded blocks |
| `Gcm.GhashIsPolynomial` | app/crypto/aesgcm.py:162-169 | GHASH is the polynomial in h with the padded blocks as coefficients (section 6.4 of SP 800-38D) |
| `Gcm.CountersCollide` | app/crypto/aesgcm.py:172-182 | two counters coincide exactly when their numbers agree modulo 2^32 |
| `Gcm.CounterBlocksDistinct` | app/crypto/aesgcm.py:172-182 | up to 2^32 - 2 blocks, counter blocks are pairwise distinct and differ from J0 |
| `Gcm.ComputeGctr` | app/crypto/aesgcm.py:172-182 | the loop xors every byte with its byte of the key stream |
| `Gcm.GctrInvolution` | app/crypto/aesgcm.py:172-182 | counter mode undoes itself |
| `Gcm.HashInputInjective` | app/crypto/aesgcm.py:208-215 | the padded hash input determines the associated data and the ciphertext while both lengths fit |
| `GcmTag.HashedBlocks` | app/crypto/aesgcm.py:208-215 | the hashed blocks are those of the associated data, those of the ciphertext, and the two lengths in bits |
| `GcmTag.TagByte` | app/crypto/aesgcm.py:208-216 | every byte of the tag: the polynomial of those blocks at the encrypted zero block, xor the encryption of J0 |
| `GcmTag.TagsEqualIffRoot` | app/crypto/aesgcm.py:208-243 | two messages under one key and nonce have equal tags exactly when the hash key is a root of the polynomial of their difference |
| `GcmTag.DifferenceNonzero` | app/crypto/aesgcm.py:208-243 | the difference of two different messages has a non-zero block |
| `GcmTag.ForgeryIffRoot` | app/crypto/aesgcm.py:221-248 | another ciphertext or other associated data under the tag of a sealed message is accepted exactly when the hash key is such a root |
| `GcmTag.StreamBlock` | app/crypto/aesgcm.py:172-182 | block n of the key stream encrypts the nonce followed by the counter n + 2 |
| `GcmTag.SealedByte` | app/crypto/aesgcm.py:189-218 | every sealed byte is the plain byte xor its byte of that stream |
| `GcmTag.SealSucceeds` | app/crypto/aesgcm.py:189-207 | sealing succeeds exactly for a 12-byte nonce, a 16, 24 or 32-byte key and lengths that fit 64 bits |
| `Gcm.OpenIffSealed` | app/crypto/aesgcm.py:189-248 | decryption accepts a message with a plaintext exactly when encrypting that plaintext gives that message, for all keys, nonces and associated data |
| `Gcm.EncryptPure` | app/crypto/aesgcm.py:189-218 | the program seals, with every error case; the bytes are those of `GcmTag.SealedByte` and `GcmTag.TagByte` |
| `Gcm.DecryptPure` | app/crypto/aesgcm.py:221-248 | the program opens, with every error case; what it accepts is stated by `GcmTag.ForgeryIffRoot` |
| `AuthorityRepository.ApplicationRepository.SaveInitialRefresh` | app/applicationapi/repository.py:1945-1960 | the new token is the only one of its family and live, no other row changes, and the table invariants hold |
| `AuthorityRepository.ApplicationRepository.ActOnRefresh` | app/applicationapi/repository.py:1967-2088 | succeeds exactly under `AuthorityEffects.MayRotate`; success leaves the new token as the only live one of its family, with the old one as parent; a replay or a lost claim leaves the family dead; no refusal adds a token; revoked rows never change |
| `AuthorityRepository.ApplicationRepository.RevokeRefreshFamily` | app/applicationapi/repository.py:2090-2115 | a logout by the token's own application and device leaves its family dead and every other family untouched |
| `AuthorityRepository.ApplicationRepository.IssueConfigGrants` | app/applicationapi/repository.py:1724-1806 | refused exactly when the caller or the signing key does not stand; success means the family is live and leaves exactly the issued grants usable for that application, user and device; a refusal changes nothing |
| `AuthorityRepository.ApplicationRepository.ConsumeConfigGrant` | app/applicationapi/repository.py:1836-1930 | succeeds exactly when every row behind the caller stands (`AuthorityStanding.AuthorizedIff`), the grant is theirs, unused and unexpired, its connection is active and the signing key stands; success means the grant was usable, owned and unexpired and its connection and lease active and unexpired, and consumes that grant alone; no refusal consumes any |
| `AuthorityRepository.ApplicationRepository.ReserveConnection` | app/applicationapi/repository.py:2174-2259 | succeeds exactly when the caller and the grant stand and it names a protocol and a source, forbidden exactly when the caller does not; success binds the grant to one connection of the caller's application, device, key and family with the new expiry; the table invariants hold |
| `AuthorityRepository.ApplicationRepository.CompleteConnection` | app/applicationapi/repository.py:2261-2293 | succeeds exactly for a known connection, activates it with its lease whatever their status, and leaves its key and every other row alone |
| `AuthorityRepository.ApplicationRepository.FailConnectionRow` | app/applicationapi/repository.py:2295-2321 | the connection and its lease are failed, hold no active key and have no usable grant left; no other row changes |
| `AuthorityRepository.ApplicationRepository.RequestConnectionStop` | app/applicationapi/repository.py:2351-2385 | succeeds exactly for the standing caller's own connection; success leaves no usable grant and no active key, with the connection waiting for teardown or ended; a refusal changes nothing |
| `AuthorityRepository.ApplicationRepository.RenewConnection` | app/applicationapi/repository.py:2411-2440 | succeeds exactly for the standing caller's own active, unexpired connection; success means the caller's connection was active and unexpired, and moves its expiry with the lease's; a refusal changes nothing |
| `AuthorityRepository.ApplicationRepository.MarkConnectionRemoved` | app/applicationapi/repository.py:2546-2574 | a removed lease is never due again, one with an error is due at every instant; no other row changes |
| `AuthorityRepository.ApplicationRepository.SweepDue` | app/applicationapi/repository.py:2454-2544 | a pass returns exactly the leases that ran out, were ended or have a row that does not stand (`AuthorityStanding.DueByRows`), and keeps the invariants |
| `AuthorityStanding.AuthorizedIff` | app/applicationapi/repository.py:1513-1582 | a request is authorized exactly when, field by field, the user is active, in application mode, unexpired and below the data limit, the application, device and key rows are active and match, the key is in its window, a session token is live and the user grant is in order |
| `AuthorityStanding.CanSignIff` | app/applicationapi/repository.py:1740-1768 | the application can sign exactly when the key it names is its own, active, for signing and in its window |
| `AuthorityStanding.LostIff` | app/applicationapi/repository.py:2494-2527 | a lease has lost its authority exactly when a row behind it does not stand |
| `AuthorityStanding.DueIff` | app/applicationapi/repository.py:2454-2544 | a lease is due exactly when it was not torn down, its rows exist, and it ran out, was ended or does not stand |
| `AuthorityStanding.IssueIff` | app/applicationapi/repository.py:1724-1768 | who may list configs |
| `AuthorityStanding.ConsumeIff` | app/applicationapi/repository.py:1836-1930 | who may take a config |
| `AuthorityStanding.ReserveIff` | app/applicationapi/repository.py:2174-2259 | who may reserve a connection |
| `AuthorityStanding.StopIff` | app/applicationapi/repository.py:2351-2385 | who may stop one |
| `AuthorityStanding.RenewIff` | app/applicationapi/repository.py:2411-2440 | who may renew one |
| `AuthorityLapses.LapseStaysSeen` | app/applicationapi/repository.py:1513-2544 | from the instant a user is inactive, outside application mode, expired or at the data limit, in every run that does not restore the user, every lease of the user is due and no request is authorized at every later instant |
| `AuthorityEffects.RotateIff` | app/applicationapi/repository.py:1973-2072 | a refresh succeeds exactly for a token unrevoked when read and when claimed, unexpired, of the same application, device and key, with a family and existing rows |
| `AuthorityEffects.RotateRows` | app/applicationapi/repository.py:2049-2083 | the successor carries the identity of the old token, which points to it; nothing else changes |
| `AuthorityEffects.RefusedRotateRows` | app/applicationapi/repository.py:1973-2072 | a refused refresh revokes the whole family, or the expired token with the grants of its family, or nothing, each exactly when |
| `AuthorityEffects.InitialRows` | app/applicationapi/repository.py:1945-1960 | the fields of a first token |
| `AuthorityEffects.LogoutRows` | app/applicationapi/repository.py:2090-2115 | a logout cuts the family from the own application and device, and nothing otherwise |
| `AuthorityEffects.IssueRows` | app/applicationapi/repository.py:1769-1806 | the fields of every new grant, and which old ones are retired |
| `AuthorityEffects.ReserveRows` | app/applicationapi/repository.py:2174-2259 | every field of the connection and lease that a reservation opens or renews |
| `AuthorityEffects.StopRows` | app/applicationapi/repository.py:2351-2385 | a stop marks connection and lease unless they ended and retires the grants |
| `AuthorityEffects.RemovalRows` | app/applicationapi/repository.py:2546-2574 | the status and instant a teardown leaves |
| `AuthorityEffects.AppCascadeRows` | app/applicationapi/repository.py:574-641 | revoking an application cuts exactly its tokens and grants and deactivates exactly its keys, devices and user grants |
| `AuthorityEffects.UserGrantCascadeRows` | app/applicationapi/repository.py:643-691 | revoking a user grant cuts exactly the tokens and grants of that user and application |
| `AuthorityEffects.KeyCascadeRows` | app/applicationapi/repository.py:694-758 | what revoking an encryption key, the signing key in use or any other key cuts |
| `AuthorityEffects.DeviceRevokeRows` | app/applicationapi/repository.py:1638-1690 | revoking an active device deactivates it and cuts its tokens and grants |
| `AuthorityEffects.ActiveKeyIs` | app/applicationapi/repository.py:2140-2144 | the active key is the two ids in decimal, core and protocol, joined by colons |
| `AuthoritySweep.DueConnectionLeases` | app/applicationapi/repository.py:2454-2544 | the loop marks exactly the due leases and returns them in order |
| `AuthoritySweep.PassReturnsDue` | app/applicationapi/repository.py:2454-2544 | a pass returns a lease exactly when it is due |
| `AuthoritySweep.SweepAgreesWithAuthorization` | app/applicationapi/repository.py:1513-1582 | a context that is authorized never has its lease declared without authority in the same state and instant |
| `AuthoritySweep.SweepKeepsDue` | app/applicationapi/repository.py:2454-2544 | a pass neither hides a due lease from the next pass nor touches any other |
| `AuthorityChains.RotateKeepsLinks` | app/applicationapi/repository.py:2049-2083 | claiming a token and inserting its successor keeps one live token and linked chains |
| `AuthorityChains.FamilyIsOneChain` | app/applicationapi/repository.py:1962-2088 | any two tokens of a family share a root, and following `rotated_to` from the earlier one reaches the later one |
| `AuthorityChains.ChainIsAcyclic` | app/applicationapi/repository.py:1962-2088 | following `rotated_to` stays in the family, moves to newer tokens and never returns |
| `AuthorityChains.ChildIsUnique` | app/applicationapi/repository.py:1962-2088 | a token has at most one child |
| `AuthorityChains.LiveTokenIsLast` | app/applicationapi/repository.py:1962-2088 | the live token is the last of its chain and all others are revoked |
| `AuthorityRuns.StepKeepsValid` | app/applicationapi/repository.py:1513-2574 | every step of every worker keeps the invariants of tokens, grants, connections and leases |
| `AuthoritySafety.Exec` | app/applicationapi/repository.py:1513-2574 | every state a run reaches satisfies them |
| `AuthoritySafety.EmptyTablesAreValid` | app/applicationapi/repository.py:1513-2574 | empty tables satisfy them |
| `AuthoritySafety.ReachableTokens` | app/applicationapi/repository.py:1945-2088 | under every interleaving a family has at most one unrevoked token |
| `AuthoritySafety.ReachableGrants` | app/applicationapi/repository.py:1724-1930 | no grant is ever both consumed and revoked |
| `AuthoritySafety.ReachableConnections` | app/applicationapi/repository.py:2174-2574 | a connection and its lease agree on status and expiry, an active key implies pending or active, and no two connections share one |
| `AuthoritySafety.ReplayKillsFamily` | app/applicationapi/repository.py:1973-2072 | presenting a revoked token, or losing the claim, leaves no live token and no usable grant in the family |
| `AuthoritySafety.LogoutKillsFamily` | app/applicationapi/repository.py:2090-2115 | so does a logout |
| `AuthoritySafety.DeadFamilyForever` | app/applicationapi/repository.py:1513-2088 | no later run gives such a family a live token, a usable grant or a new grant |
| `AuthoritySafety.RunGrantsNext` | app/applicationapi/repository.py:1724-1930 | over any run rows persist, and revoked tokens and spent grants never change |
| `AuthoritySafety.AtMostOneConsumption` | app/applicationapi/repository.py:1836-1930 | in any run a grant is handed out at most once, and never after it was spent |
| `AuthoritySafety.ConsumptionNeedsLiveLease` | app/applicationapi/repository.py:1836-1930 | a grant becomes consumed only while its connection and lease are active and unexpired |
| `AuthoritySafety.IssueReplaces` | app/applicationapi/repository.py:1769-1792 | after a list call that issued grants, exactly those are usable by that application, user and device |
| `AuthoritySafety.ActiveKeyNames` | app/applicationapi/repository.py:2140-2144 | an active key determines its application and device |
| `AuthoritySafety.ReserveBinds` | app/applicationapi/repository.py:2174-2259 | a reservation binds its grant to one connection of the caller's application, device, key and family; a reused one keeps its user |
| `AuthoritySafety.ReservedLeaseAuthority` | app/applicationapi/repository.py:2174-2259 | a lease just reserved lacks authority at that instant exactly when its connection has another user |
| `AuthoritySafety.OwnersKeptForever` | app/applicationapi/repository.py:2174-2259 | over every run that hands no device to another user, connections belong to the owners of their devices |
| `AuthoritySafety.ReservedLeaseKeepsAuthority` | app/applicationapi/repository.py:2174-2259 | after any such run a lease just reserved has authority at that instant |
| `AuthorityRevocations.OrphanedLeaseStaysDue` | app/applicationapi/repository.py:2454-2544 | once no live token of its family, application, user and device is left, a lease that stays bound is due at every instant of every later run |
| `AuthorityRevocations.DeadFamilyLeaseStaysDue` | app/applicationapi/repository.py:1973-2115 | so is every lease of a family killed by a replay or a logout |
| `AuthorityRevocations.UserGrantRevocationIsSeen` | app/applicationapi/repository.py:643-691 | after the second commit of a user grant revocation, whatever happened before it, every lease of that user and application bound to a family of that time is due in every later run |
| `AuthorityRevocations.FamiliesUsedForever` | app/applicationapi/repository.py:2174-2259 | in every run each connection stays bound to a family that has a token |
| `AuthorityRevocations.OpenLeasesStayDue` | app/applicationapi/repository.py:643-691 | so every lease open at the second commit and still bound as it was then is due in every later run |
| `AuthorityRevocations.FirstCommitIsNotSeen` | app/applicationapi/repository.py:643-691 | the first commit alone changes the standing of no lease |
| `AuthorityRevocations.FirstCommitRefuses` | app/applicationapi/repository.py:1513-1582 | while it refuses exactly the authorized contexts that name a grant |
| `AuthorityRevocations.CrashBetweenCommits` | app/applicationapi/repository.py:643-691 | a state that satisfies all table invariants, between the commits, in which a context is refused and its lease is not due |
| `AuthorityRevocations.DeactivationStaysSeen` | app/applicationapi/repository.py:574-758 | a lease whose application, key or device is inactive is due at every instant of every run until administration acts again |
| `AuthorityRevocations.RevocationsDeactivate` | app/applicationapi/repository.py:574-758 | revoking an application, a key or a device deactivates it, from the first commit on |
| `AuthorityRevocations.FailedTeardownStaysDue` | app/applicationapi/repository.py:2546-2574 | a failed teardown keeps the lease due at every instant of every run, until a completion, a failure report or a successful teardown of it |
| `AuthorityRevocations.RemovedIsNeverDue` | app/applicationapi/repository.py:2454-2574 | a lease once torn down is due at no instant of any later run |
| `AuthorityRevocations.LateCompletionEscapes` | app/applicationapi/repository.py:2261-2293 | so a completion that arrives after the teardown leaves a lease active that no pass of any run returns |
| `AuthorityRevocations.CompletedLeaseSweepable` | app/applicationapi/repository.py:2261-2293 | a completed lease is returned by a pass of some later run exactly when it had not been torn down before |
| `Builds.StepKeeps` | app/builder/repository.py:192-521 | every transaction keeps the build invariant, changes nothing of an ended job other than its queue id, and never lowers progress |
| `Builds.RunKeeps` | app/builder/repository.py:192-521 | so does every run |
| `Builds.CreatedIsGood` | app/builder/repository.py:192-234 | a new build with a target satisfies the invariant |
| `Builds.FullProgress` | app/builder/repository.py:806-813 | progress is 100 exactly when the build has ended, which is exactly when all jobs have |
| `Builds.SuccessMeansArtifacts` | app/builder/repository.py:371-427 | in a successful build every job succeeded and has an artifact |
| `Builds.ValidTokenIsLive` | app/builder/repository.py:285-296 | a valid job token belongs to a job and a build that have not ended |
| `Builds.MixedCancelUnreachable` | app/builder/repository.py:816-844 | the aggregation never sees a cancelled job, so its mixed-cancel branches are never taken |
| `Builds.EndsTogetherIffTargets` | app/builder/repository.py:192-457 | progress, build status and job statuses end together in every run exactly for builds with a target |
| `Builds.NormalCode` | app/builder/repository.py:380-391 | the stored failure code is none or one of the allowed ones; which one is stated by `BuildRows.StoredCode` |
| `BuildRows.StoredCode` | app/builder/repository.py:380-391 | a blank or absent code is stored as none, a known code between any white space as itself, every other text as `worker_error` |
| `BuildRows.KnownIsKept` | app/builder/repository.py:380-391 | each of the sixteen known codes is kept, whatever white space surrounds it |
| `BuildRows.Surrounded` | app/builder/repository.py:380 | every text is a trimmed text between white space, so the two rows above cover all input |
| `BuildRows.ReportOutcome` | app/builder/repository.py:393-427 | a report succeeds exactly with the valid token of an open job, and leaves the code sent, `no_artifacts` or none on that job and every other job alone |
| `BuildRows.FirstFailureNamesBuild` | app/builder/repository.py:816-844 | when all jobs have ended the build fails with the code of the first failed one |
| `BuildRows.LastReportNamesBuild` | app/builder/repository.py:371-427 | a last job reported failed with a known code gives that code to itself and, if none before it failed, to the build |
| `BuildRows.OpenJobKeepsBuild` | app/builder/repository.py:816-844 | while a job is open the build keeps its code |
| `BuildRows.IssueOutcome` | app/builder/repository.py:285-296 | a token is issued exactly for an open job and replaces the one before |
| `BuildRows.ClaimOutcome` | app/builder/repository.py:345-369 | a claim succeeds exactly with the valid token of a queued job or of one the same worker runs |
| `BuildRows.RecordOutcome` | app/builder/repository.py:494-521 | a file is recorded exactly for a running job when the platform and architecture have none of that name |
| `BuildRows.ClosedRows` | app/builder/repository.py:429-492 | cancelling and failing end exactly the open jobs, with which code |
| `BuildRows.ProgressIsShare` | app/builder/repository.py:806-813 | progress is the share of ended jobs in whole percent |
| `BuildRows.Queues` | app/builder/validators.py:31-37 | the queue of every platform |
| `Builds.Reported` | app/builder/repository.py:393-420 | a reported job has a failure code exactly when it did not succeed, and an allowed one |
| `BuildRecords.CreateBuild` | app/builder/repository.py:192-234 | a build number taken meanwhile escapes as the database error, then unknown platforms and repeated targets are refused, and none of them stores anything; otherwise all jobs are queued under the next number; without a race the number is free |
| `BuildRecords.BuildRecord.RecomputeProgress` | app/builder/repository.py:806-813 | the loop computes the share of ended jobs |
| `BuildRecords.BuildRecord.AggregateBuild` | app/builder/repository.py:816-844 | status and failure code derived from the jobs in order |
| `BuildRecords.BuildRecord.IssueJobToken` | app/builder/repository.py:285-296 | a token for a live job, a conflict for an ended one |
| `BuildRecords.BuildRecord.ClaimJob` | app/builder/repository.py:345-369 | only the holder of a valid token claims, and only one worker |
| `BuildRecords.BuildRecord.ReportJob` | app/builder/repository.py:371-427 | succeeds exactly with the valid token of an open job; the job ends with the code sent if it is a known one, `worker_error` for any other, `no_artifacts` for a success without an artifact; the build is aggregated |
| `BuildRecords.BuildRecord.CancelBuild` | app/builder/repository.py:429-457 | cancels the live jobs and returns exactly their queues and queue ids in order |
| `BuildRecords.BuildRecord.FailBuild` | app/builder/repository.py:459-492 | fails the live jobs and keeps the panel's reason |
| `BuildRecords.BuildRecord.RecordArtifact` | app/builder/repository.py:494-521 | only for a running job and a new file name |
| `UsageCounters.DeltaTracker.Observe` | app/cores/stats.py:25-46 | emits the growth since the last reading and moves the baseline |
| `UsageCounters.SessionUsageTracker.Poll` | app/cores/stats.py:76-91 | emits the interim growth of a session |
| `UsageCounters.SessionUsageTracker.Close` | app/cores/stats.py:100-111 | emits the final growth and forgets the session |
| `UsageCounters.RestartTracker` | app/cores/stats.py:49-61 | a tracker restored from a snapshot answers as the old one would have |
| `UsageCounters.StepBalances` | app/cores/stats.py:25-111 | traffic always equals reported plus pending plus lost plus hidden bytes |
| `UsageCounters.NeverOverReported` | app/cores/stats.py:25-111 | over any run, reports never exceed traffic, per key and direction |
| `UsageCounters.ExactIffResetsShow` | app/cores/stats.py:25-111 | once all is read, reports equal traffic exactly when no reset cleared unread bytes and every reset showed as a drop |
| `UsageCounters.UnreadResetUnderReports` | app/cores/stats.py:25-46 | a run in which a reset loses everything |
| `UsageCounters.HiddenResetUnderReports` | app/cores/stats.py:25-46 | a run in which a counter outgrows its baseline after a reset and the baseline's worth of traffic is never reported |
| `UsageCounters.RunLogs` | app/cores/stats.py:25-111 | the emitted records add up, per key, to what was reported |
| `Quota.UnifiedQuotaService.ApplyUsage` | app/cores/quota.py:131-172 | one batch adds every owner's bytes, drops exactly the unowned records, and issues one receipt per changed user in order |
| `Quota.UnifiedQuotaService.GetView` | app/cores/quota.py:174-186 | the view of the current totals against the effective limit |
| `Quota.ViewOf` | app/cores/quota.py:174-186 | remaining and used bytes add up to the limit, and the limit is exceeded exactly when nothing remains |
| `Quota.UnifiedQuotaService.Reset` | app/cores/quota.py:188-191 | zeroes one user and no other |
| `UsageConservation.BytesConserved` | app/cores/quota.py:131-172 | every recorded byte lands, in its direction, in one user's total or in a dropped record |
| `UsageConservation.DroppedAre` | app/cores/quota.py:131-150 | the dropped records are those of accounts nobody owns |
| `UsageConservation.ReceiptMeans` | app/cores/quota.py:150-172 | a receipt holds what was added, the new total of both directions and whether that reaches the limit |
| `UsageConservation.CoresAre` | app/cores/quota.py:131-172 | the cores on a receipt are those of the user's records |
| `UsageConservation.BatchingIsIrrelevant` | app/cores/quota.py:131-172 | any cutting of the records into batches gives every user the same totals |
| `UsageConservation.ChargedWhatWasEmitted` | app/cores/quota.py:131-172 | over any run of counters and any batching, a user is charged exactly what their accounts emitted, never more than crossed |
| `ClientTokens.ClientApiService.Refresh` | app/clientapi/service.py:144-174 | refuses, rotates, or answers once in grace |
| `ClientTokens.ClientApiService.Logout` | app/clientapi/service.py:176-178 | revokes the token without a successor |
| `ClientTokens.ClientApiService.IssueAppCredentials` | app/clientapi/service.py:84-100 | a known user gets the new credentials stored and none of their tokens can rotate any more; an unknown one changes nothing |
| `ClientTokens.InMemoryRefreshTokenStore.Revoke` | app/clientapi/stores.py:84-89 | revoking overwrites the successor link |
| `ClientTokens.InMemoryRefreshTokenStore.RevokeAllForUser` | app/clientapi/stores.py:91-95 | the loop revokes exactly the rows of the user and keeps their links |
| `ClientTokens.StepKeepsValid` | app/clientapi/service.py:84-178 | every step keeps one live token per login and successors within the login |
| `ClientTokens.OneLiveTokenPerLogin` | app/clientapi/service.py:144-174 | in every run a login has at most one live token |
| `ClientTokens.AnswersWithinBudget` | app/clientapi/service.py:144-174 | in every run a live token is answered at most twice, a rotated one at most once and a dead one never |
| `ClientTokens.AnsweredAtMostTwice` | app/clientapi/service.py:144-174 | any token is answered at most twice |
| `ClientTokens.LoggedOutNeverAnswered` | app/clientapi/service.py:176-178 | a logged-out token is never answered again |
| `ClientTokens.OldCredentialsNeverAnswered` | app/clientapi/service.py:84-100 | nor is a token issued before its user's credentials were rotated |
| `ClientTokens.RetryIsAnswered` | app/clientapi/service.py:144-174 | a retry within the grace, before the successor is used, is answered |
| `ClientLifetimes.ExpiredNeverAnswered` | app/clientapi/service.py:144-174 | in no run is a token answered after its expiry |
| `ClientLifetimes.Lifetime` | app/clientapi/service.py:144-174 | nor later than its lifetime after it was issued |
| `ClientLifetimes.LateRetryNeverAnswered` | app/clientapi/service.py:142-174 | nor more than 120 seconds after it was rotated |
| `ClientLifetimes.RotateIff` | app/clientapi/service.py:144-174 | a token is rotated exactly while it is live and not past its expiry |
| `ClientLifetimes.GraceIff` | app/clientapi/service.py:155-170 | it is answered in grace exactly when rotated, not past its expiry, at most 120 seconds ago, with a live successor |
| `ClientLifetimes.AnswerRows` | app/clientapi/service.py:144-174 | an answer adds a fresh token for the same user and revokes exactly the spent row |
| `ClientTokens.GraceTwiceInOneLogin` | app/clientapi/service.py:144-174 | the grace is one-shot per token, not per login: one login is answered in grace twice |
| `ClientTokens.GraceEndsTheRest` | app/clientapi/service.py:155-170 | after a grace answer every token the login had before can never be answered again |
| `ClientTokens.GraceLeavesOneToken` | app/clientapi/service.py:155-170 | after a grace answer a token of the login is answered in some later run exactly when it is the one the answer issued |
| `Consolidation.FreeName` | app/cores/consolidation.py:199-205 | the suffix search ends with the first candidate not in use |
| `Consolidation.CandidateNames` | app/cores/consolidation.py:199-205 | the names tried are tag and core joined by `-from-`, then with `-2`, `-3` and so on |
| `Consolidation.Targeted` | app/cores/consolidation.py:31-34 | grants on hysteria2 and tuic move to sing-box, all others stay |
| `Consolidation.MergeInboundEntries` | app/cores/consolidation.py:176-209 | existing entries stay, incoming ones follow in order with their own fields and the tag their turn gives them, and the rename map records the changes; the first untagged entry is an error |
| `Consolidation.MergeCoreAccess` | app/cores/consolidation.py:212-236 | re-pointed, deduplicated lists in order; null stays null |
| `ConsolidationAccess.MergedTagsDistinct` | app/cores/consolidation.py:176-209 | tags of the merged document are unique when the existing ones were |
| `ConsolidationAccess.MergedAccess` | app/cores/consolidation.py:176-236 | a user reaches a merged inbound exactly when they reached its origin or hold a dangling grant of its new tag |
| `ConsolidationAccess.ExistingAccess` | app/cores/consolidation.py:176-236 | a user reaches an existing inbound exactly when they did before or hold a dangling grant of its tag |
| `ConsolidationAccess.NothingDangles` | app/cores/consolidation.py:176-236 | without dangling grants access is preserved on both |
| `ConsolidationAccess.OtherAccessIff` | app/cores/consolidation.py:212-236 | grants on a core outside the merge stay the same, for all mappings, exactly when no rename key starts with that core's id and a colon |
| `ConsolidationAccess.PlainCoreUnclaimed` | app/cores/consolidation.py:212-236 | which holds for every core id without a colon |
| `ConsolidationAccess.ColonCoreDisturbed` | app/cores/consolidation.py:212-236 | and fails for a grant on a core named `tuic:a` when `a:b` on `tuic` is renamed |
| `ConsolidationAccess.BucketDistinct` | app/cores/consolidation.py:226-235 | no re-pointed list names a tag twice |
| `DbMerge.StepKeepsValid` | app/dbmerge.py:280-410 | boots, single effects, crashes and panel runs keep the invariant |
| `DbMerge.NoRowLost` | app/dbmerge.py:280-410 | in every run each row the panel left in a modelled legacy table is still there, or was copied with the committed marker |
| `DbMerge.SourceNames` | app/dbmerge.py:45-50 | the four renamed tables and their names in the legacy database |
| `DbMerge.RetirementFollowsMarker` | app/dbmerge.py:150-194 | the legacy database is retired only after the marker was committed with all rows |
| `DbMerge.MergedBootsChangeNothing` | app/dbmerge.py:104-122 | on a merged layout, boots and crashes change nothing in main and it stays merged |
| `DbMerge.Finishes` | app/dbmerge.py:280-410 | from any stage finitely many effects end the boot with the marker committed |
| `DbMerge.UnmergedBoot` | app/dbmerge.py:280-410 | the single effects of a boot on an unmerged disk lead to exactly one outcome: the full copy or the provisioned main, the marker, and the retired source |
| `DbMerge.PanelDatabases.MergeAtBoot` | app/dbmerge.py:280-410 | an uninterrupted boot: exit code, marker, legacy database and full contents of main in every branch, and the same end as its single effects taken one by one |
| `DbMerge.PanelDatabases.CopyRows` | app/dbmerge.py:376-384 | chunked reading copies every row once, in order |
| `DbMerge.PanelDatabases.ProvisionLegacyIntoMain` | app/dbmerge.py:206-227 | creates missing tables and changes no existing row |
| `UsagePages.CursorRoundTrip` | app/applicationapi/connection_service.py:351-364 | a cursor in whole seconds identifies every bucket start |
| `UsagePages.UsageHistory` | app/applicationapi/connection_service.py:366-404 | the range check and one page: newest buckets first, with sums and the next cursor |
| `UsagePages.PagesAreWhole` | app/applicationapi/connection_service.py:366-404 | for any limit of at least 1, following cursors ends and the pages joined are the unlimited list |
| `UsagePages.RecordsCountedOnce` | app/applicationapi/connection_service.py:366-404 | across all pages no bucket repeats and the buckets add up, per direction, to the records of the range |
| `UsagePages.BucketMeaning` | app/applicationapi/connection_service.py:366-404 | each item is a whole hour or day cut to the range, with the uplink and downlink bytes of the records in it |
| `UsagePages.LongestRanges` | app/applicationapi/connection_service.py:373-377 | the longest ranges are 7 and 90 days |

## Left out

- HTTP routers, request signing, throttling, audit rows, the command line and configuration loading: plumbing around the modelled logic.
- SQL sessions: each committed transaction is one atomic step on maps, so isolation levels, locks and constraint timing are not captured; `rotate_refresh` is split at its claim because the code relies on it.
- Administrative revocations are modelled on values only: their update in place is not captured. Activation tickets are not modelled.
- The device limit is any function of the directory, the user and the device.
- Sweep rows are modelled with the rows they join present; a lease whose application, user, device or key row was deleted is not returned by the query and is not claimed to be.
- `AuthorityRuns`: one lease per connection and unique active keys are table constraints; the lease's encrypted settings, node and observation fields are not modelled.
- A stopped connection may become active again through a late completion; no claim is made against that.
- The mask penalty of the QR encoder (any score function takes its place), SVG and text output, and encoding text to bytes.
- The tables of error correction codewords and block numbers of the QR encoder are data: they are not claimed to equal those of ISO/IEC 18004.
- A version outside 1 to 40 in the QR encoder.
- The native backend of AES-GCM and the timing of its tag comparison.
- Build log references, failure messages, worker registration and build credentials.
- `forget` of a counter while its provider keeps counting, and restarts from a stale snapshot: runs use exact snapshots.
- The record fields a quota batch does not use, and the SQL form of the quota store.
- Login itself (password check, rate limit, suspended users) in the client API; a login is a step that issues a token. Concurrent refreshes of one token are not modelled: the steps are serial.
- Translation of inbound entries between cores; an entry is its tag and the rest of its fields.
- Unreadable markers, MySQL's implicit commits and partly failed drops in the database merge: marker reads are truthful and commits and removals atomic.
- The JSON and base64 form of a usage cursor: a cursor is its whole-second timestamp. The range is fixed across pages.
