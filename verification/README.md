# Erasure coding, and three small state machines of rclone

This project models the erasure-coding engine under `reedsolomon/` and three machines of
`fs/`, and proves what they are for.

- **Leopard codecs.** `Shards` are byte strings and their sums; `Transform` defines the FFT
  over GF(2^w) and its inverse by halves, for any skew table and any product. `ForwardLoops`
  and `InverseLoops` are the radix-4 loops in place, truncated and pruned; `PrunedLoops`, `ErrorBits` and `ErrorBitfields` the mip-map
  bitfields of both widths. `Walsh`, `WalshLoops` and `ErrorLocator` are the Walsh-Hadamard
  transform modulo 2^w - 1 and the error locator; `FormalDerivative` the derivative in place.
  `BitMaps`, `CantorBases`, `CantorField`, `LogTables` and `LeopardField` build the fields of
  256 and of 65536 elements from their shift registers and Cantor bases, `LeopardTables` and
  `LeopardTables16` the product tables and kernels. `LeopardEncode`, `SkewReads`,
  `ParityLaws`, `LeopardCodec` and `LeopardCodec16` are Encode and Verify; `RecoverySpec`,
  `LocatorReads` and `LeopardDecoder` are reconstruct; `SplitJoin` is Split and Join.
- **What encoding means.** `CantorLaw` shows that in both bases x * x + x is x / 2, and
  `SkewTable` that the skew tables hold the logarithms of even numbers. So the polynomials of
  the transform can be written with shifts (`NovelBasis`), and the transform evaluates them
  (`Evaluation`): over any field in such a basis, of which `Elements8` and `Elements16` are the
  two that the codecs read from shards. Encoding leaves the highest coefficients zero
  (`Codewords`), so that any dataShards shards determine the data (`AnyShards`,
  `LeopardRoundTrip16`).
- **Why reconstruct recovers.** The locator is a product (`ErasureLocator`) and the derivative
  of the product gives the missing values (`Interpolation`, `ErasureRecovery`).
  `LeopardRoundTrip` puts the 8-bit codec together.
- **The matrix codec.** `BitXor`, `Words`, `Modular`, `Periods`, `Pigeonhole`, `BinaryField`
  and `Registers` are shift registers and the fields they make, `Galois` and `GenTables`
  GF(2^8) and its tables. `LinearAlgebra`, `SolutionSets`, `Matrix`, `Polynomials`,
  `Vandermonde` and `CodingMatrix` are elimination, inversion and the coding matrix. `InversionTree` is the cache of inverted matrices, `ReedSolomon` the codec that
  recovers any missing shards, `CodecRoundTrip` from Encode to the shards brought back.
- **fs.** `OptionString`, `OptionLanguage` and `OptionErrors` are the mount option parser, its
  language and its errors;
  `ConfigStates`, `ConfigSteps` and `ConfigRun` the backend config machine; `Timetable` the
  weekly bandwidth timetable.

`dafny verify dfyconfig.toml` verifies everything.

## How the code is modelled

A shard is a sequence of bytes and `work` an array of shards that the loops update in place.
The error bitfield, the inversion tree, the config mapper and the writer of Join are classes;
matrices are arrays of rows. Widths are written out: bytes, 16-bit indices, the 64-bit
difference in `subMod`, 64-bit words.

The transform theorems hold for every skew table and every map in place of the product (the
round trips) or every linear one (truncation and encoding); `LeopardTables.Leopard8Laws` and
`LeopardTables16.Leopard16Laws` supply the two codecs. That the transform evaluates and that any
dataShards shards determine the data is proved over the field of either width, with the tables
that the codecs build; that reconstruct brings them back for the 8-bit codec. The Walsh-Hadamard theorems hold for order 256 and 65536.

## Where the code differs from what one would expect

- `newFF8` and `newFF16` accept counts for which `encode` reads the skew table behind its end.
  Encoding stays inside exactly when m + dataShards is at most the order, where m is the least
  power of two not below the parity count, or dataShards is when m is 1 (`SkewReads.EncodeReads`, which
  follows the indices; `LeopardEncode.FitsExactly`). 65 parity shards for 191 data shards do
  not (`SkewReads.ReadsPastTheEnd`). reconstruct reads behind the end of errLocs exactly when
  m + dataShards is more than 256 (`LocatorReads.ReconstructReads`). `Encode`, `Verify` and
  reconstruct require the conditions when there is something to compute.
- `BackendConfig` can go round for ever. From "*all" it does so exactly when an option is
  advanced, `config_fs_advanced` is overridden by "true", so that the question about advanced
  config comes again after every pass, and no question on the way needs a user: with
  AutoConfirm none does (`ConfigRun.EndsExactly`, `ConfigRun.AutoConfirmLoops`, an environment in
  `ConfigRun.GoesRound`).
- `LimitAt` returns the slot in force only if some slot has begun since Sunday or the table
  ends with its latest entry (`Timetable.LimitInForce`, with an input in
  `Timetable.OutOfOrder`).
- `StatePop` does not change wide commas back in the last value of a state, and changes back
  wide commas that were there before `StatePush` (`ConfigStates.PopLast`,
  `ConfigStates.PopFirst`). So the OAuth machine recalls a result with a comma in it wrongly
  (`ConfigRun.OAuthState`).
- `parseHelperOptionString` trims its input, so an unquoted last value loses the space at its
  end (`OptionLanguage.ParsesBack`). Its error text says that names cannot start with `_`;
  the code lets them (`OptionLanguage.UnderscoreName`).

## Model

| member | source | states |
|---|---|---|
| LeopardCodec.LeopardFF8.Encode | reedsolomon/leopard8.go:123-261 | Answers by the counts and lengths of the shards alone; on success the data shards are unchanged and the parity shards are `Parity` of them, whatever they and the pooled buffers held before and however the shards are cut into blocks of 32 KiB |
| LeopardCodec.EncodeExactly | reedsolomon/leopard8.go:123-145 | Encode and Verify of both widths succeed if and only if all shards are there with one length, divisible by 64; which error otherwise |
| LeopardCodec.LeopardFF8.EncodeColumns | reedsolomon/leopard8.go:172-258 | The loop over blocks of columns leaves the parity of the whole shards: one pass over everything and the block loop agree |
| LeopardCodec.LeopardFF8.EncodeStretch | reedsolomon/leopard8.go:180-257 | One block extends the finished columns of every parity shard by its own columns and changes nothing else |
| LeopardCodec.LeopardFF8.Verify | reedsolomon/leopard8.go:386-412 | True exactly when the parity shards are the parity of the data shards, so true after `Encode`; which error, exactly when; the shards are not changed |
| LeopardCodec.NewFF8 | reedsolomon/leopard8.go:42-65 | Refuses counts that are not positive and more than 65536 shards, by which error; otherwise the codec is ready |
| LeopardCodec16.LeopardFF16.Encode | reedsolomon/leopard.go:111-221 | The same for the 16-bit codec, which takes the shards in one piece and copies the rows of work out |
| LeopardRoundTrip16.EncodeFresh16 | reedsolomon/leopard.go:111-221 | Skew table, constructor and Encode of the 16-bit codec leave the encoding of the data that the following theorems speak of, for all counts that fit the table |
| LeopardRoundTrip16.FftEvaluates16 | reedsolomon/leopard.go:610-649 | With the 16-bit skew table, row i of the transform holds in every element the value of the polynomial at i |
| LeopardRoundTrip16.AnyShardsDetermine16 | reedsolomon/leopard.go:111-221 | Two data sets whose encodings agree in any dataShards shards are the same: whatever is lost, up to parityShards shards, the data can be told from the rest |
| AnyShards.ParityEvaluates | reedsolomon/leopard.go:170-221 | At either width exactly one polynomial without the m highest coefficients has the data shards as its values from m on and zeros behind them, and its values from 0 on are the parity shards |
| AnyShards.AnyDetermine | reedsolomon/leopard.go:170-221 | At either width, encodings that agree in dataShards shards come from data that are read the same |
| AnyShards.RootsForceZero | reedsolomon/leopard.go:170-221 | In the basis of the transform too, a polynomial of degree below d with d roots is zero |
| LeopardCodec16.LeopardFF16.Verify | reedsolomon/leopard.go:350-376 | True exactly when the parity shards are the parity of the data shards; which error, exactly when |
| LeopardCodec16.NewFF16 | reedsolomon/leopard.go:35-53 | Refuses counts that are not positive and more than 65536 shards, by which error; otherwise the codec is ready |
| LeopardCodec.CeilPow2 | reedsolomon/leopard.go:857-861 | The bit length of n - 1 is the least exponent whose power of two is at least n |
| LeopardEncode.EncodeBlock | reedsolomon/leopard8.go:195-256 | Chunks of m data shards, each transformed back at its own offset, are summed and transformed forward: the result is `Parity`, and the old contents of both work areas do not matter; the overlong last chunk and the case of one chunk included |
| LeopardEncode.AddChunk | reedsolomon/leopard8.go:215-252 | Adding one chunk, full or partial, keeps the value of the whole fold |
| LeopardEncode.IfftEncoder | reedsolomon/leopard8.go:792-857 | Copying, clearing, the truncated loops and the final sum give the whole inverse transform of the padded chunk at all m positions, at any skew offset, added to xorRes when there is one |
| LeopardEncode.FitsExactly | reedsolomon/leopard8.go:170-244 | Every slice of the skew table that encode takes stays inside its order - 1 entries if and only if m + dataShards <= order, or dataShards <= order when m is 1; the condition of the theorems about Encode |
| SkewReads.EncodeReads | reedsolomon/leopard8.go:140-256 | The loops of encode with the indices of the skew table alone: all slices and entries read are inside the table if and only if m + dataShards <= order, or dataShards <= order when m is 1 |
| SkewReads.InverseReads | reedsolomon/leopard8.go:678-721 | A transform of m shards reads entries of its own stretch of the table alone, none when m is 1, and always the entry of the top layer otherwise |
| SkewReads.TopEntryLeaves | reedsolomon/leopard8.go:170-244 | m + dataShards exceeds the order if and only if the entry of the top layer of some chunk lies behind the table |
| SkewReads.ReadsPastTheEnd | reedsolomon/leopard8.go:42-51 | 65 parity shards for 191 data shards, which newFF8 accepts, make m = 128 and a second chunk, whose top layer reads entry 319 of 255 |
| ParityLaws.ParityLinear | reedsolomon/leopard8.go:134-261 | The parity of A xor B is the xor of the parities, for any number of chunks |
| ParityLaws.ParityCut | reedsolomon/leopard8.go:172-258 | Encoding columns lo to hi (multiples of 64) gives columns lo to hi of the parity of the whole shards |
| LeopardRoundTrip.EncodeFresh | reedsolomon/leopard8.go:123-261 | Tables, constructor and Encode leave the encoding of the data, and a codec and tables that reconstruct can work with, for all counts that fit the tables, all contents and all lengths divisible by 64 |
| LeopardRoundTrip.BringBack | reedsolomon/leopard8.go:378-675 | When up to parityShards shards of an encoding are lost, whichever, Reconstruct succeeds and the shards are the whole encoding again |
| LeopardRoundTrip.BringBackData | reedsolomon/leopard8.go:382-384 | The same loss, and ReconstructData succeeds and the data shards are back; lost parity shards stay so |
| LocatorReads.ReconstructReads | reedsolomon/leopard8.go:460-671 | The loops of reconstruct with the indices of errLocs alone: all 256 entries, and entry 256 as well if and only if m + dataShards > 256 |
| LocatorReads.FwhtReads | reedsolomon/leopard8.go:946-981 | The transform reads exactly the entries below the next multiple of 256, 16-bit indices included, so it stays inside if and only if mtrunc is at most 256 |
| LeopardDecoder.Reconstruct | reedsolomon/leopard8.go:378-380 | Answers by presence and lengths alone; when it succeeds, every shard is the one that the data was encoded to, for any data that the shards left agree with |
| LeopardDecoder.ReconstructData | reedsolomon/leopard8.go:382-384 | The same for the data shards |
| LeopardDecoder.VerdictExactly | reedsolomon/leopard8.go:414-447 | reconstruct succeeds if and only if at least dataShards shards of one length are there, divisible by 64 unless all that is asked for is there; which error otherwise |
| LeopardDecoder.Rebuild | reedsolomon/leopard8.go:414-675 | Present shards are unchanged; every missing shard asked for becomes `Answer`: scaled by the residues of the error locator, transformed back, derived, transformed, scaled back. The result does not depend on the error bitfield being used, on the pooled buffers or on the block size |
| ErasureRecovery.Recovers | reedsolomon/leopard8.go:598-671 | The decoder's formula gives every missing shard back, whichever dataShards shards are left |
| ErasureRecovery.RoomForLocator | reedsolomon/leopard8.go:449-484 | With dataShards shards left the locator has at most m roots, filling included, so that its product with the codeword keeps its degree below n |
| ErasureLocator.LocatorIsProduct | reedsolomon/leopard8.go:511-518 | Multiplying by the locator at i is multiplying by the differences of i to the other erased positions |
| Codewords.HighestClear | reedsolomon/leopard8.go:195-256 | Parity, data and zeros are the values of a polynomial whose m highest coefficients are zero, for any number of chunks |
| Evaluation.FftEvaluates | reedsolomon/leopard8.go:724-764 | With the right skew table, over the field of either width, row i of the transform holds the value of the polynomial at i, for whatever elements are read from the shards |
| Interpolation.Interpolates | reedsolomon/leopard8.go:631-671 | From a polynomial times a locator, the formal derivative at a root gives the polynomial's value there times the other factors |
| Interpolation.EvalDerived | reedsolomon/leopard8.go:633-636 | The loop of the derivative adds the derivative of the polynomial to it |
| Interpolation.SameValues | reedsolomon/leopard8.go:677-764 | The values at the first 2^k points determine the coefficients |
| NovelBasis.Novel.EvalMulX | reedsolomon/leopard8.go:1022-1024 | Multiplication by x on coefficients, carrying because x * x is x plus x / 2, multiplies the values |
| NovelBasis.Novel.SlopeMulX | reedsolomon/leopard8.go:633-636 | The product rule for x, with slope 1 for all basis polynomials |
| LeopardDecoder.Recover | reedsolomon/leopard8.go:449-675 | The computing part of reconstruct: marking, locator, blocks |
| LeopardDecoder.FillErrors | reedsolomon/leopard8.go:460-484 | errLocs is 1 exactly at missing parity, filling and missing data positions, and the bitfield holds those of them that are wanted |
| LeopardDecoder.Solve | reedsolomon/leopard8.go:621-646 | Truncated inverse transform, derivative and truncated or pruned transform equal the composition of the three whole ones at every position whose result is used |
| LeopardDecoder.Stretch | reedsolomon/leopard8.go:582-673 | One block of columns extends the restored columns of every missing shard |
| LeopardDecoder.Restore | reedsolomon/leopard8.go:654-671 | Missing shards, and only those asked for, take the columns of the block from work |
| LeopardDecoder.FillWork | reedsolomon/leopard8.go:598-619 | work holds the received shards scaled by the locator, and zeros for everything else |
| LeopardDecoder.InitTables | reedsolomon/leopard8.go:1064-1109 | The skew table and the transformed logarithms that the codec builds at its start are the ones Encode and reconstruct need |
| SkewTable.InitFFTSkew | reedsolomon/leopard.go:987-1022 | At either width, the entry for block q of 2 * 2^b shards is the logarithm of 2q, the entry that no loop fills included |
| SkewTable.NextRound | reedsolomon/leopard.go:1012-1017 | One round halves every number of temp that is still needed |
| SkewTable.DoubleBlocks | reedsolomon/leopard.go:1004-1010 | One pass fills the entries of as many blocks again and no others |
| RecoverySpec.RecoveredCong | reedsolomon/leopard8.go:598-671 | What is recovered depends on the residues of the locator modulo 255 only: entries 0 and 255 act alike |
| RecoverySpec.SolvedCut | reedsolomon/leopard8.go:582-673 | The three transforms work on stretches of columns independently |
| CantorField.Field.MulLogAdds | reedsolomon/leopard8.go:912-925 | Multiplying by two logarithms is multiplying by their sum modulo order - 1 |
| CantorField.Field.MulLogCong | reedsolomon/leopard8.go:912-925 | Congruent logarithms give the same product |
| Transform.Leopard.IfftFft | reedsolomon/leopard8.go:677-764 | Inverse after forward restores every shard, for every size, offset, skew table and length-keeping map in place of the product |
| Transform.Leopard.FftIfft | reedsolomon/leopard8.go:677-764 | Forward after inverse restores every shard, equally general |
| Transform.Leopard.FftLinear | reedsolomon/leopard8.go:724-764 | The transform of a sum of shards is the sum of the transforms |
| Transform.Leopard.IfftLinear | reedsolomon/leopard8.go:678-721 | The inverse transform of a sum of shards is the sum of the inverse transforms |
| Transform.Leopard.IfftZeros | reedsolomon/leopard8.go:792-803 | Zeros stay zeros, which is what truncation rests on |
| ForwardLoops.FftDit | reedsolomon/leopard8.go:724-764 | The radix-4 loops in place, blocks skipped by any pruning test included, give at every position that must be right its value in the transform by halves |
| ForwardLoops.FftBlock | reedsolomon/leopard8.go:731-746 | The loop over a block takes every quadruple through both layers and touches nothing else |
| ForwardLoops.FftDit4 | reedsolomon/leopard8.go:766-789 | The 4-way butterfly is two layers of 2-way ones, a modulus logarithm being a factor of zero |
| ForwardLoops.Butterfly | reedsolomon/galois_noasm.go:64-69 | The 2-way butterfly, or the sum alone when the factor is zero |
| ForwardLoops.FftTwoLevels | reedsolomon/leopard8.go:728-750 | Two levels of the definition by halves on four quarters |
| ForwardLoops.BlockSplit | reedsolomon/leopard8.go:728-750 | A block that is right becomes four blocks that are right two levels down |
| InverseLoops.IfftDit | reedsolomon/leopard8.go:678-721 | The truncated loops in place equal the whole inverse transform at all m positions when zeros follow mtrunc, for odd and even numbers of layers; the assertion on the layer that is left never fails |
| InverseLoops.IfftDit4 | reedsolomon/leopard8.go:859-881 | The 4-way inverse butterfly is two layers of 2-way ones |
| InverseLoops.ButterflyUp | reedsolomon/galois_noasm.go:78-83 | The 2-way inverse butterfly |
| InverseLoops.IfftTwoLevels | reedsolomon/leopard8.go:682-701 | Two levels of the inverse definition on four quarters |
| InverseLoops.LastLayer | reedsolomon/leopard8.go:703-720 | The layer that may be left completes the transform |
| PrunedLoops.FftTruncated | reedsolomon/leopard8.go:724-764 | The truncated transform equals the whole one on the first mtrunc outputs |
| PrunedLoops.InverseThenForward | reedsolomon/leopard8.go:677-764 | ifftDITDecoder8 and then fftDIT8, untruncated, leave work as it was, although for sizes 2 * 4^k they pair layers differently |
| PrunedLoops.ForwardThenInverse | reedsolomon/leopard8.go:677-764 | The other order |
| PrunedLoops.FftPruned8 | reedsolomon/leopard8.go:1213-1261 | Every marked position below mtrunc gets its value in the whole transform, for every erasure set |
| PrunedLoops.FftPruned16 | reedsolomon/leopard.go:1204-1254 | The same for the bitfield of three tiers |
| ErrorBits.MergedJoins | reedsolomon/leopard.go:1147-1164 | One mask-and-shift round sets a bit exactly when it or its sibling block was set |
| ErrorBits.HiMaskBit | reedsolomon/leopard.go:1139-1145 | The mask constants select the upper half of every pair of blocks |
| ErrorBits.ShowsStep | reedsolomon/leopard.go:1147-1202 | A merged word answers for blocks twice as large |
| ErrorBitfields.WordMips | reedsolomon/leopard8.go:1181-1198 | After the first loop of prepare all five levels of every word answer for their blocks |
| ErrorBitfields.Mips8 | reedsolomon/leopard8.go:1180-1211 | After prepare all seven levels answer for their blocks |
| ErrorBitfields.Needed8MeansHit | reedsolomon/leopard8.go:1173-1178 | The bit consulted for a level and position is set if and only if the aligned block of that size around the position holds a marked one; other levels are always needed |
| ErrorBitfields.ErrorBitfield8.Set | reedsolomon/leopard8.go:1160-1162 | Marks one more position, modulo 256 |
| ErrorBitfields.ErrorBitfield8.Prepare | reedsolomon/leopard8.go:1180-1211 | Makes the bitfield ready for the marked positions |
| ErrorBitfields.BigMips | reedsolomon/leopard.go:1166-1184 | The second tier, one bit for each word of the first, answers for levels 6 to 11 |
| ErrorBitfields.BiggestMips | reedsolomon/leopard.go:1186-1201 | The third tier answers for levels 12 to 15 |
| ErrorBitfields.Needed16MeansHit | reedsolomon/leopard.go:1095-1122 | Across the three tiers, the bit consulted is set if and only if the aligned block holds a marked position |
| ErrorBitfields.ErrorBitfield16.Set | reedsolomon/leopard.go:1091-1093 | Marks one more position |
| ErrorBitfields.ErrorBitfield16.Prepare | reedsolomon/leopard.go:1147-1202 | Makes all three tiers ready for the marked positions |
| WalshLoops.AddModCong | reedsolomon/leopard.go:842-847 | addMod is addition modulo order - 1, with both 0 and order - 1 as zero |
| WalshLoops.SubModCong | reedsolomon/leopard.go:850-855 | subMod is subtraction modulo order - 1 in spite of the unsigned wrap, and exactly which representative it returns |
| WalshLoops.FwhtBlock | reedsolomon/leopard8.go:953-977 | The inner loop with 16-bit indices: none of them wraps, and each quadruple goes through both layers |
| WalshLoops.Fwht | reedsolomon/leopard8.go:946-981 | Every entry ends congruent to its entry of the integer Walsh-Hadamard transform, with zeros from mtrunc on skipped |
| Walsh.WhtIsSum | reedsolomon/leopard8.go:943-981 | The transform by halves is the sum of the entries signed by the parity of popcount(i and j) |
| Walsh.WhtTwice | reedsolomon/leopard8.go:943-981 | Two passes multiply by the number of entries |
| Walsh.WhtConvolve | reedsolomon/leopard8.go:511-518 | The transform turns xor convolution into the product entry by entry |
| Walsh.ConvolveIsSum | reedsolomon/leopard8.go:511-518 | Entry i of the convolution is the sum of a[j] * b[i xor j] |
| ErrorLocator.FwhtTwice | reedsolomon/leopard8.go:946-981 | Two full passes give every entry back up to the two forms of zero |
| ErrorLocator.EvaluateLocator | reedsolomon/leopard8.go:511-518 | Transform, product modulo the modulus and transform leave at every i a value congruent to the sum over j of e[j] * log(i xor j), with log(0) as 0 |
| ErrorLocator.InitLogWalsh | reedsolomon/leopard8.go:1101-1108 | logWalsh8 holds the transform of the logarithms with 0 for that of 0 |
| FormalDerivative.Derive | reedsolomon/leopard8.go:631-636 | The loop in place leaves in shard j its old value combined with the old shard j + 2^b for every clear bit b of j |
| FormalDerivative.ReadsOriginal | reedsolomon/leopard8.go:633-636 | What a round reads no earlier round has written |
| FormalDerivative.RoundsAreBits | reedsolomon/leopard8.go:633-636 | The rounds visit each clear bit of j exactly once |
| FormalDerivative.WidthFits | reedsolomon/leopard8.go:634 | The width of a round keeps both stretches inside the shards |
| LogTables.InitLUTs | reedsolomon/leopard.go:941-984 | At either width the shift register and the Cantor basis give the logarithms and exponents of the field, the last entry of expLUT included |
| LeopardTables.InitMul8LUT | reedsolomon/leopard8.go:1111-1131 | The table assembled from nibble products holds every product |
| LeopardTables.RefMul8 | reedsolomon/leopard8.go:900-909 | The kernel is the product of every byte, for lengths divisible by 64 |
| LeopardTables.RefMulAdd8 | reedsolomon/leopard8.go:884-897 | The kernel adds the product byte by byte to whole blocks of 64 and leaves the rest: for shards of the codec, the product of the transform theorems |
| LeopardTables.FftKernel8 | reedsolomon/galois_noasm.go:64-69 | The forward butterfly on byte buffers of any length, with the product of the transform theorems when it is divisible by 64 |
| LeopardTables.IfftKernel8 | reedsolomon/galois_noasm.go:78-83 | The inverse butterfly on byte buffers, likewise |
| LeopardTables.Leopard8Laws | reedsolomon/leopard8.go:884-925 | The product of the 8-bit codec satisfies what the transform theorems ask of it |
| LeopardTables.ShardRestored | reedsolomon/leopard8.go:648-671 | Scaling a shard by k and by modulus - k restores it, for k = 0 and k = modulus as well |
| LeopardTables16.InitMul16LUT | reedsolomon/leopard.go:1034-1055 | Lo holds the products of every low byte and Hi those of every high byte, assembled from the products of the four digits |
| LeopardTables16.TablesMultiply | reedsolomon/leopard.go:774-792 | Two lookups and an exclusive or give the product of any of the 65536 elements |
| LeopardTables16.BlockElements | reedsolomon/leopard.go:774-823 | In each block of 64 bytes, byte i and byte i + 32 are the low and high half of an element, before the product and after it |
| Elements16.TwiddleIsProduct | reedsolomon/leopard.go:639-646 | A butterfly with the table entry of block q multiplies every element by the field element 2q, so by zero for the entry that equals the modulus |
| LeopardTables16.RefMul16 | reedsolomon/leopard.go:808-823 | Every block of 64 bytes becomes the bytes of the products of its 32 elements, low halves first |
| LeopardTables16.RefMulAdd16 | reedsolomon/leopard.go:774-792 | The products are added to whole blocks and the rest of x stays |
| LeopardTables16.FftKernel16 | reedsolomon/galois_noasm.go:58-62 | The forward butterfly on byte buffers |
| LeopardTables16.IfftKernel16 | reedsolomon/galois_noasm.go:72-76 | The inverse butterfly on byte buffers |
| LeopardTables16.Leopard16Laws | reedsolomon/leopard.go:774-839 | The product of the 16-bit codec, on elements split over two halves of a block, satisfies what the transform theorems ask of it |
| Registers.FullPeriod8 | reedsolomon/leopard8.go:1029-1037 | The register of 0x11D returns to 1 after 255 steps and not before |
| Registers.FullPeriod16 | reedsolomon/leopard.go:952-960 | The register of 0x1002D returns to 1 after 65535 steps and not before |
| BinaryField.Gf.PeriodFromPrimes | reedsolomon/leopard.go:952-960 | A register has full period if no power at the quotient of the order by one of its primes is 1 |
| BinaryField.Gf.MulIsSchoolbook | reedsolomon/leopard.go:826-839 | Adding logarithms is multiplying polynomials modulo the generating one, shift and add |
| CantorField.Field.MulLogIsShift | reedsolomon/leopard.go:826-839 | In the form of the register the product by a logarithm is that many steps of the register, at either width |
| CantorField.Field.MulLogLinear | reedsolomon/leopard.go:826-839 | mulLog is linear in its first argument |
| CantorField.Field.MulLogIsProduct | reedsolomon/leopard.go:826-839 | With the logarithm of b it is the product of polynomials modulo the generating one |
| CantorField.Field.ScalingRestores | reedsolomon/leopard8.go:648-671 | Scaling by k and then by modulus - k restores every element |
| CantorBases.Bases8 | reedsolomon/leopard8.go:1022-1024 | The Cantor basis of width 8 is a basis: a map given by the images of single bits undoes it |
| CantorBases.Bases16 | reedsolomon/leopard.go:942-947 | The Cantor basis of width 16 is a basis |
| CantorLaw.Cantor8 | reedsolomon/leopard8.go:1022-1024 | In the basis of width 8 the square of an element plus the element is the element shifted right by one |
| CantorLaw.Cantor16 | reedsolomon/leopard.go:942-947 | The same in the basis of width 16 |
| LeopardField.Field16Valid | reedsolomon/leopard.go:941-984 | The register, its logarithms and the Cantor basis of the 16-bit codec make a field of 65536 elements |
| SplitJoin.Split | reedsolomon/leopard.go:271-333 | For every non-empty slice and every capacity: totalShards shards of one length, the least multiple of 64 that will do, the data shards holding the data and zeros, the parity shards zeros; only spare capacity is written |
| SplitJoin.PerShardLeast | reedsolomon/leopard.go:279-281 | The length per shard is the least multiple of 64 that gives the data room |
| SplitJoin.Join | reedsolomon/leopard.go:227-265 | Writes exactly the first outSize bytes, or fails: by which error, exactly when, and with what written |
| SplitJoin.SplitThenJoin | reedsolomon/leopard.go:227-333 | Join after Split writes exactly the data |
| Matrix.Invert | reedsolomon/matrix.go:189-207 | Succeeds exactly when an inverse exists; the result is a left and right inverse and the receiver is unchanged; on errSingular a nonzero vector is mapped to zero |
| Matrix.GaussianElimination | reedsolomon/matrix.go:209-265 | Reduces in place without changing the solution set, or names a vector of the kernel |
| Matrix.Pivot | reedsolomon/matrix.go:215-231 | Finds and swaps in a row with a nonzero pivot if there is one |
| Matrix.ClearBelow | reedsolomon/matrix.go:239-249 | Clears the column below the pivot |
| Matrix.ClearAbove | reedsolomon/matrix.go:252-263 | Clears the columns above the pivots |
| Matrix.Multiply | reedsolomon/matrix.go:103-118 | The product, or a size error |
| Matrix.Augment | reedsolomon/matrix.go:121-137 | Rows side by side, or a size error |
| Matrix.SubMatrix | reedsolomon/matrix.go:155-167 | The rows and columns asked for |
| Matrix.SwapRows | reedsolomon/matrix.go:170-176 | Exactly the two rows change places, or an error |
| Matrix.IdentityMatrix | reedsolomon/matrix.go:48-57 | The identity, or an error |
| Matrix.SingularFromKernel | reedsolomon/matrix.go:185-192 | A nonzero vector in the kernel rules out an inverse |
| SolutionSets.EliminationInverts | reedsolomon/matrix.go:196-206 | What stands to the right of the identity after elimination is the inverse |
| Vandermonde.NewVandermonde | reedsolomon/matrix.go:270-281 | Entry (r, c) is byte(r) to the power c |
| Vandermonde.DistinctRowsRegular | reedsolomon/matrix.go:267-281 | With at most 256 rows, every choice of k distinct rows is invertible |
| Vandermonde.SelectionRegular | reedsolomon/matrix.go:267-281 | A choice of k rows is invertible if and only if their indices differ as bytes |
| Polynomials.RootsForceZero | reedsolomon/matrix.go:267-281 | A polynomial with more roots than its degree is zero |
| Galois.MultiplyIsSchoolbook | reedsolomon/galois.go:851-892 | The product of bytes from logarithms is the product of polynomials modulo the generating one |
| Galois.KnownProducts | reedsolomon/galois_test.go:129-137 | 3 * 4 = 12, 7 * 7 = 21 and 23 * 45 = 41, as the tests of the tables say |
| Galois.MulLaws | reedsolomon/galois.go:851-892 | Multiplication and inverse of bytes satisfy the laws of a field |
| Galois.Distributes | reedsolomon/galois.go:72-74 | Multiplication distributes over exclusive or |
| Galois.GalExp | reedsolomon/galois.go:897-911 | a to the power n, as repeated multiplication |
| GenTables.GenerateExpTable | reedsolomon/gentables.go:73-81 | All 510 entries are the powers of the generator |
| GenTables.GenerateMulTableSplit | reedsolomon/gentables.go:99-113 | Every entry is the product |
| GenTables.GenerateMulTableHalf | reedsolomon/gentables.go:115-133 | The half tables hold the products by low and high nibbles |
| GenTables.HalvesMultiply | reedsolomon/gentables.go:115-133 | Two lookups in the half tables and an exclusive or are the product |
| CodingMatrix.BuildMatrix | reedsolomon/reedsolomon.go:220-244 | Never fails for at most 256 shards; the result is the one matrix that turns the top of the Vandermonde matrix into the whole of it, its top square is the identity and every choice of k rows is invertible |
| CodingMatrix.ShardsAreValues | reedsolomon/reedsolomon.go:220-244 | Of data that are the values of a polynomial of degree below k at 0 to k - 1, every shard is the value at its number |
| CodingMatrix.DecodeRecovers | reedsolomon/reedsolomon.go:1488-1530 | Inverting the rows of any k shards recovers the data from them |
| ReedSolomon.CodeSomeShards | reedsolomon/reedsolomon.go:816-901 | The outputs are the matrix product of the rows and the inputs, in rounds of any size |
| ReedSolomon.GalMulSlice | reedsolomon/galois_noasm.go:9-19 | One output is the input times a constant |
| ReedSolomon.GalMulSliceXor | reedsolomon/galois_noasm.go:21-31 | The input times a constant is added to the output |
| ReedSolomon.CheckShards | reedsolomon/reedsolomon.go:1331-1356 | Which error, exactly when |
| ReedSolomon.SizesMean | reedsolomon/reedsolomon.go:1331-1356 | What checkShards looks for in terms of the shards that are there: some is, and all have one length |
| ReedSolomon.ShapeExactly | reedsolomon/reedsolomon.go:617-625 | Encode and Verify succeed if and only if all shards are there with one length; which error otherwise |
| ReedSolomon.Codec.Encode | reedsolomon/reedsolomon.go:617-633 | Every shard becomes its row of the matrix times the data; which error, exactly when |
| ReedSolomon.Codec.Verify | reedsolomon/reedsolomon.go:791-805 | True exactly when the shards are what Encode would leave; which error, exactly when |
| ReedSolomon.Codec.Reconstruct | reedsolomon/reedsolomon.go:1428-1573 | If the shards present come from any data, every missing shard asked for becomes the one that data encodes to, with matrices from the tree or inverted anew; it succeeds if and only if at least dataShards shards of one length are there, for dataOnly as well |
| ReedSolomon.VerdictExactly | reedsolomon/reedsolomon.go:1428-1467 | reconstruct succeeds if and only if at least dataShards shards of one length are there, whether all are asked for or the data alone; which error otherwise |
| CodecRoundTrip.EncodeFresh | reedsolomon/reedsolomon.go:617-633 | Constructor and Encode leave the product of the coding matrix and the data |
| CodecRoundTrip.BringBack | reedsolomon/reedsolomon.go:1373-1573 | When up to parityShards shards of it are lost, whichever, reconstruct succeeds and all shards are back, or with dataOnly the data shards, lost parity shards staying so |
| ReedSolomon.Codec.DecodeMatrix | reedsolomon/reedsolomon.go:1488-1522 | A matrix from the cache or a new one is the inverse of the chosen rows, the only one there is |
| InversionTree.Run | reedsolomon/inversion_tree.go:41-164 | Over any run of inserts and lookups the tree answers as a map from index lists to matrices would |
| InversionTree.Node.Get | reedsolomon/inversion_tree.go:93-122 | A lookup returns what is stored under exactly that key, nothing for intermediate nodes; each child index is in bounds |
| InversionTree.Node.Insert | reedsolomon/inversion_tree.go:124-164 | An insert changes exactly its own key |
| InversionTree.GetInvertedMatrix | reedsolomon/inversion_tree.go:41-58 | Nothing without a tree, otherwise what the map holds, the identity for the empty key included |
| InversionTree.InsertInvertedMatrix | reedsolomon/inversion_tree.go:67-91 | Does nothing without a tree, refuses the empty key and matrices that are not square, otherwise updates the map |
| OptionString.ParseHelperOptionString | fs/mount_helper.go:178-283 | The loop over characters computes the automaton's verdict; errHelperSyntax is never returned and errHelperAfterQuote not at the end of the string |
| OptionString.LastComma | fs/mount_helper.go:267-282 | At the end of the string only an open quote is an error |
| OptionLanguage.AcceptsExactly | fs/mount_helper.go:165-283 | A string is parsed to a list if and only if it is some valid items, quoted or not, joined by commas, with that meaning |
| OptionLanguage.ParsesBack | fs/mount_helper.go:165-283 | Printing and parsing gives the same list if and only if the last value is not an unquoted one ending in space |
| OptionLanguage.QuotedParsesBack | fs/mount_helper.go:165-177 | Arbitrary values come back when they are quoted |
| OptionLanguage.UnderscoreName | fs/mount_helper.go:205-217 | A name may start with an underscore |
| OptionLanguage.UndoubleEscape | fs/mount_helper.go:250-253 | Replacing doubled quotes undoes doubling them |
| OptionErrors.RefusesExactly | fs/mount_helper.go:200-282 | A string is refused with an error if and only if, behind some complete items, it has the fault of that error: an empty name, a hyphen at its start, another character or a dot elsewhere than behind two prefixes, text behind a closed quote, or an open quote at the end |
| OptionErrors.NameAccepted | fs/mount_helper.go:33-33 | Every nonempty name over the characters written out, that does not start with a hyphen, is taken as an option, alone and with a plain value |
| OptionErrors.DottedAccepted | fs/mount_helper.go:219-222 | So are such names behind "env." and "x-systemd." |
| OptionErrors.TrimsExactly | fs/mount_helper.go:178-188 | The string that is parsed has no space, in the sense of Unicode, at either end, and only that was taken off |
| ConfigStates.StatePush | fs/backend_config.go:296-304 | Joins the widened values and rewrites the caller's slice |
| ConfigStates.PopFirst | fs/backend_config.go:324-332 | Popping undoes pushing if and only if the value holds no wide comma |
| ConfigStates.PopLast | fs/backend_config.go:324-332 | For the last value of all it does if and only if the value holds no comma |
| ConfigStates.PopExactly | fs/backend_config.go:324-332 | What is popped is the text before the first comma with its wide commas changed back, or the whole state as it is |
| ConfigStates.DecodeEncode | fs/backend_config.go:375-408 | The states of configAll are decoded to what was encoded |
| ConfigSteps.MatchProvider | fs/backend_config.go:541-569 | True exactly when the list or the provider is blank, or the provider stands between two commas of the list, or does not behind a "!" |
| ConfigSteps.SplitJoins | fs/backend_config.go:541-569 | The list of providers is taken apart at its commas, and joining the parts gives it back |
| ConfigSteps.ConfigAll | fs/backend_config.go:370-462 | The reply and the values stored, for every state string, in terms of its decoded fields |
| ConfigSteps.AsksExactly | fs/backend_config.go:414-443 | An option is asked about if and only if it is visible, of the kind asked about, and its providers fit the one stored; it is then asked with exactly the examples that fit, in their order; otherwise the next option is gone to |
| ConfigSteps.MovesExactly | fs/backend_config.go:371-461 | Where the other states lead, and each error, exactly when |
| ConfigSteps.StoresExactly | fs/backend_config.go:444-453 | Only the answer to a question is stored, and no blank where there was no value |
| ConfigRun.BackendConfigStep | fs/backend_config.go:464-539 | The reply and the values stored, for every state string: the sections, the OAuth machine and the Config of the backend as given functions, overrides, AutoConfirm, ConfigEdit |
| ConfigRun.RoutesExactly | fs/backend_config.go:471-490 | Which machine a state belongs to |
| ConfigRun.OAuthState | fs/backend_config.go:496-505 | When a machine asks for OAuth, popping the new state as the OAuth machine does gives its name, the state to return to (none for rclone authorize), and the state and result that led to the request: either state if and only if it holds no wide comma, the result if and only if it holds no comma |
| ConfigRun.QuestionExactly | fs/backend_config.go:506-536 | An override comes before the default that AutoConfirm takes; a question that is shown differs from the one asked in its default alone, the stored value when an entry is edited |
| ConfigRun.StopsExactly | fs/backend_config.go:338-363 | A step ends the run if and only if it fails, has no reply, or replies with the empty state, a question or an error to show |
| ConfigRun.BackendConfig | fs/backend_config.go:338-363 | Whenever the run of rounds stops at all, for every environment, backend and start state, the loop returns what it stops with and leaves the values it leaves |
| ConfigRun.RunFinishes | fs/backend_config.go:334-363 | When no question needs a user and advanced config is not always asked for, a run from "*all" is over within 2n + 3 rounds after one pass over the basic options |
| ConfigRun.EndsExactly | fs/backend_config.go:338-363 | With or without AutoConfirm, a run from "*all" ends unless the override "true" for config_fs_advanced meets an advanced option and neither the basic pass nor two advanced ones stop to ask a user, and then it never does |
| ConfigRun.AutoConfirmLoops | fs/backend_config.go:515-520 | With AutoConfirm no question stops the run, so it goes round exactly with that override and an advanced option |
| ConfigRun.GoesRound | fs/backend_config.go:338-363 | An environment with one advanced option and the override, from which the run never ends |
| ConfigRun.VisitsRise | fs/backend_config.go:413-453 | Options are asked at most once each, in the order of their indices |
| ConfigRun.PassLeaves | fs/backend_config.go:444-453 | Every name is left at the override or default of the last option asked with it, or as it was |
| Timetable.LimitAt | fs/bwtimetable.go:229-264 | The last of the latest slots begun this week, or the last entry of the table |
| Timetable.OneInForce | fs/bwtimetable.go:229-264 | Exactly one slot is in force, going back over the start of the week |
| Timetable.LimitInForce | fs/bwtimetable.go:229-264 | The one slot in force is returned if and only if some slot has begun this week or the last entry is the latest of the week |
| Timetable.LatestIsInForce | fs/bwtimetable.go:246-263 | A latest slot begun this week minimises (now - slot) mod 10080, the last among ties |
| Timetable.WrapsAround | fs/bwtimetable.go:237-242 | Before the first slot of the week the last entry is in force if and only if it is the latest |
| Timetable.OutOfOrder | fs/bwtimetable.go:229-264 | A table whose last entry is not its latest, and a time before its first slot of the week: the last entry is returned and another slot alone is in force |
| Timetable.SameOrder | fs/bwtimetable.go:249-252 | Comparing day and clock numbers is comparing minutes |

## Left out

- reconstruct of the 16-bit codec: the loops it runs (transforms, bitfield, locator,
  derivative, tables) are covered at its width, the method around them is not written out, and
  `LeopardRoundTrip16.AnyShardsDetermine16` says that the data are determined, not that the
  method finds them.
- The cache of error locators of the 8-bit codec: its key is taken before `prepare` in one
  place and after it in another. reconstruct is modelled without it.
- `ReconstructSome`, `Update`, `EncodeIdx` and the streaming interface.
- Aliasing of byte buffers: shards and matrix rows are values in an array that is updated in
  place. In `encode` the parity shards stand in for rows of `work`; the model copies them in
  and out. The two halves of the pooled slice `work` are two arrays.
- LeopardCodec.LeopardFF8.Encode: when there is something to compute, requires that the
  chunks fit the skew table, which `newFF8` does not see to; `LeopardEncode.FitsExactly` says
  what that amounts to. Without it the code panics.
- LeopardCodec.LeopardFF8.Verify: the same.
- LeopardCodec16.LeopardFF16.Encode: the same, with `newFF16`.
- LeopardCodec16.LeopardFF16.Verify: the same.
- LeopardDecoder.Reconstruct: when there is something to compute, requires m + dataShards <=
  256; `LocatorReads.ReconstructReads` shows that the code panics otherwise.
- LeopardDecoder.ReconstructData: the same.
- LeopardDecoder.Rebuild: the same.
- LeopardRoundTrip.EncodeFresh: requires the same of the counts.
- LeopardRoundTrip.BringBack: the same.
- LeopardRoundTrip.BringBackData: the same.
- LeopardRoundTrip16.EncodeFresh16: requires m + dataShards <= 65536 in the same way.
- Galois.MulLaws: is about tables computed as their generators compute them; the numerals in
  `logTable`, `expTable`, `mulTable` and `invTable` are not compared.
- Coding matrices other than the default one (Cauchy, PAR1, Jerasure, custom), and codecs
  without parity shards.
- Concurrency: goroutines, pools and locks. Each tree operation is atomic; codeSomeShards is
  modelled with rounds of any size but in one thread.
- Assembly and vector kernels, CPU options, race hooks.
- ConfigRun.EndsExactly: is about a nil Config, since the Config of a backend is code outside
  the model; `BackendConfigStep` and `BackendConfig` take any. So they take the OAuth machine.
  Option values are strings, and the config is one map.
- Parsing and printing of timetables and bandwidths, JSON, logging, environment variables,
  `convertMountHelperArgs`.
- Byte positions inside multi-byte characters: option strings and states are sequences of
  characters.
