# A verified model of the miner's core

This Dafny project models the computing and protocol core of the Bitcoin miner: the hash functions, the 256-bit target
arithmetic, Merkle trees and work construction, the JSON and line framing of the Stratum protocol, the nonce search on
CPU and GPU, the job hand-over between threads, and the bookkeeping of submitted shares. `dafny verify dfyconfig.toml`
checks all of it.

How it is laid out:

- **SHA-256.** `Sha256Spec` is FIPS 180-4 (sections 4.1.2, 5.1.1, 5.2.1, 5.3.3 and 6.2.2) written as functions.
  `Sha256` is the streaming class; its invariant keeps the message absorbed so far as a ghost field. `CudaSha256` is
  the device form with hard-wired padding. The round constants are the same in both source files and are stated once;
  `Sha256Constants` proves where they come from (sections 4.2.2 and 5.3.3), and `GenesisRounds` and `Genesis` compute the
  hash of the genesis header, round by round, with the functions of `Sha256Spec`.
- **256-bit numbers.** `Uint256`, `Uint256Division` and `Uint256Hash` prove the limb code against integers; `Value` is
  the number that four limbs denote. `CompactBits` and `ShareDifficulty` build the targets on it, and `PoolVerdict`
  compares them with the pool's. `Arith` holds the arithmetic that they need.
- **Work.** `Merkle`, `Header`, `HashCodec`, `Hex` and `Work` lead from a pool's job to the bytes that are hashed;
  `ByteOrder` says which numbers those bytes denote.
- **Text.** `JsonValue`, `JsonParser` (functions), `JsonCursor` (the cursor-moving parser), `JsonGrammar` (the language that
  it accepts) and `JsonErrors` (what it says of other texts), `JsonPrinter` and `JsonRoundTrip` with `JsonDepth`;
  `TextLaws` for digits, numbers and escapes; `Requests` for the lines sent and `LineBuffer` for the lines received.
  `Bytes`, `Chars` and `Wrappers` hold the types they share.
- **Pool.** `StratumMessage` decodes notifications and `Session` completes them into jobs; `MockPool` is the other end,
  `scripts/mock_pool.py`; `HeaderRoundTrip` and `ShareRoundTrip` connect the two ends.
- **Search.** `CpuMiner` (search, verification and the worker's sweep), `Kernel` and `CudaMiner` (device threads as
  interleaved atomic steps, and the host loop), `Controller` (pool callbacks and workers as interleaved atomic steps) and
  `ControllerSlot` (what is in the slot, and what a worker's check of it finds).
- **Bookkeeping.** `Ledger` (who owns a share at each moment), `LedgerSessions` (which session it goes out in),
  `LedgerCounts` (what the counters count) and `Stats` (hash-rate windows).

Conventions:

- Outside the SHA-256 modules the hash is a parameter `D` from byte strings to 32 bytes. Nothing is assumed about it
  (`Genesis` is about SHA-256d itself); where a statement needs distinct hashes it hands back two inputs with one hash
  instead.
- The environment is a parameter: what the stop flag reads at each check, whether a line could be sent, what the clock
  says, what the CUDA runtime answers, which thread moves next.
- Finite doubles are the reals they denote. Scaling a difficulty by 2^32 is exact.
- Classes that change their fields are proved against functions of their abstract contents (`Contents`, `Did`, the
  ghost fields of `SHA256`, `LineBuffer` and `Statistics`); runs are sequences of steps of those functions.

Where the code and its comments differ, the model follows the code:

- `src/cuda/cuda_backend.cu:207` says the lowest nonce is kept. `Kernel.LowestExactlyWhenUnique` shows when that is
  certain, and `Kernel.StoreAfterMin` an interleaving in which it fails.
- `src/mining/backend.hpp:29-32` says the hashes counted are those performed. The GPU loop counts whole launches
  although threads that exit early do not hash. `Kernel.HashesCounted` shows that the count of a launch is certain to be
  right exactly when none of its nonces wins or it covers at most one nonce; otherwise it may hash a single one.
- `workerLoop` charges one nonce more than was hashed for each share (`src/mining/miner.cpp:424-426`). A completed sweep
  therefore covers all 2^32 nonces exactly when none but the last of them wins (`CpuMiner.SweepWork`); on the GPU, where
  a share is charged up to the end of its launch, it leaves out at most a launch for each share, and of what it passes
  over it misses only winners that stand before a share in the launch that reported it (`CudaMiner.SweepOnGpu`).
- `src/mining/miner.cpp:389-390` credits the starting nonce with keeping threads apart. Sweeps are 2^32 long and
  overlap, and a worker that starts while the list of workers still grows (`src/mining/miner.cpp:227`) can begin at 0
  like the first (`CpuMiner.EarlyStart`). What separates workers on one job is the extranonce counter, and only while
  the counters differ modulo 256^size: `Controller.ItemsApart`, `Controller.WrappedCountersCoincide`.
- `decodeCompactBits` decides the sign before it shifts the mantissa (`src/bitcoin/difficulty.cpp:17`), so some nBits
  that denote zero are rejected as negative: exactly those of `CompactBits.NegativeZero`.
- The miner truncates a difficulty to a multiple of 2^-32 (`src/bitcoin/difficulty.cpp:95-116`), which the mock pool does
  not (`scripts/mock_pool.py:47-48`). No share is withheld by that, but some are submitted that the pool refuses as too
  easy, and exactly at which difficulties is `PoolVerdict.AgreeExactly`; the mock pool's default 0.001 is one of them.
- `LineBuffer::clear` keeps the overflow mark (`src/stratum/message.hpp:29`), so after an overflow no later connection
  reads a line: `LineBuffers.Session`.
- `src/stratum/client.hpp:91-93` has the caller count a share that is refused as stale. Shares lost to a reconnect or a
  failed send are not (`Ledger.ReconnectDrops`, `Ledger.SendFailureDrops`). The counters add up exactly in the runs
  without such a step: `Ledger.CountersMissDropped`.
- `src/stratum/client.cpp:210` says that nothing survives a reconnect. A worker that has passed the state check of
  `submitShare` before the reconnect and queues its share after it has the share sent in the new session, and only such a
  worker does: `LedgerSessions.SessionOfShare`, `LedgerSessions.OldShareGoesOut`.

## Model

| member | source | states |
|---|---|---|
| `Sha256.SHA256.Reset` | src/bitcoin/sha256.cpp:50-62 | after a reset the object represents the empty message, whatever it held before |
| `Sha256.SHA256.Transform` | src/bitcoin/sha256.cpp:64-95 | one block changes the state by the compression function of FIPS 180-4, section 6.2.2 |
| `Sha256.ExpandBlock` | src/bitcoin/sha256.cpp:65-69 | the 64 schedule words computed in place are the message schedule of section 6.2.2 |
| `Sha256.SHA256.Update` | src/bitcoin/sha256.cpp:97-122 | the class invariant ties state, buffer and bit length to the bytes so far; update appends exactly its bytes, for every split between buffer and whole blocks |
| `Sha256.SHA256.Finalize` | src/bitcoin/sha256.cpp:128-143 | the digest is FIPS 180-4 SHA-256 of everything absorbed, in both padding cases, below 2^61 bytes |
| `Sha256.FinalDigest` | src/bitcoin/sha256.cpp:128-143 | when the chained hash values cover the message and the padding that finalize wrote, the last of them spells the SHA-256 of the message |
| `Sha256.WriteBE64` | src/bitcoin/sha256.cpp:41-44 | two halves of four bytes each are the big-endian bytes of the 64-bit length |
| `Sha256.PadCases` | src/bitcoin/sha256.cpp:131-139 | how many zero bytes each of the two padding cases writes |
| `Sha256.DigestOf` | src/bitcoin/sha256.cpp:145-155 | SHA-256 of one buffer |
| `Sha256.DoubleDigestOf` | src/bitcoin/sha256.cpp:157-161 | SHA-256d of one buffer |
| `Sha256.DigestOfChunks` | src/bitcoin/sha256.cpp:97-143 | however a message is cut into updates, the digest is that of the whole message |
| `Sha256.ChainIsAbsorb` | src/bitcoin/sha256.cpp:64-122 | the state after n blocks is the n-th intermediate hash value of the message |
| `Sha256Constants.RoundConstants` | src/bitcoin/sha256.cpp:8-19 | section 4.2.2 of FIPS 180-4: the 64 round constants, which the device shares, are the first 32 bits of the fractions of the cube roots of the first 64 primes |
| `Sha256Constants.FirstPrimes` | src/bitcoin/sha256.cpp:8-19 | the primes meant: exactly those up to 311, in order |
| `Sha256Constants.InitialHash` | src/bitcoin/sha256.cpp:50-62 | section 5.3.3: the initial hash value holds the first 32 bits of the fractions of the square roots of the first eight primes |
| `Sha256Constants.ChBits` | src/bitcoin/sha256.cpp:22-22 | Ch chooses bit by bit between its second and third argument |
| `Sha256Constants.MajBits` | src/bitcoin/sha256.cpp:23-23 | Maj has, bit by bit, what two of its three arguments agree on |
| `Genesis.HashIs` | src/mining/miner.cpp:436-459 | the 80 bytes of the genesis header, hashed twice, are the published hash: the schedule, every rotation, the padding and the header layout in one computation |
| `Genesis.SelfTest` | src/mining/miner.cpp:436-459 | the first part of the self-test passes: the header read from its displayed fields has the displayed hash |
| `Genesis.SelfTestSearch` | src/mining/miner.cpp:464-498 | the second part of the self-test finds a winning nonce within 50001 hashes, and passes exactly when none of the 50000 nonces below the known one wins |
| `Genesis.MeetsOwnTarget` | tests/test_block_header.cpp:73-78 | the genesis hash meets the target of its own nBits, which is the target of difficulty one |
| `CudaSha256.Sha256Compress` | src/cuda/cuda_backend.cu:86-108 | the device compression is the compression function that the CPU uses |
| `CudaSha256.FirstHash` | src/cuda/cuda_backend.cu:126-139 | two compressions with the constant padding of an 80-byte message give its SHA-256 |
| `CudaSha256.SecondHash` | src/cuda/cuda_backend.cu:141-153 | one compression with the constant padding of a 32-byte message gives the SHA-256 of the digest |
| `CudaSha256.Sha256dHeader` | src/cuda/cuda_backend.cu:121-162 | for every 80-byte header the device result is SHA-256d, the function DoubleDigestOf computes |
| `CudaSha256.HeaderDigest` | src/cuda/cuda_backend.cu:132-139 | the hard-wired words 0x80000000, zeros and 640 are exactly the padding of 80 bytes |
| `CudaSha256.PaddedBlockWords` | src/cuda/cuda_backend.cu:133-152 | big-endian words of a padded last block, for any number of whole message words |
| `Uint256.Compare` | src/bitcoin/uint256.cpp:84-91 | the limb comparison orders the numbers the limbs denote |
| `Uint256.Plus` | src/bitcoin/uint256.cpp:128-140 | carries included, the sum modulo 2^256 |
| `Uint256.Minus` | src/bitcoin/uint256.cpp:142-158 | borrows included, the difference modulo 2^256 |
| `Uint256.BitLength` | src/bitcoin/uint256.cpp:70-82 | the number of significant bits |
| `Uint256.BitLengthUnique` | src/bitcoin/uint256.cpp:70-82 | the number of significant bits is determined by the value |
| `Uint256.Or` | src/bitcoin/uint256.cpp:160-164 | bitwise or, limb by limb |
| `Arith.BitsOfOr` | src/bitcoin/uint256.cpp:160-164 | a bit of the result is set exactly when it is set in one of the two |
| `Uint256.Shl` | src/bitcoin/uint256.cpp:93-109 | for every shift, multiplication by a power of two modulo 2^256 |
| `Uint256.Shr` | src/bitcoin/uint256.cpp:111-126 | for every shift, division by a power of two |
| `Uint256.ShlBits` | src/bitcoin/uint256.cpp:102-106 | bits carried between limbs on a left shift, as arithmetic |
| `Uint256.ShrBits` | src/bitcoin/uint256.cpp:119-123 | bits carried between limbs on a right shift, as arithmetic |
| `Uint256Division.Divide` | src/bitcoin/uint256.cpp:166-191 | exact quotient and remainder for every numerator and denominator; both zero for a zero denominator |
| `Uint256Division.DivisionStep` | src/bitcoin/uint256.cpp:176-187 | the invariant of one step: the partial remainder is at most n / 2^(bit+1), so shifting it loses no bit even for denominators of 2^255 and more |
| `Uint256Hash.FromHash` | src/bitcoin/uint256.cpp:13-23 | the limbs denote the little-endian value of the 32 bytes |
| `Uint256Hash.ToHash` | src/bitcoin/uint256.cpp:25-33 | the inverse of FromHash: the bytes denote the value of the limbs |
| `Uint256Hash.HashLessOrEqual` | src/cuda/cuda_backend.cu:164-173 | the top-down byte comparison on the device orders hashes as the limb comparison on the host does |
| `CompactBits.DecodeCompactBits` | src/bitcoin/difficulty.cpp:14-53 | decodes exactly the target that nBits denotes, or reports negative and overflow exactly; the sign is decided on the unshifted mantissa |
| `CompactBits.FitsExactly` | src/bitcoin/difficulty.cpp:34-40 | the bit-length test passes exactly when mantissa * 256^k is below 2^256 |
| `CompactBits.TargetFromCompactBits` | src/bitcoin/difficulty.cpp:55-59 | zero exactly for what does not decode to a non-zero target |
| `CompactBits.EncodeCompactBits` | src/bitcoin/difficulty.cpp:61-84 | the three leading bytes with the exponent, renormalised when they would set the sign bit |
| `CompactBits.DecodeEncode` | src/bitcoin/difficulty.cpp:14-84 | every 256-bit target decodes after encoding, to at most itself and within one part in 2^15 |
| `CompactBits.EncodeMonotone` | src/bitcoin/difficulty.cpp:61-84 | larger targets have larger encodings |
| `CompactBits.DecodeEncodeDecode` | src/bitcoin/difficulty.cpp:14-84 | re-encoding a decoded target and decoding it again changes nothing |
| `CompactBits.EncodeDecode` | src/bitcoin/difficulty.cpp:61-84 | encoding gives nBits back exactly when it is canonical: zero, or unsigned with a leading byte pair of at least 0x80 and no bits that the exponent shifts out |
| `CompactBits.NegativeZero` | src/bitcoin/difficulty.cpp:17-32 | exactly which nBits are rejected as negative although their mantissa is shifted to zero |
| `CompactBits.SignBitNegates` | src/bitcoin/difficulty.cpp:14-53 | the sign bit rejects every non-zero mantissa as negative, at every exponent, and changes nothing else |
| `CompactBits.KnownTargets` | tests/test_difficulty.cpp:113-120 | the targets that the tests of the format spell out |
| `ShareDifficulty.HashMeetsTarget` | src/bitcoin/difficulty.cpp:86-89 | a hash meets a target when the target is not zero and the hash is not above it |
| `ShareDifficulty.TargetFromShareDifficulty` | src/bitcoin/difficulty.cpp:91-117 | the target for every difficulty below 2^64, over all five branches; what it means is said by Work.TargetIsDifficulty |
| `ShareDifficulty.ShareDifficultyOfHash` | src/bitcoin/difficulty.cpp:119-123 | floor of difficulty one over the hash |
| `ShareDifficulty.ShareDifficultyOfHashFixed32` | src/bitcoin/difficulty.cpp:125-130 | the same in units of 2^-32, without overflow |
| `ShareDifficulty.MeetsIffFixed32` | src/bitcoin/difficulty.cpp:86-130 | for 2^-32 <= d < 2^32 a hash meets the target exactly when its fixed-point difficulty reaches floor(d * 2^32) |
| `ShareDifficulty.MeetsIffInteger` | src/bitcoin/difficulty.cpp:86-123 | for 2^32 <= d < 2^64 exactly when its integer difficulty reaches floor(d) |
| `ShareDifficulty.MeetsClamped` | src/bitcoin/difficulty.cpp:98-103 | below 2^-32 every hash meets the clamped target |
| `ShareDifficulty.TargetAntitone` | src/bitcoin/difficulty.cpp:91-117 | a higher difficulty never has a higher target, across the branches |
| `ShareDifficulty.UnitOfDifficulty` | src/bitcoin/difficulty.cpp:7-12 | the unit of difficulty is 0xFFFF followed by 208 zero bits, the target that nBits 0x1d00ffff denotes, and the target of difficulty 1.0 |
| `PoolVerdict.NoShareWithheld` | scripts/mock_pool.py:47-48 | no hash that the pool would accept at a difficulty misses the miner's target |
| `PoolVerdict.AgreeExactly` | scripts/mock_pool.py:246-260 | for every difficulty that is a double, pool and miner agree on all hashes exactly when it is a multiple of 2^-32, or whole from 2^32 on, or so small that both take everything; otherwise the miner submits shares that the pool refuses |
| `PoolVerdict.DefaultDifficulty` | scripts/mock_pool.py:275-276 | with the default difficulty 0.001 they do not agree |
| `Merkle.MerkleRootFromLeaves` | src/bitcoin/merkle.cpp:5-20 | the level loop computes the root of the tree with odd levels completed |
| `Merkle.MerkleRootFromBranch` | src/bitcoin/merkle.cpp:22-28 | the fold of a branch |
| `Merkle.MerkleBranchForCoinbase` | src/bitcoin/merkle.cpp:30-49 | the siblings of the leftmost path |
| `Merkle.BranchGivesRoot` | src/bitcoin/merkle.cpp:5-49 | folding the coinbase branch over leaf 0 gives the root of all leaves |
| `Merkle.BranchLength` | src/bitcoin/merkle.cpp:30-49 | the branch has the least length k such that there are at most 2^k leaves |
| `Merkle.SameRootCollision` | src/bitcoin/merkle.cpp:5-20 | two different leaf lists of one length with one root yield two inputs, taken from their trees, with one hash |
| `Merkle.SameFoldCollision` | src/bitcoin/merkle.cpp:22-28 | two starting hashes that a branch folds to one root yield two inputs, one from each fold, with one hash |
| `Merkle.DuplicateTailSameRoot` | src/bitcoin/merkle.cpp:10-10 | lists of different lengths do share a root without a collision: the completed copy |
| `Merkle.SmallTrees` | src/bitcoin/merkle.cpp:5-49 | the left hash is hashed first, and the last of an odd level with itself |
| `JsonCursor.Parser.SkipWhitespace` | src/util/json.cpp:25-34 | moves to the first character that is not white space |
| `JsonCursor.Parser.Fail` | src/util/json.cpp:36-41 | keeps the first error |
| `JsonCursor.Parser.ParseValue` | src/util/json.cpp:43-80 | computes ValueAt in place; a success restores the depth and moves forward; the depth limit, the order of the checks and every error position are kept |
| `JsonCursor.Parser.ParseNumber` | src/util/json.cpp:82-106 | the lexeme read and the number it denotes |
| `JsonCursor.Parser.ParseString` | src/util/json.cpp:108-162 | the decoded string, or the first error, for every escape |
| `JsonCursor.Parser.ParseArray` | src/util/json.cpp:164-194 | the elements in order, with the depth restored |
| `JsonCursor.Parser.ParseObject` | src/util/json.cpp:196-232 | the members, keys in order of first appearance, with the depth restored |
| `JsonCursor.Parse` | src/util/json.cpp:415-429 | the whole text is one value, or the first error and its offset; terminates on every input |
| `JsonParser.ValueAt` | src/util/json.cpp:43-80 | every successful step ends strictly after it began and inside the text |
| `JsonParser.CharsAt` | src/util/json.cpp:112-159 | the loop over a string body always ends inside the text |
| `JsonPrinter.JsonEscape` | src/util/json.cpp:317-342 | the quoted text of a string |
| `JsonPrinter.DumpTo` | src/util/json.cpp:344-407 | appends the text of a value at any indentation and depth |
| `JsonPrinter.DumpArrayTo` | src/util/json.cpp:370-386 | the loop over elements |
| `JsonPrinter.DumpObjectTo` | src/util/json.cpp:387-404 | the loop over members, in key order |
| `JsonRoundTrip.EscapedString` | src/util/json.cpp:108-162 | a printed string reads back as itself wherever it stands, control characters included |
| `JsonRoundTrip.PrintedInteger` | src/util/json.cpp:82-106 | a printed integer reads back as itself when nothing after it continues the number |
| `JsonRoundTrip.PrintedItems` | src/util/json.cpp:164-194 | printed elements read back in order, at every indentation |
| `JsonRoundTrip.PrintedMembers` | src/util/json.cpp:196-232 | printed members read back with their key order |
| `JsonRoundTrip.PrintedValue` | src/util/json.cpp:43-80 | a printed value reads back as itself at any place in a text |
| `JsonRoundTrip.ParseDump` | src/util/json.cpp:344-429 | parse(dump(v, indent)) is v, key order included, for every indentation and every tree with nodes at depth < 64, unique keys and integers below 9e15 |
| `JsonDepth.DeepValue` | src/util/json.cpp:43-48 | a printed value with a node at depth 64 or more is refused for its depth wherever it stands in a text |
| `JsonDepth.ParseDumpIffShallow` | src/util/json.cpp:344-429 | parse(dump(v)) is v exactly when no node reaches depth 64, and the error for nesting otherwise |
| `JsonGrammar.AcceptsExactly` | src/util/json.cpp:43-232 | the parser accepts exactly the texts of a grammar given as syntax trees up to 64 levels deep, and returns what the tree means: white space anywhere between tokens, every escape, every numeral, repeated keys |
| `JsonGrammar.ValueReads` | src/util/json.cpp:43-80 | every tree is accepted wherever it stands in a text |
| `JsonGrammar.ValueDerives` | src/util/json.cpp:43-80 | whatever is accepted is spelt by a tree with that meaning |
| `JsonGrammar.MembersMean` | src/util/json.cpp:196-232 | an object has every key once, where it first appears, with its last value |
| `JsonErrors.BrokenArray` | src/util/json.cpp:176-193 | an array that breaks off or strays after an element: which error, and where |
| `JsonErrors.BrokenObject` | src/util/json.cpp:217-231 | the same for an object after the value of a member |
| `JsonErrors.MissingColon` | src/util/json.cpp:206-214 | a key without a colon is reported where the colon should stand |
| `JsonErrors.BrokenString` | src/util/json.cpp:108-160 | a string that does not end, or whose next escape is cut off or does not exist: which error, and where |
| `JsonErrors.TooMuchOrNothing` | src/util/json.cpp:415-429 | anything after a whole document is refused where it starts, and blank text where it ends |
| `JsonErrors.NoValue` | src/util/json.cpp:43-106 | a text that starts like a literal and is none, or like nothing at all |
| `TextLaws.NumeralReads` | src/util/json.cpp:82-106 | every numeral, with sign, fraction and exponent, reads as the number it denotes |
| `TextLaws.Utf8Decodes` | src/util/json.cpp:138-152 | the bytes of a \u escape are the one UTF-8 encoding of its code in RFC 3629 |
| `TextLaws.EscapeTable` | src/util/json.cpp:117-136 | the two-character escapes of RFC 8259, section 7 |
| `JsonPrinter.ElementLine` | src/util/json.cpp:344-386 | with an indentation every element stands on a line of its own, indented by its depth; without one nothing is added |
| `JsonPrinter.MemberLine` | src/util/json.cpp:387-404 | the same for members, with a space after the colon |
| `Hex.ToHex` | src/util/hex.cpp:17-25 | the text of the bytes, written in place |
| `Hex.FromHex` | src/util/hex.cpp:31-43 | succeeds exactly on an even number of hexadecimal digits, with the bytes they denote |
| `Hex.FromHexFixed` | src/util/hex.cpp:51-57 | fills the buffer, or leaves it alone |
| `Hex.UnhexHexText` | src/util/hex.cpp:17-43 | reading back what was written gives the bytes |
| `Hex.HexTextUnhex` | src/util/hex.cpp:17-43 | writing what was read gives the text in lower case |
| `TextLaws.HexTable` | src/util/hex.cpp:6-13 | the digits 0 to 9 and a to f in order, of either case when read |
| `HashCodec.SwapWordBytes` | src/bitcoin/hash.cpp:57-65 | bytes reversed within each 4-byte word |
| `HashCodec.SwapWordsInvolution` | src/bitcoin/hash.cpp:57-65 | swapping twice changes nothing |
| `HashCodec.FromRawHex` | src/bitcoin/hash.cpp:19-24 | succeeds exactly on 64 hexadecimal digits |
| `HashCodec.ToDisplayHex` | src/bitcoin/hash.cpp:26-30 | the reversed bytes as text |
| `HashCodec.FromDisplayHex` | src/bitcoin/hash.cpp:32-38 | the bytes whose reverse the text spells |
| `HashCodec.DisplayRoundTrip` | src/bitcoin/hash.cpp:26-38 | the displayed form reads back as the hash |
| `ByteOrder.ShownIsCompared` | src/bitcoin/hash.cpp:26-38 | the displayed form of a hash, read as one hexadecimal number, is the number that is compared with the target |
| `ByteOrder.SwappedWord` | src/bitcoin/hash.cpp:57-65 | each word stays in its place and changes between big-endian and little-endian |
| `Header.Le32RoundTrip` | src/bitcoin/block_header.cpp:7-17 | little-endian writing and reading undo each other |
| `Header.SerializeInto` | src/bitcoin/block_header.cpp:28-35 | the 80 bytes of a header, written in place |
| `Header.SetHeaderNonce` | src/bitcoin/block_header.cpp:24-26 | changes the last four bytes and no others |
| `Header.Deserialize` | src/bitcoin/block_header.cpp:43-54 | succeeds exactly on 80 bytes, with the header that serializes to them |
| `Header.SerializeInjective` | src/bitcoin/block_header.cpp:28-54 | different headers have different bytes |
| `Header.PatchedNonce` | src/bitcoin/block_header.cpp:24-35 | patching the nonce of the bytes is serializing the header with that nonce |
| `ByteOrder.HeaderWord` | src/bitcoin/block_header.cpp:7-17 | the words of a header are little-endian |
| `Work.EncodeExtranonce2` | src/mining/work.cpp:23-32 | the low bytes of the counter, most significant first; stopping after eight bytes leaves the zeros that belong there |
| `Work.BeValueOfBytes` | src/mining/work.cpp:23-32 | the bytes denote the counter modulo 256^size |
| `Work.EncodingInjective` | src/mining/work.cpp:23-32 | counters below 256^min(size, 8) are encoded differently |
| `Work.EncodingWraps` | src/mining/work.cpp:23-32 | from 256^size on encodings repeat |
| `Work.BuildCoinbase` | src/mining/work.cpp:9-21 | the four parts in order |
| `Work.BuildWorkWithExtranonce2` | src/mining/work.cpp:34-79 | the header, both targets and the fallback to the network target; valid work always has a non-zero share target |
| `Work.BuildWork` | src/mining/work.cpp:81-84 | the same for a counter |
| `Work.TargetIsDifficulty` | src/mining/work.cpp:67-75 | meeting the target of a job is reaching the pool's difficulty, in units of 2^-32 below 2^32 and whole from there; everything below 2^-32; the network target when the pool has set no positive finite difficulty |
| `Work.HashWorkAtNonce` | src/mining/work.cpp:86-90 | the hash of the header with the nonce in place |
| `Work.CounterCollision` | src/mining/work.cpp:9-84 | two counters below 256^min(size, 8) that give one header for a job yield two inputs with one hash: their two coinbases, or a pair from each of the two folds over them |
| `Work.EncodedAlike` | src/mining/work.cpp:23-32 | two counters are encoded alike exactly when they agree modulo 256^size |
| `Work.SameInputExplained` | src/mining/work.cpp:9-90 | two counters at any nonces give one input of the hash only at equal nonces, and only if they agree modulo 256^size or two inputs on the way to the headers collide |
| `LineBuffers.LineBuffer.Append` | src/stratum/message.cpp:11-18 | appends, or overflows exactly when more than 2^20 bytes hold no newline; nothing is taken after an overflow |
| `LineBuffers.LineBuffer.NextLine` | src/stratum/message.cpp:22-32 | takes the first line, without its newline and at most one carriage return |
| `LineBuffers.LineBuffer.Clear` | src/stratum/message.hpp:29-29 | empties the buffer and leaves the overflow mark set |
| `LineBuffers.LineBuffer.Framing` | src/stratum/message.cpp:11-32 | whatever the appends and whenever lines are taken, the lines taken and to come are those of the stream |
| `LineBuffers.Session` | src/stratum/client.cpp:217-302 | for every way the network cuts the stream the lines are the same; the buffer stays within 2^20 + 8192 bytes; overflow happens exactly when an unfinished line is too long: the lines handed on are then those of the reads before the first such one, and no later connection gets a line |
| `LineBuffers.SplitRejoins` | src/stratum/message.cpp:22-27 | the lines and the rest are the stream cut at its newlines |
| `LineBuffers.LinesAreStripped` | src/stratum/message.cpp:26-31 | no line holds a newline; each is its raw line, less one carriage return when the raw line ends with one |
| `StratumMessage.ParseBigEndianHex32` | src/stratum/message.cpp:146-153 | succeeds exactly on eight hexadecimal digits, with the big-endian number |
| `StratumMessage.ToBigEndianHex32` | src/stratum/message.cpp:155-159 | the big-endian bytes as text |
| `StratumMessage.PrevHashFromStratumHex` | src/stratum/message.cpp:161-166 | the hash whose word-swapped bytes the text spells |
| `StratumMessage.PrevHashToStratumHex` | src/stratum/message.cpp:168-171 | the inverse direction |
| `StratumMessage.ParseSubscribeResult` | src/stratum/message.cpp:173-215 | succeeds exactly on an array with a non-empty hexadecimal extranonce and a size, as number or text, from 1 to 32; takes the id of the last subscription to notifications; otherwise says what is wrong |
| `StratumMessage.SubscriptionIdIsLast` | src/stratum/message.cpp:201-211 | the id is that of the last entry that names mining.notify, empty when none does |
| `TextLaws.SizeAsText` | src/util/json.cpp:257-262 | a size sent as text is the decimal number it spells |
| `TextLaws.StrtollReads` | src/util/json.cpp:257-262 | after any white space a decimal number is read to its last digit and saturates at 64 bits |
| `TextLaws.TruncDropsFraction` | src/util/json.cpp:254-256 | a size sent as a number drops its fraction |
| `StratumMessage.ParseNotify` | src/stratum/message.cpp:217-278 | returns a job exactly when the parameters describe one, and then that job; otherwise names the first bad field |
| `StratumMessage.DescribesUnique` | src/stratum/message.cpp:217-278 | parameters describe at most one job |
| `Requests.WrapRequest` | src/stratum/message.cpp:89-98 | the text of a request line |
| `Requests.BuildSubmit` | src/stratum/message.cpp:121-136 | the text of a submit line |
| `Requests.RequestDump` | src/stratum/message.cpp:89-98 | a hand-assembled request line is what the JSON printer makes of the request |
| `Requests.RequestParses` | src/stratum/message.cpp:89-136 | a request line parses back to exactly its id, method and parameters, whatever characters they hold |
| `Requests.SubmitLineParses` | src/stratum/message.cpp:121-136 | a submit line carries exactly the five strings it was built from |
| `Session.ClientSession.OnSubscribed` | src/stratum/client.cpp:384-391 | takes the extranonce and size of a well-formed answer, or changes nothing |
| `Session.ClientSession.OnSetDifficulty` | src/stratum/client.cpp:442-453 | takes positive difficulties, as numbers or as text, and true as 1, and no others |
| `Session.ClientSession.OnSetExtranonce` | src/stratum/client.cpp:455-465 | changes both values together, or neither |
| `Session.ClientSession.OnNotify` | src/stratum/client.cpp:467-488 | hands on a job exactly when subscribed and the parameters describe one: that job, completed from the session, always with a size from 1 to 32 and a finite difficulty |
| `Session.ClientSession.Reset` | src/stratum/client.cpp:217-221 | no session value survives a reconnect |
| `HeaderRoundTrip.SubscriptionSurvives` | scripts/mock_pool.py:187-198 | the extranonce, size and notify id of the pool's answer are read back unchanged |
| `HeaderRoundTrip.SetUp` | scripts/mock_pool.py:187-208 | after the pool's answer and its set_difficulty the session has the pool's extranonce, size and difficulty |
| `HeaderRoundTrip.DifficultyAsText` | src/util/json.cpp:243-252 | a difficulty sent as text is the decimal number it spells, after any white space |
| `MockPool.BuildHeader` | scripts/mock_pool.py:91-103 | the header the pool computes, or a packing error for numbers over 32 bits |
| `MockPool.HandleSubmit` | scripts/mock_pool.py:219-243 | the refusals, and otherwise the header that is checked |
| `HeaderRoundTrip.SwapsAgree` | scripts/mock_pool.py:40-44 | the pool's slice-wise swap is the miner's index-wise swap |
| `HeaderRoundTrip.PaddedHexIsBytes` | scripts/mock_pool.py:85-87 | "%08x" writes the big-endian bytes |
| `HeaderRoundTrip.WordIsRead` | scripts/mock_pool.py:232-233 | the number the pool reads is the one the miner wrote |
| `HeaderRoundTrip.NotificationDescribes` | scripts/mock_pool.py:78-89 | a pool job survives notification unchanged |
| `HeaderRoundTrip.PoolRebuildsHeader` | scripts/mock_pool.py:78-103 | for every job, counter and nonce, the header the pool rebuilds from the submitted strings is byte for byte the header the miner hashed |
| `ShareRoundTrip.ShareChecksOut` | src/mining/miner.cpp:322-366 | what the controller submits for any nonce of a pool job reaches the pool as the header that was hashed, and its hash reaches the pool's difficulty exactly when the nonce wins |
| `ShareRoundTrip.FindAndSubmit` | src/mining/miner.cpp:368-432 | from notification to verdict: the job is the pool's, with the difficulty it has set; whatever the pool is asked to check is a header of the searched range whose hash reaches that difficulty, and the pool accepts it when the difficulty has whole units; an unstopped search asks exactly when the range holds such a nonce |
| `CpuMiner.Mine` | src/mining/miner.cpp:46-80 | hashes exactly the first hashesPerformed headers of the wrapped scan, each once and in order, reports the first winner among them, and leaves early only at an observed stop; unstopped it finds one exactly when the range holds one |
| `CpuMiner.ScanWithoutRepeats` | src/mining/miner.cpp:52-61 | a scan of at most 2^32 nonces visits no header twice |
| `CpuMiner.Verify` | src/mining/miner.cpp:82-93 | confirms exactly the nonces that win |
| `CpuMiner.WinsByDifficulty` | src/mining/miner.cpp:82-93 | a nonce of work built for a job wins exactly when its hash reaches the difficulty the pool has set |
| `CpuMiner.HandleFoundNonce` | src/mining/miner.cpp:322-366 | the mismatch branch is taken exactly for nonces that do not win; the submission names the work and ranks it exactly |
| `CpuMiner.SweepWork` | src/mining/miner.cpp:394-432 | what is hashed is one contiguous circular run without repeats, the shares exactly its winners, all confirmed; a completed unstopped sweep ends at the least number of hashes that with the shares reaches 2^32, and covers every nonce exactly when none but the last wins |
| `CpuMiner.FullSweep` | src/mining/miner.cpp:424-431 | a run that ends at that point is 2^32 long exactly when its first 2^32 - 1 nonces are barren |
| `CpuMiner.ChunkExtends` | src/mining/miner.cpp:404-431 | a chunk's result extends the run by the hashes it did |
| `CpuMiner.NoRepeats` | src/mining/miner.cpp:389-394 | nonces of a run no longer than 2^32 differ |
| `CpuMiner.RunOfNonces` | src/mining/miner.cpp:424-431 | a run goes up by one and wraps from 2^32 - 1 to zero |
| `CpuMiner.WinnersAre` | src/mining/miner.cpp:394-432 | the shares of a sweep are the winning positions, each once and in order |
| `CpuMiner.DistinctStarts` | src/mining/miner.cpp:389-392 | workers that read the same number of workers start at different nonces, at the even division of the nonce space among them |
| `CpuMiner.EarlyStart` | src/mining/miner.cpp:389-392 | a worker that reads the list while it holds at most itself or nobody starts at 0, as the first worker does |
| `Controller.MinerController.SnapshotJob` | src/mining/miner.cpp:271-277 | the slot, read at once |
| `Controller.MinerController.OnJob` | src/mining/miner.cpp:279-287 | a new job and a new generation |
| `Controller.MinerController.OnDifficulty` | src/mining/miner.cpp:289-296 | a new generation only when there is a job |
| `Controller.MinerController.OnPoolState` | src/mining/miner.cpp:298-309 | no job and a new generation on a lost connection, otherwise nothing; see ControllerSlot.LostConnection |
| `Controller.StepKeeps` | src/mining/miner.cpp:271-309 | every step of every thread keeps each worker's job equal to the one its generation stood for |
| `Controller.NoAba` | src/mining/miner.cpp:271-309 | in every interleaving short of 2^64 steps equal generations mean the identical job, and the counters of all work items drawn, by any worker at any time, increase strictly |
| `Controller.ItemsApart` | src/mining/miner.cpp:271-394 | any two work items of such a run for one job, held at the same time or not, lead to one input of the hash only at equal nonces, and only with an extranonce2 under eight bytes and congruent counters, or if two named inputs collide |
| `Controller.HeldIsDrawn` | src/mining/miner.cpp:380-381 | whatever a worker is searching is one of the work items drawn in the run |
| `Controller.WorkersApart` | src/mining/miner.cpp:271-394 | the same for what two workers hold at the same moment |
| `Controller.WrappedCountersCoincide` | src/mining/work.cpp:23-32 | counters that agree modulo 256^size do give one input at every nonce |
| `Controller.OldWorkEnds` | src/mining/miner.cpp:396-408 | after a new job, difficulty or lost connection each worker starts at most one more chunk of older work, and only if it had already checked |
| `Controller.DeadConnection` | src/mining/miner.cpp:298-309 | from a lost connection until the next job a worker starts at most the one chunk it had already checked for |
| `ControllerSlot.LostConnection` | src/mining/miner.cpp:298-309 | once the connection is lost or in error, and until the next job, a worker starts at most the one chunk it had already checked for, and an idle one stays idle |
| `ControllerSlot.SlotIsLast` | src/mining/miner.cpp:279-309 | after every run the slot has a job exactly when one has arrived and the connection was not lost since: the last that arrived, with the difficulty announced last since |
| `ControllerSlot.CheckExactly` | src/mining/miner.cpp:396-403 | a worker's check passes exactly when no callback has replaced the work since its snapshot, and it goes on with the job it took |
| `Controller.AbaAfterWrap` | src/mining/miner.cpp:284-284 | after exactly 2^64 job changes the check does take a new job for the old one |
| `Kernel.ThreadWins` | src/cuda/cuda_backend.cu:193-206 | one thread hashes the header with its nonce, once, and wins when the hash is at or below the target |
| `Kernel.StepKeepsInv` | src/cuda/cuda_backend.cu:189-213 | every atomic step keeps the invariant on the shared record |
| `Kernel.LaunchResult` | src/cuda/cuda_backend.cu:182-214 | in every interleaving a completed launch reports a find exactly when a nonce wins, and stores a nonce that wins |
| `Kernel.StepProgress` | src/cuda/cuda_backend.cu:182-214 | every step brings the launch nearer its end |
| `Kernel.AnyWinnerCanBeReported` | src/cuda/cuda_backend.cu:188-213 | every winner is reported by some interleaving |
| `Kernel.LowestExactlyWhenUnique` | src/cuda/cuda_backend.cu:207-212 | the lowest winner is certain exactly when there is only one |
| `Kernel.LowersToMinimum` | src/cuda/cuda_backend.cu:207-212 | once the first winner has stored, the threads still to come leave the lowest nonce of all in the record |
| `Kernel.StoreAfterMin` | src/cuda/cuda_backend.cu:208-212 | the plain store can land after another thread's atomicMin: a schedule of two winners that reports the higher nonce and not the lowest |
| `Kernel.RunKernel` | src/cuda/cuda_backend.cu:182-214 | a launch under an arbitrary scheduler: what it reports, that it hashes only its own nonces and no more than it is charged for, and every one of them when it finds nothing |
| `Kernel.HashesCounted` | src/cuda/cuda_backend.cu:188-214 | no launch hashes more than it is charged for; every interleaving hashes all of it exactly when no nonce wins or it covers at most one; with a winner some interleaving hashes once |
| `CudaMiner.Mine` | src/cuda/cuda_backend.cu:413-496 | the chunk loop: an unstopped, error-free search reports a hit exactly when its range holds one; every hit wins; the launches before the one with the hit were hashed throughout and hold no winner; the count is exactly what was hashed when nothing is found, and at most a launch more otherwise |
| `CudaMiner.SweepOnGpu` | src/mining/miner.cpp:394-432 | every share wins and is confirmed; all that the sweep passes over, but for the launches of its shares up to the share, was hashed and does not win; hashes are counted exactly but for at most a launch for each share; a completed unstopped sweep passes over at least 2^32 nonces less a launch for each share, and has no share exactly when no nonce wins; an unfinished one was stopped, superseded or failed |
| `Ledger.StratumClient.SubmitCheck` | src/stratum/client.cpp:359-360 | a confirmed share is taken exactly when authorized, and stale otherwise |
| `Ledger.StratumClient.SubmitPush` | src/stratum/client.cpp:361-367 | a taken share joins the queue |
| `Ledger.StratumClient.FlushOutboundQueue` | src/stratum/client.cpp:332-357 | the k-th queued share takes the k-th fresh id and stays pending under it exactly when its line goes out; the others are dropped and everything else is as before |
| `Ledger.FlushIsRun` | src/stratum/client.cpp:332-357 | a flush is a run of the ledger that registers each share and then sends its line or not |
| `Ledger.FlushOutcome` | src/stratum/client.cpp:332-357 | what that run leaves behind, for any shares and any pattern of failures |
| `Ledger.StratumClient.HandleResponse` | src/stratum/client.cpp:377-439 | an answer settles exactly the share that its id names, once; which end it reaches is said by LedgerCounts.CountersCount |
| `Ledger.StratumClient.ResetSession` | src/stratum/client.cpp:209-223 | a reconnect drops what is queued and pending |
| `Ledger.StratumClient.OpenSession` | src/stratum/client.cpp:236-245 | both requests get fresh ids |
| `Ledger.StepConserves` | src/stratum/client.cpp:209-439 | every step moves shares from one place to another |
| `Ledger.StepKeepsIds` | src/stratum/client.cpp:332-439 | ids of pending shares are never those of the session requests |
| `Ledger.Conservation` | src/stratum/client.cpp:209-439 | over every run, confirmed shares = accepted + rejected + stale + entering, queued, in flight and pending + dropped |
| `Ledger.AnsweredOnce` | src/stratum/client.cpp:413-425 | an id that was answered or dropped is never pending again |
| `Ledger.CountersMissDropped` | src/stratum/client.cpp:209-216 | the counters and the shares underway account for every confirmed share exactly when every line went out and every reconnect found nothing queued or pending |
| `Ledger.RunDrops` | src/stratum/client.cpp:209-357 | a run loses shares exactly when one of its steps is a failed send or a reconnect with something queued or pending |
| `Ledger.SendFailureDrops` | src/stratum/client.cpp:332-357 | a share whose line does not go out is counted nowhere |
| `Ledger.ReconnectDrops` | src/stratum/client.cpp:209-216 | a queued share lost to a reconnect is counted nowhere |
| `LedgerCounts.CountersCount` | src/stratum/client.cpp:413-439 | over every run the accepted shares are those whose pending id was answered with no error and a true result, the rejected ones those answered otherwise, the stale ones those found while not authorized |
| `LedgerCounts.StateIsLast` | src/stratum/client.cpp:377-411 | the state is the one announced last, so shares are taken exactly while the last word on the session is the grant of the authorization requested last |
| `LedgerSessions.WaitingIs` | src/stratum/client.cpp:332-367 | what waits to be sent was pushed since the last reconnect, and goes out in the order of the pushes |
| `LedgerSessions.SessionOfShare` | src/stratum/client.cpp:209-367 | every line sent carries a share that was confirmed in an authorized session and pushed in the session that sends it: the session that found it, exactly when no reconnect came between find and push |
| `LedgerSessions.OldShareGoesOut` | src/stratum/client.cpp:359-367 | a run in which a share found in one session is sent in the next |
| `Stats.Statistics.AddHashes` | src/mining/stats.cpp:35-44 | keeps the pruned deque equivalent to the whole log |
| `Stats.Statistics.PruneSamplesLocked` | src/mining/stats.cpp:46-52 | drops exactly the leading samples older than 70 s |
| `Stats.Statistics.HashrateOverWindow` | src/mining/stats.cpp:54-76 | the rate from the pruned deque is the rate from the whole log since the session last began or ended |
| `Stats.Statistics.Hashrate10s` | src/mining/stats.cpp:78-78 | the same over 10 s |
| `Stats.Statistics.Hashrate60s` | src/mining/stats.cpp:79-79 | the same over 60 s |
| `Stats.Statistics.BeginSession` | src/mining/stats.cpp:142-152 | empties the log |
| `Stats.Statistics.EndSession` | src/mining/stats.cpp:154-158 | empties the log and keeps the totals |
| `Stats.PruneUnseen` | src/mining/stats.cpp:46-52 | pruning before the cutoff of a window does not change what it shows |
| `Stats.RateIs` | src/mining/stats.cpp:54-76 | the rate times the milliseconds since the earliest sample in the window is a thousand times the hashes in it |
| `Stats.SinceIs` | src/mining/stats.cpp:54-76 | a window shows exactly the samples not older than its cutoff |

## Left out

- TargetFromShareDifficulty: difficulties of 2^64 and more, where the cast to a 64-bit integer is undefined; the same bound is `Representable` in `Work`.
- Finalize: messages of 2^61 bytes and more, whose length in bits does not fit the 64-bit counter.
- ParseDump: numbers that are not integers below 9e15 in magnitude; they go through `%.10g`, a parameter of the printer. Non-finite numbers, which print as 0, are not values of the model.
- ParseNumber: `strtod` is the exact real value of the lexeme, without rounding to a double or overflow to infinity.
- ParseSubscribeResult: a size sent as a number outside the range of a 64-bit integer, where the cast in `asInt` is undefined; the model refuses it.
- OnSubscribed: the same, as it takes what ParseSubscribeResult returns.
- OnSetExtranonce: the same cast.
- OnSetDifficulty: difficulties sent as text in the forms of `strtod` that are not decimal (hexadecimal, infinite, not a number).
- AgreeExactly: the pool's target is a floating-point quotient, which the model takes exactly; the test of the hash that follows HandleSubmit is `PoolVerdict.Accepts`.
- HandleSubmit: the looser forms that Python's `bytes.fromhex` and `int` accept (blanks, signs, `0x`, underscores), which the miner never sends and the model refuses.
- DistinctStarts: `workers_.size()` is read while the list is still being filled, so workers may read different counts; of those cases only the smallest is stated, by `EarlyStart`.
- Mine: elapsed time in the results of both backends.
- HandleFoundNonce: the approximate difficulty kept for display.
- Session: what else ends a connection (time-outs, `recv` errors) is not told apart; the chunks simply end.
- OldWorkEnds: that a chunk in progress is finished, and how long a worker sleeps; only starts of chunks are bounded.
- FlushOutboundQueue: 64-bit overflow of message ids.
- AddHashes: the totals are unbounded rather than 64-bit.
- Sockets, `select`, name resolution, reconnect back-off, threads and their joining; a step that a mutex makes atomic is one step.
- The CUDA runtime, NVML, device selection and memory copies, except for the error that each chunk may report.
- Restart of the controller and what happens after a backend error; the number of workers is fixed.
- `Message::parse` and `errorMessage`, `buildSubscribe`, `buildAuthorize` and `buildSuggestDifficulty` beyond `WrapRequest`.
- Other statistics: best share, reject reason, uptime, the JSON snapshot.
- HTTP server, dashboard, logging, configuration, build scripts and command line.
- `toHexBigEndian`, `fromHexBigEndian` and the approximate conversions to double in `uint256.cpp` and `difficulty.cpp`.
