# Proofs about local-ai kernels and tools

This project models, in Dafny, the parts of the repository whose correctness rests on an argument
rather than on a line of code, and proves that argument for all inputs.

**The ternary projection.** A PTQ1_0 weight row is a sequence of 28-byte blocks; each block packs 128
trits into 26 bytes and carries one scale. `Ptq1` holds the decoding of one trit, and `Projection` the
reference dot product `RowDot`: the sum of scale times trit times activation. Four programs compute
it in very different ways, and each is proved equal to it for every row count, every number of
blocks and every real input, clamped tail rows and repeated tail tokens included:

- `Matvec`: base-3 prefixes against differences of activations, four lanes to a block, eight blocks
  in flight. The half-precision decoder behind it is proved over round-to-nearest-even binary16
  (`HalfFloat`, section 4.3.1 of IEEE 754-2019), for every byte and every power.
- `SmallBatch`: lane pairs that load one token each and shuffle the other. It is proved twice: over
  uninterpreted, non-associative arithmetic every output is one and the same expression whatever the
  token count and whichever lane loaded the token; over the reals that expression is `RowDot`.
- `WideBatch`: 8x8 matrix tiles with a permuted K, eight SIMD groups added up in shared memory.
- `LargeBatch`: a 64x64 tile whose weights are decoded into shared memory, each cell of it written by
  exactly one thread between two barriers.

Every output cell is stored exactly once, and no other cell of the buffer changes. `Projection.RowDotIsRaw`
reads the reference off the buffers: cell (token, row) is the sum over all columns of scale times trit
times activation, each at its index.

**The rotation.** `Fwht` runs the ten butterfly stages of a 1024-value block through shuffles, shared
memory and registers; `Hadamard` proves that they are the Walsh-Hadamard transform and that the
transform is its own inverse up to 2^n, by induction on n. The inverse kernel undoes the forward
kernel exactly when every sign is +1 or -1; a dispatch rotates all blocks of all rows, in place or not.

**The recurrent layers.** `Gdn` and `Mixer` work over uninterpreted arithmetic, so that equality means
the same operations in the same order. The software-pipelined prefill loop satisfies the direct
loop's contract; a long block equals chained shorter blocks whose lengths are multiples of 128, and
blocks of any lengths when the state is stored exactly; for every other length there is an
arithmetic, one whose storage keeps what it stored, under which all registers differ; the grouped
BF16 projection gives each token the chain of the single-token kernel; the causal convolution chains
at any split. In exact arithmetic these expressions are what they should be: `GdnExact` finds the gated
delta rule, read from and written to the right places of the buffers, and `Mixer.MultipliedExact` the
matrix product.

**Speech.** `TransposedConv` models the phase-split weight layout, which it proves to be a permutation
of the weights, and shows that gathering from it gives the scatter definition of a transposed
convolution. `GatheredConv` is the tiled convolution kernel, from the cooperative loads to the guarded
stores; `Upsampling` dispatches it once per phase and reads off the whole transposed convolution,
the shifted and reflected second stage included.

**Host-side tools.** `Auc` and `Threshold` (rank statistic, threshold search), `Components` and
`CommitPack` (union-find and the leakage-free split built on it), `CommitOrder` (what its seeded orders
mean in terms of the keys), `SelectPairs` (balanced
selection), `Overlaps` (linear scan for a pairwise check), `Activity` (a condition-variable protocol
as a state machine), `FileTree`, `Stream` and `Install` (a crash-safe installer).

`Common`, `Sums`, `Ordering`, `Grouping`, `Floats`, `Tiles` and `TileStore` are shared by these; `Bits`
ties the code byte of the half-precision decoder to its bit pattern.

Device and threadgroup memory are arrays; registers are values. The lanes of a SIMD group run in
lockstep, and threads between two barriers run one after the other, where the model counts how often
each cell is written. Hashes, digests, parsers and random names are parameters.

Where code and comment differ, the model follows the code. What a reader may not expect:

- The threshold search promises a threshold that meets both floors with the highest recall. Its final
  clamp to [0.000001, 0.999999] can break that promise. `Threshold.ClampKeepsPromise` says exactly when
  it does not: when the best threshold b finds no positive at all, or b is at least 0.000001 and,
  where it lies above 0.999999, the precision at 0.999999 meets the target. `Threshold.InsideIsBest`
  is the condition to check beforehand (all scores inside the range), `Threshold.ClampKeepsCounts` the
  exact condition for unchanged counts, `Threshold.ClampCanLoseEverything` an input that fails.
- A usable commit without repositories ends the building of the CommitPackFT set with an index error;
  `CommitPack.Build` states exactly when, `CommitPack.NoRepositoryHappens` gives such a commit.
- The root that names a component, and with it the component's role, is not always the least name:
  it depends on the order of the rows (`Components.RootDependsOnOrder`, two rows in either order).
  `Components.KeptIsLeast` says exactly when the least of the joined roots is kept: when no root after
  it is less than the first of the list and new to it. `Components.JoinedLeast` adds the names below
  the roots, and `Components.LeastThroughout` carries the condition over whole runs.
- A waiter on the decode activity misses steps when exactly 2^64 of them finish while it sleeps
  (`Activity.WrappedCounterHidesSteps`, a run that gets there).

## Model

| member | source | states |
|---|---|---|
| Ptq1.Trit | shaders/bonsai_projection.h:127-146 | A decoded trit is -1, 0 or +1 for every block and element |
| Ptq1.ElementIsOwned | shaders/bonsai_projection.h:132-143 | The byte and power of an element determine it: the layout of the 128 elements over 26 bytes loses none |
| Ptq1.FloorDigit | shaders/bonsai_projection.h:307-312 | floor(3x) - 3 floor(x) is the next base-3 digit of x, for every x = a / 256 |
| Ptq1.DigitFromPrefixes | shaders/bonsai_projection.h:185-191 | A trit is a difference of two consecutive base-3 prefixes, less one |
| Ptq1.CodeIsExact | shaders/bonsai_projection.h:161-163 | The half whose bits are 0x6400 plus a byte q is 1024 + q exactly |
| Bits.CodeIsOr | shaders/bonsai_projection.h:161-163 | OR-ing a byte into the 16-bit word 0x6400 adds it, so the code is the half with those bits |
| Ptq1.RoundingIsFloor | shaders/bonsai_projection.h:152-160 | One rounding to nearest even computes a floor, the tie at zero going up because the integer below is odd |
| Ptq1.FmaIsFloor | shaders/bonsai_projection.h:152-160 | The one half FMA gives exactly the shifted prefix, for every byte and power |
| Ptq1.HalfPrefixIsFloor | shaders/bonsai_projection.h:165-172 | The half-precision prefix is floor(q 3^p / 256) for every byte and p = 1..5 |
| Ptq1.HalfBalancedPrefixIsExact | shaders/bonsai_projection.h:174-183 | The balanced prefix is the plain one less (3^p - 1) / 2 and lies in [-121, 121] |
| Ptq1.Trits | shaders/bonsai_projection.h:192-200 | The FMA chain over balanced prefixes yields the five trits of a byte exactly |
| Ptq1.FloorTritIsDigit | shaders/bonsai_projection.h:307-312 | The floor form of a qh trit agrees with the integer decoder |
| HalfFloat.RoundOnIntegerBinade | shaders/bonsai_projection.h:152-154 | On [1024, 2048) the halves are the integers, so rounding is rounding to an integer, ties to even |
| HalfFloat.RoundKeepsInteger | shaders/bonsai_projection.h:158-160 | Integers of magnitude below 2048 are exact in half precision |
| Matvec.OwnershipIsBijective | shaders/bonsai_projection.h:228-232 | Each of the 128 elements of a block belongs to exactly one of the four lanes, at one slot |
| Matvec.Telescope | shaders/bonsai_projection.h:232-235 | Prefixes against y[n] - 3 y[n+1] sum to digits against y |
| Matvec.ByteContribution | shaders/bonsai_projection.h:298-306 | Five prefix products of a byte add what its five trits and the inputs contribute |
| Matvec.LoadCoefficients | shaders/bonsai_projection.h:262-287 | The loaded coefficients are the differences of the lane's inputs, and the input sum covers its 32 elements |
| Matvec.RowTotal | shaders/bonsai_projection.h:289-312 | A lane's total is its trit products plus its input sum |
| Matvec.Lane | shaders/bonsai_projection.h:256-315 | The block loop of a lane accumulates its share of every eighth block, for each row |
| Matvec.LanesCoverBlock | shaders/bonsai_projection.h:228-235 | The shares of four lanes make up the reference dot product of a block |
| Matvec.LanesCoverRow | shaders/bonsai_projection.h:256-317 | The sum over 32 lanes is the reference dot product of a row |
| Matvec.Group | shaders/bonsai_projection.h:248-318 | Every row reduced by a SIMD group gets its reference dot product |
| Matvec.ClampedRows | shaders/bonsai_projection.h:210-226 | Rows past the end are the last real row |
| Matvec.Project | shaders/bonsai_projection.h:210-318 | Over all groups every output row is its reference dot product, stored exactly once: the sum over the columns of the raw buffers of scale times trit times activation |
| SmallBatch.TokenOfInvolutive | shaders/bonsai_small_batch.h:142-153 | The token behind a register, own or shuffled, is a permutation of the tokens, its own inverse |
| SmallBatch.Factors | shaders/bonsai_small_batch.h:122-138 | The sixteen factors of a part are the trits of its elements, in factor order |
| SmallBatch.Values | shaders/bonsai_small_batch.h:21-41 | The sixteen gathered activations are those of the same elements |
| SmallBatch.AddToken | shaders/bonsai_small_batch.h:154-162 | Adding a token extends exactly its column of registers by one block |
| SmallBatch.PairBlock | shaders/bonsai_small_batch.h:140-164 | Whichever lane loads a token, both lanes of a pair extend every token's chain, an odd last token included |
| SmallBatch.Pair | shaders/bonsai_small_batch.h:107-165 | After all blocks each register holds its token's and row's block-ordered chain |
| SmallBatch.Reduce | shaders/bonsai_small_batch.h:173-178 | Four shuffles add the sixteen lanes of one slice in one fixed tree |
| SmallBatch.Dispatch | shaders/bonsai_small_batch.h:53-186 | Over uninterpreted arithmetic each (token, row) is one expression of its own row and token, for every token count; stored once, nothing else written |
| SmallBatch.PartsAreBijective | shaders/bonsai_small_batch.h:122-126 | Eight parts of sixteen slots own each element of a block exactly once |
| SmallBatch.PartsCoverBlock | shaders/bonsai_small_batch.h:107-165 | In exact arithmetic the eight parts of a block add up to its dot product |
| SmallBatch.TreeExact | shaders/bonsai_small_batch.h:173-178 | In exact arithmetic the shuffle tree is the plain sum of its leaves |
| SmallBatch.ResultExact | shaders/bonsai_small_batch.h:70-73 | In exact arithmetic the expression of every output is the reference dot product |
| SmallBatch.DispatchExact | shaders/bonsai_small_batch.h:53-186 | In exact arithmetic a dispatch leaves at (firstToken + t) * rows + r the sum over the columns of the raw buffers of scale times trit times activation |
| Projection.StoreCell | shaders/bonsai_small_batch.h:179-182 | A guarded store writes its cell only when the row exists, and keeps every stored cell right |
| Projection.AllWritten | shaders/bonsai_small_batch.h:166-185 | When each cell has been stored once, every output holds its value |
| Projection.RowDotIsRaw | shaders/bonsai_projection.h:256-272 | The reference dot product of row r and token t is the sum over j of weights[r * blocks + j / 128].scale times its trit j % 128 times input[(firstToken + t) * columns + j] |
| Tiles.OwnershipIsBijective | shaders/bonsai_small_batch.h:244-248 | Lane and register own the 64 cells of an 8x8 tile one to one |
| Tiles.MultiplyAccumulateCell | shaders/bonsai_small_batch.h:303-312 | A tile multiply adds a sum of eight products to each cell |
| TileStore.StoreTile | shaders/bonsai_small_batch.h:334-337 | A tile store adds each cell of its 8x8 rectangle once, cut off at the last row and token |
| WideBatch.ColumnTrits | shaders/bonsai_small_batch.h:279-290 | The permuted decode puts the trit of element 8j + fm into tile j |
| WideBatch.Multiply | shaders/bonsai_small_batch.h:293-313 | Sixteen tile multiplies give every cell the block's trit dot product |
| WideBatch.Simd | shaders/bonsai_small_batch.h:268-319 | A SIMD group's registers hold the scaled sums over its every eighth block |
| WideBatch.SimdGroupsCover | shaders/bonsai_small_batch.h:188-200 | The partial sums of the eight SIMD groups add up to the reference dot product |
| WideBatch.Combine | shaders/bonsai_small_batch.h:320-333 | The sums published before the barrier are added up lane by lane |
| WideBatch.Threadgroup | shaders/bonsai_small_batch.h:230-339 | A threadgroup stores its rows' dot products once each |
| WideBatch.Dispatch | shaders/bonsai_small_batch.h:188-339 | For up to eight tokens and any rows each output is the reference dot product, stored once; at its index, the sum over the columns of the raw buffers |
| LargeBatch.DecodeThread | shaders/bonsai_small_batch.h:386-438 | A thread writes exactly its 64 cells of one column, each scale times trit |
| LargeBatch.DecodeBlock | shaders/bonsai_small_batch.h:415-439 | Between barriers each of the 8192 cells is written exactly once, with scale times trit |
| LargeBatch.MultiplyBlock | shaders/bonsai_small_batch.h:440-461 | Sixteen k steps advance the sixteen accumulators of a quarter by one block |
| LargeBatch.Compute | shaders/bonsai_small_batch.h:400-462 | All four quarters hold the dot products of their tokens and rows |
| LargeBatch.Threadgroup | shaders/bonsai_small_batch.h:463-474 | A threadgroup stores its 64x64 rectangle once, cut off at the last row and token |
| LargeBatch.Dispatch | shaders/bonsai_small_batch.h:341-475 | For any rows and tokens each output is the reference dot product, stored once; at its index, the sum over the columns of the raw buffers |
| Fwht.SameSimdGroup | shaders/bonsai_projection.h:40-47 | Shuffle distances below 32 stay inside a SIMD group |
| Fwht.ShuffleStage | shaders/bonsai_projection.h:40-47 | A shuffle stage is the butterfly at its distance on the whole block |
| Fwht.SharedStage | shaders/bonsai_projection.h:48-59 | A stage through threadgroup memory is the butterfly at its distance |
| Fwht.RegisterStage | shaders/bonsai_projection.h:60-69 | A register stage is the butterfly at 128 times its step |
| Fwht.Rotate | shaders/bonsai_projection.h:40-69 | The ten stages compute the Walsh-Hadamard transform over all ten index bits |
| Fwht.Kernel | shaders/bonsai_projection.h:78-94 | The kernel writes the signed, scaled transform of its block, in place or not, each cell once and nothing else |
| Fwht.Dispatch | shaders/bonsai.metal:13-35 | Every block of every row holds its rotation under the signs of its place in the row, each cell stored once, the rest of the buffer unchanged; also in place |
| Fwht.DispatchRoundTrip | shaders/bonsai.metal:13-35 | The inverse dispatch of a forward dispatch multiplies every element of the buffer by its squared sign |
| Fwht.RoundTrip | shaders/bonsai_projection.h:20-76 | Inverse after forward multiplies each element by its squared sign |
| Fwht.RoundTripBack | shaders/bonsai_projection.h:20-76 | With signs +1 and -1, forward after inverse is the identity |
| Fwht.RoundTripExactly | shaders/bonsai_projection.h:20-76 | Inverse after forward is the identity on all blocks if and only if every sign is +1 or -1 |
| Hadamard.StagesTransform | shaders/bonsai_projection.h:40-69 | After m butterfly stages each aligned group of 2^m values holds its own transform |
| Hadamard.Orthogonal | shaders/bonsai_projection.h:40-69 | Rows of the transform are orthogonal with square length 2^n, for every n |
| Hadamard.TransformTwice | shaders/bonsai_projection.h:34-75 | Transforming twice multiplies by 2^n, for every n |
| Gdn.StepDirect | shaders/bonsai_gdn.h:48-70 | One token's step with loads in place: the state and outputs of the recurrence, nothing else written |
| Gdn.StepLoaded | shaders/bonsai_gdn.h:120-145 | The same step from preloaded registers |
| Gdn.Direct | shaders/bonsai_gdn.h:35-85 | The direct loop yields the recurrence's outputs and stored state for any arithmetic, also in place; the rows of GdnExact say which values these are |
| Gdn.Prefill | shaders/bonsai_gdn.h:87-160 | The loop that loads one token ahead yields exactly the direct loop's outputs and state, for one or more tokens |
| Gdn.ChainedBlocks | shaders/bonsai_gdn.h:8-27 | When 128 divides n, or storing and loading changes no register, n + m tokens equal n tokens, store, load, m tokens: every output and register |
| GdnExact.TokenIsRaw | shaders/bonsai_gdn.h:41-66 | Token t's query, key, value and gates are the buffer entries at head group * rows / 128 and at that head modulo 16 for query and key |
| GdnExact.OneHead | shaders/bonsai_gdn.h:29-34 | When the row count divides 128, all rows of a group belong to that head |
| GdnExact.DotExact | shaders/bonsai_gdn.h:52-68 | In exact arithmetic the reduced lane chains are the dot product over all 128 columns |
| GdnExact.StepExact | shaders/bonsai_gdn.h:48-70 | In exact arithmetic a step is the gated delta rule S'[c] = d S[c] + k[c] b (v - sum of d S[j] k[j]), and its output the scaled sum of S'[j] q[j] |
| GdnExact.DispatchExact | shaders/bonsai_gdn.h:35-160 | After a dispatch, output t * 6144 + group * rows + r and state (group * rows + r) * 128 + c hold exactly what the delta rule gives from the raw buffers, rounded every 128 tokens, for any storage type |
| Gdn.CoarseStorage | shaders/bonsai_gdn.h:8-21 | The arithmetic of the next row stores what it loaded unchanged, and rounding twice is rounding once |
| Gdn.UnalignedBlocksDiffer | shaders/bonsai_gdn.h:71-84 | For every n that 128 does not divide, under that arithmetic every register of the chained run is behind the single run by n % 128 |
| Mixer.SingleLane | shaders/bonsai_mixer.h:52-70 | The eight-way unrolled loop and its tail are the plain strided FMA chain |
| Mixer.TokensLane | shaders/bonsai_mixer.h:88-117 | With shared weights every token keeps that chain |
| Mixer.Single | shaders/bonsai_mixer.h:44-73 | With row and token split from the group index, every (token, row) holds the reduced chains of its lanes, stored once; over the raw buffers, lane l of cell t * rows + r chains the products of columns j with j % 32 == l |
| Mixer.Tokens | shaders/bonsai_mixer.h:75-125 | The grouped kernel stores the same expressions once each, clamped tokens never; the same statement over the raw buffers |
| Mixer.MultipliedExact | shaders/bonsai_mixer.h:44-125 | In exact arithmetic output t * rows + r is the sum over j of weights[r * columns + j] times input[t * columns + j] |
| Mixer.Conv | shaders/bonsai_mixer.h:127-150 | A channel's outputs and final history come from the line of history and inputs; other channels are untouched |
| Mixer.ChainedConv | shaders/bonsai_mixer.h:134-149 | Splitting a block at any token changes no output and no final history |
| TransposedConv.StridedSlice | tools/convert_kokoro.py:270-270 | A strided slice takes every step-th element up to the clamped end |
| TransposedConv.TransposedLayout | tools/convert_kokoro.py:259-271 | Refused exactly when the stride does not divide the kernel; otherwise entry [phase][out][kk][in] is the weight of tap phase + kk * stride, both at their indices in the flat buffers |
| TransposedConv.LayoutIsPermutation | tools/convert_kokoro.py:259-271 | The layout is a permutation of the weights |
| TransposedConv.GatherIsScatter | tools/convert_kokoro.py:15-24 | The per-phase gather of an output equals the scatter definition of a transposed convolution |
| GatheredConv.LoadTiles | shaders/kokoro.metal:65-87 | The 128 threads fill both 32x32 tiles with the weights and gathered inputs of their tap and channels, zero outside |
| GatheredConv.MultiplyTiles | shaders/kokoro.metal:88-102 | Four steps of 8x8 multiplies add to every cell its row of one tile times its column of the other |
| GatheredConv.Compute | shaders/kokoro.metal:58-104 | Over all taps and channel tiles every cell holds the full sum of its output channel and column |
| GatheredConv.Publish | shaders/kokoro.metal:105-111 | The sixteen pieces are laid out as one 32x32 tile, every sum at its own place |
| GatheredConv.StoreTile | shaders/kokoro.metal:112-122 | The threads store each cell inside the output once: scale times sum plus bias, added to the old value when accumulating |
| GatheredConv.Dispatch | shaders/kokoro.metal:42-123 | For any sizes each output is that value of the whole convolution, stored exactly once; no other cell changes; the value is stated over the weight, input and bias buffers and the kernel's parameters |
| Upsampling.PhaseValue | local-engine/src/speech/model.rs:1200-1215 | The convolution set up for phase r computes, at each of its columns, the direct transposed convolution of one output |
| Upsampling.RunPhase | local-engine/src/speech/model.rs:1191-1224 | One phase makes exactly the outputs of its residue right, each stored once, and disturbs no other |
| Upsampling.OnePhase | local-engine/src/speech/model.rs:1192-1199 | Every output is one column of exactly one phase |
| Upsampling.Upsample | local-engine/src/speech/model.rs:1175-1224 | Over all phases every output is the direct transposed convolution at its shifted place, every phase stores its columns once, nothing else changes; stated over the weight, input and bias buffers |
| Upsampling.UpsampleReflected | local-engine/src/speech/model.rs:1183-1238 | In the second stage the column in front is a copy of output 1: the whole row is the convolution, reflection-padded by one; cells beyond are unchanged |
| Ordering.Sorted | tools/moderation_train.py:92-92 | Sorting indices by a key gives each index once, keys increasing |
| Ordering.SortedBy | tools/judgment_calibrate.py:159-161 | Sorting a list by a key rearranges it, keys increasing |
| Grouping.SortIsStable | tools/judgment_calibrate.py:159-161 | Sorting keeps the order of elements with equal keys |
| Grouping.GroupAllGroups | tools/judgment_reeval.py:270-290 | Filling a dictionary of lists one element at a time groups exactly the elements by key, in order |
| Auc.RankOfGroup | tools/moderation_train.py:94-102 | In a tie group [a, b] the rank (a + b) / 2 + 1 is one half plus the wins over all examples, ties counting half |
| Auc.AverageRanks | tools/moderation_train.py:92-102 | Every example gets that rank, for arbitrary ties |
| Auc.PositivePairs | tools/moderation_train.py:103-104 | Pairs of positives contribute exactly half of pos * pos |
| Auc.RankSum | tools/moderation_train.py:103-104 | The rank sum less pos (pos + 1) / 2 is the number of pairs won, ties counting half |
| Auc.WinsAndLosses | tools/moderation_train.py:86-104 | Negating all scores turns wins into losses: together they are all pos * neg pairs |
| Auc.RocAuc | tools/moderation_train.py:86-104 | None exactly when a class is missing, an error exactly when lengths differ otherwise, else the share of positive-negative pairs won, in [0, 1] |
| Threshold.Confusion | tools/moderation_train.py:119-129 | One pass counts selected positives, selected negatives and missed positives |
| Threshold.PositivesSplit | tools/moderation_train.py:132-136 | Found and missed positives are all positives at every threshold |
| Threshold.CountersAreCounts | tools/moderation_train.py:161-167 | After a tie group the running counters are the confusion counts at its score |
| Threshold.ChooseThreshold | tools/moderation_train.py:149-176 | None exactly when there are no positives or no threshold that selects anything meets both floors; else the clamped threshold of highest recall among all real thresholds, the highest of equals; the clamp keeps that promise exactly under the condition of the next row, and always with scores inside the range |
| Threshold.ClampKeepsPromise | tools/moderation_train.py:174-176 | The clamped best threshold b meets both floors with the highest recall if and only if b finds no positive, or 0.000001 <= b and (b <= 0.999999 or the precision at 0.999999 meets the target); it is also the highest such threshold if and only if b lies in the range, or below it and finds no positive |
| Threshold.InsideIsBest | tools/moderation_train.py:149-176 | With all scores inside the range the clamp changes nothing and the answer is the best threshold |
| Threshold.ClampKeepsCounts | tools/moderation_train.py:174-176 | The clamp keeps the confusion counts if and only if the score is at least 0.000001 and no score lies in [0.999999, it) |
| Threshold.ClampCanLoseEverything | tools/moderation_train.py:174-176 | One tiny positive score: best threshold with full recall, clamped to one that selects nothing and breaks the promise |
| Components.UnionFind.Find | tools/judgment_reeval.py:197-202 | Terminates at the root of the name's tree; path halving changes no tree; a new name becomes its own tree |
| Components.UnionFind.Union | tools/judgment_reeval.py:204-208 | Keeps the forest, makes roots agree exactly with connection by all lists given so far, gives every united tree the kept root and no other tree another, and keeps all roots least names exactly when no root displaces the least |
| Components.LesserRootStays | tools/judgment_reeval.py:204-208 | Joining two trees keeps the lesser of their roots |
| Components.AtMostIsLexicographic | tools/judgment_reeval.py:207-207 | Names are compared at the first character in which they differ, a front before the whole |
| Components.JoinedRootsAre | tools/judgment_reeval.py:204-208 | The loop in closed form: every listed tree gets the last root that is less than the first of the list and new to it, or the first if there is none; all other trees keep theirs |
| Components.KeptIsLeast | tools/judgment_reeval.py:204-208 | The least of the listed roots is kept if and only if no root after it is less than the first and new to the list |
| Components.JoinedLeast | tools/judgment_reeval.py:204-208 | The joined component is named by its least name if and only if that name was a root and no root after the least displaces it |
| Components.JoinKeepsLeast | tools/judgment_reeval.py:204-208 | Where all roots are least names of their trees, they still are after the join if and only if no root after the least displaces it |
| Components.LeastThroughout | tools/judgment_reeval.py:193-208 | Over any run all roots are the least names of their components at every moment if and only if in no list a root displaces the least of those it joins |
| Components.RootDependsOnOrder | tools/judgment_reeval.py:204-208 | The rows e, a, c and a, e in this order leave the root c for a; in the other order they leave a |
| Components.RootsAreComponents | tools/judgment_reeval.py:193-208 | Two names share a root if and only if a chain of lists connects them |
| Components.ClimbEnds | tools/judgment_reeval.py:197-202 | Following parents reaches the root within rank many steps |
| Components.NoCircle | tools/judgment_reeval.py:193-208 | No name is its own ancestor unless it is a root |
| CommitPack.CmRole | tools/judgment_reeval.py:211-218 | The walk over the shares finds the 70/10/10/10 bucket and never runs past the last |
| CommitPack.Collect | tools/judgment_reeval.py:242-268 | The candidates are the usable commits in order and the union-find knows exactly their repository lists |
| CommitPack.CandidatesAreEligible | tools/judgment_reeval.py:256-267 | A commit is a candidate if and only if its id and diff digest are new to Kev, its diff has at most 4000 characters, its subject 10 to 120, and there is no quote or line break where the question would break |
| CommitPack.KevRoots | tools/judgment_reeval.py:269-269 | The roots of those Kev repositories that occur in the data |
| CommitPack.Admit | tools/judgment_reeval.py:270-281 | Candidates outside Kev components, one per diff, grouped by role and component; fails exactly on a candidate without repositories |
| CommitPack.Firsts | tools/judgment_reeval.py:286-289 | The least-keyed commit of each component, components in seeded order, grouped by language: exactly one of each |
| CommitPack.InTurns | tools/judgment_reeval.py:290-298 | The front of the round-robin list over the languages: within the limit, level to within one unless exhausted, nothing left while there is room |
| CommitPack.Choose | tools/judgment_reeval.py:283-298 | A role's choice: the front of the seeded round-robin list over the languages, languages level to within one, no two entries of one component, and one of every component when there is room |
| CommitPack.Subject | tools/judgment_reeval.py:305-313 | The shown subject is the commit's own, or that of the first entry of least seeded key among those of another component, the same language and role and a different subject; none exactly when there is no such entry |
| CommitPack.ShownIsNearest | tools/judgment_reeval.py:307-313 | A shown subject that is not the commit's own belongs to a partner whose seeded key is least among all partners |
| CommitPack.MakeExamples | tools/judgment_reeval.py:299-318 | The rows stand in seeded order with alternating labels and those subjects, an example is missing exactly for lack of a partner, and the question is always well formed |
| CommitPack.Separated | tools/judgment_reeval.py:269-275 | A root outside a set of roots keeps a commit unconnected to the names behind them |
| CommitPack.Build | tools/judgment_reeval.py:235-326 | No two examples have connected repositories or equal diffs, none is connected to a Kev repository, every role holds its seeded round-robin choice within its limit, the rows stand role by role in seeded order, and with room every admissible commit, or one of equal diff, lies in the component of a chosen one; every row's commit is new to Kev by id and diff digest, within the size limits and free of quotes and line breaks |
| CommitPack.NoRepositoryHappens | tools/judgment_reeval.py:242-275 | A usable commit that names no repository, on which the building fails |
| CommitOrder.PicksInOrder | tools/judgment_reeval.py:286-289 | The commit that stands for a component has the least pick key among the role's commits of that component, and components come in the order of their keys |
| CommitOrder.ChosenInOrder | tools/judgment_reeval.py:283-298 | A role's choice takes least commits, components of one language in key order, and languages first come up in key order |
| CommitOrder.BuiltInOrder | tools/judgment_reeval.py:283-318 | In a built set every row is of the role of its bucket, rows come role by role in match-key order, and a non-matching row shows the subject of least negative key among all other components' differing subjects of its language and role |
| SelectPairs.Stratify | tools/judgment_calibrate.py:158-160 | Every row stands in the stratum of its project and label, in seeded order |
| SelectPairs.TakeTurns | tools/judgment_calibrate.py:161-174 | After whole and partial turns each cursor stands at the turn or at its end; with room left all are at their ends |
| SelectPairs.NoRepetition | tools/judgment_calibrate.py:155-175 | Taking fronts of strata repeats no row |
| SelectPairs.Select | tools/judgment_calibrate.py:155-175 | Whole pairs of one true and one false row of a project, within the limit, no row twice, the front of the round-robin list over projects in seeded order, projects level unless exhausted, nothing left while a pair fits |
| Overlaps.CompatibleByKind | tools/judgment_prepare.py:475-478 | The pairwise rule, stated over the rows' fields, is the rule for each of the seven kinds of key |
| Overlaps.OwnerStandsForAll | tools/judgment_prepare.py:502-513 | Agreeing with the first owner of a key is agreeing with every earlier row |
| Overlaps.CheckRow | tools/judgment_prepare.py:491-517 | A row passes if and only if it agrees with the first owner of each of its keys; otherwise the first clash is reported, in the order of the kinds |
| Overlaps.CheckOverlaps | tools/judgment_prepare.py:475-518 | Accepts if and only if any two different rows are compatible; an error names the first offending row, its key's first owner and the kind |
| Activity.EngineActivity.FinishStep | local-engine/src/activity.rs:39-43 | The wrapping counter advances and busy is published: the effect of the protocol's finishing step on the shared part of any state |
| Activity.EngineActivity.BeginWait | local-engine/src/activity.rs:68-74 | In any state of the invariant with these fields the call sleeps exactly when the protocol puts it to sleep, with the counter of the steps finished so far |
| Activity.EngineActivity.Recheck | local-engine/src/activity.rs:75-78 | In any state of the invariant, while fewer than 2^64 steps have finished since the call began, the sleeper goes on waiting exactly when none has |
| Activity.RunKeepsInv | local-engine/src/activity.rs:31-81 | The protocol's invariant holds at every state of every interleaving |
| Activity.SharedTellsHistory | local-engine/src/activity.rs:31-45 | In every run the shared fields are a function of the actions so far: busy as the last step set it, the counter the finished steps modulo 2^64 |
| Activity.BusyFallsWithAStep | local-engine/src/activity.rs:33-45 | Between a busy and a later idle moment of any run a step has finished |
| Activity.EarlyMeansAStep | local-engine/src/activity.rs:65-81 | A call that ends before its deadline saw a step finish since it began |
| Activity.LateMeansNoStep | local-engine/src/activity.rs:65-81 | A call that ends at its deadline saw no step finish since it began, unless 2^64 or more did |
| Activity.EarlyEndsAreDisjoint | local-engine/src/activity.rs:65-81 | Two early ends of one caller never share a step |
| Activity.EarlyEndsAreFew | local-engine/src/activity.rs:7-11 | A caller has at most one early end per finished step |
| Activity.WaitsUntilAStep | local-engine/src/activity.rs:75-78 | A sleeper's condition holds if and only if busy and the steps since are a multiple of 2^64 |
| Activity.NoLostWakeup | local-engine/src/activity.rs:39-45 | After 1 to 2^64 - 1 steps a sleeper has been or will be notified, and waking ends its call |
| Activity.EndedMeansNotified | local-engine/src/activity.rs:39-45 | A sleeper whose condition has ended has a notification delivered or pending, without any bound |
| Activity.WrappedCounterHidesSteps | local-engine/src/activity.rs:39-45 | A run in which a notified sleeper wakes after exactly 2^64 steps and is put back to sleep |
| Activity.WaitsOnlyWhenRunning | local-engine/src/activity.rs:68-81 | In every run a call sleeps exactly when a step is running by the history so far, and otherwise returns at once |
| Stream.PublishNoClobber | tools/kaggle_bonsai_job.py:35-43 | Links then unlinks; an existing destination is refused and never replaced; all states in between are listed |
| Stream.Copy | tools/kaggle_bonsai_job.py:71-95 | Without a fault the copy succeeds exactly when reads are bounded and size and digest match; the destination stays absent, also after a failed read or a torn write |
| Stream.StreamVerified | tools/kaggle_bonsai_job.py:46-101 | Publishes exactly the promised bytes or, unless an operation fails, leaves the tree as it was; at no moment, torn writes included, is the destination anything but verified |
| Install.CheckMembers | tools/kaggle_bonsai_job.py:272-285 | Accepts exactly archives that list each expected file once, regular and within its limit |
| Install.ReadManifest | tools/kaggle_bonsai_job.py:271-300 | Accepts exactly archives whose bounded manifest is the pinned one, check by check |
| Install.AcceptableIsGenuine | tools/kaggle_bonsai_job.py:268-325 | Accepted archives, from the fields alone: the five members once each, regular and within their limits, a manifest of the pinned model, and every recorded file delivered in its recorded size and digest, the model in the pinned ones |
| Install.OtherModelRefused | tools/kaggle_bonsai_job.py:299-322 | An archive whose model member delivers another length or digest is never accepted |
| Install.MakeDirectories | tools/kaggle_bonsai_job.py:270-270 | Makes only new directories above the destination |
| Install.StageAll | tools/kaggle_bonsai_job.py:304-325 | Stages every recorded file with recorded size and digest, touching only the temporary directory |
| Install.PublishAll | tools/kaggle_bonsai_job.py:327-329 | Moves files one by one, the manifest last, so that a manifest always means an installed model |
| Install.RemoveTree | tools/kaggle_bonsai_job.py:301-303 | Removes only the temporary directory, in whatever order |
| Install.InstallArchive | tools/kaggle_bonsai_job.py:259-330 | At every state of every run nothing that existed has changed and a manifest means every recorded file in its recorded size and digest, the model pinned; without faults it installs exactly acceptable archives and a refusal leaves only parent directories; at every state with a manifest the model file has the pinned length and digest |

## Left out

- Floating-point error bounds, reassociation under relaxed math and performance: equal results are over exact reals, equal bits are equal expressions in source order.
- The tensor-op matrix multiplication, Metal dispatch and shader building.
- 32-bit index overflow in the kernels: indices are unbounded; masks and shifts by powers of two are written as division and remainder, the OR of disjoint bits as a sum (`Bits.CodeIsOr` proves it for the code byte).
- The decoding of a block's binary16 scale: the scale is a number of the block.
- Matvec.Project: the entry point's rejection of unaligned matrices is not modelled, because alignment has no counterpart here.
- The remaining mixer kernels (normalisation, attention, gates) and the plain convolution layout: they would add easy members.
- Auc.RocAuc: scores are reals, so NaN scores and the rounding of the last division are not modelled; labels are 0 or 1.
- Threshold.ChooseThreshold: precision and recall are compared as reals, not as rounded quotients.
- CommitPack.Build: reading, hashing and JSON or gzip parsing of the inputs, the stripping of subjects and names, and the written report.
- CommitPack.Choose: equal hash keys are broken by order of first use, as the library's stable sort does; the hash functions themselves are parameters.
- Activity.RunKeepsInv: lock poisoning is not modelled, because the code continues with the inner value.
- Stream.StreamVerified: a link copies the content, since no file is written after it is linked; a failing operation other than a write changes nothing.
- Install.InstallArchive: other writers in the new directory, and the order in which the operating system flushes to disk.
- The prompt cache, scheduler, speculation, vector store, HTTP front end, benchmarks and training.
