# RAMforge core in Dafny

This project models the parts of RAMforge whose correctness is a statement about every input or
every run, and proves those statements with Dafny 4.11. `dafny verify dfyconfig.toml` checks the
whole project.

What is modelled, component by component:

- **Memory ledger** (`Ledger.dfy`): `MemoryBudget` as a class over its named charges, each method
  tied to one operation of a value-level ledger, about which whole runs and nested temporary scopes
  are proved.
- **Budgeted LRU cache** (`Recency.dfy`, `Cache.dfy`, `LruInclusion.dfy`): `BoundedCache` over a map,
  a recency list and a byte count, its charges on the shared ledger, and the two-cache inclusion law.
- **Layer planning and loading** (`Planner.dfy`, `ReadPlan.dfy`): the memory estimates, the plan of
  coalesced reads, and the charge-before-read execution they must predict.
- **Tokenizer** (`Utf8.dfy`, `LossyItems.dfy`, `Vocabulary.dfy`, `TokenDecoder.dfy`, `SentencePiece.dfy`,
  `Bpe.dfy`, `RoundTrips.dfy`, `SpecialTokens.dfy`): incremental decoding against batch decoding, the
  Viterbi encoder with its greedy fallback, pre-tokenization and the merge loop, which texts come back
  from encoding and decoding, and the cutting of text at special tokens.
- **Chat templates** (`ChatExpression.dfy`, `ChatTemplate.dfy`): both recursive-descent parsers,
  as classes that advance a position, with printers they invert.
- **Sharded models** (`ShardName.dfy`, `Discovery.dfy`, `Assembly.dfy`, `DataSource.dfy`): finding a
  set from one shard or from a directory, which candidate files form one model, the virtual byte
  space over their data sections, and reads through cached file cursors.
- **Quantized kernels** (`Quant.dfy`, `Packing.dfy`, `Matvec.dfy`): Q4_0 and Q6_K blocks and how they are
  packed, their decoders, the fused row dot-products and the row-range products.
- **GGUF headers** (`Gguf.dfy`, `GgufReader.dfy`): the reader and parser against a layout of headers.
- **End to end** (`TensorSizes.dfy`, `EndToEnd.dfy`): parsed sizes are those the planner and the kernels
  count on, written headers read back as their payload, and planned ranges as the layer's tensors.

How the model stands to the code:

- State that the code changes in place is a class or an array here, and every such method is proved
  against a function of the old state. The functions carry the laws, as lemmas.
- `u64` values are naturals up to 2^64 - 1; checked, saturating and wrapping operations are written
  out as such. Strings are sequences of Unicode scalar values; bytes are naturals below 256.
- Files, devices and builders supplied by callers may fail at any call; the model lets them.
- The half-precision scale of a block is one table of 65536 reals used by every kernel, so nothing
  is claimed about IEEE 754 values. Scores and weights are exact reals.

Places where the code does more or less than one would expect are stated as lemmas, each with the
exact condition under which the code meets the expectation:

- `EndToEnd.WrappedSetReadsElsewhere`, `OwnBytesUnlessWrapped`, `DataSource.OwnBytesInData`: in a
  sharded model a tensor whose offset wrapped to before the data section is accepted and other bytes
  are read.
- `Matvec.WrappedMatrixIsAccepted`, `AcceptedHolds`: a row-range product whose matrix size wraps in
  64 bits is accepted although the matrix is not there.
- `ReadPlan.EmptyTensorMatters`, `PlannableExactly`: whether a layer with an empty tensor at the start
  of another is planned depends on the order in which they are listed.
- `ChatTemplate.ElseAfterElse`, `ElifAfterElse`, `ReprintsExactly`: a second else is accepted and the
  first one's body is lost; an elif after an else is accepted.
- `TokenDecoding.SpellingReadAsByte`, `SpellingTokensDecodeToText`: in a gpt2 or qwen2 model a vocabulary
  entry that reads like a byte token is decoded as one.
- `RoundTrips.AccentIsLost`, `DecodingSpells`: such a model is decoded through GPT-2's byte alphabet but
  not encoded through it, so letters of that alphabet above ASCII do not come back.
- `Bpe.PreTokenizingExactly`: of whitespace only single spaces in front of words survive under a space
  marker.
- `Bpe.SpaceWithoutWords`, `EncodingKeepsWordsExactly`: text that is only whitespace has no words under
  the space marker, yet may be kept by the greedy encoder.
- `ShardName.SignedNameIsAccepted`, `Discovery.DirectoryAgreesWithFile`, `AnonymousOpensNothing`: a
  shard whose number has a plus sign, or whose stem is no file name, is accepted in a directory but
  not found by name.
- `ChatExpression.NotAfterOperatorIsAVariable`, `NotIsAVariableExactly`: `not` after an operator is
  taken for a variable.
- `LruInclusion.FullCachePanics`: a full cache panics where one entry more exceeds 64 bits.
- `Assembly.CollectOrdered`: the final missing-shard error cannot occur.

## Model

| member | source | states |
|---|---|---|
| `Ledger.RunsStaySound` | crates/ramforge-core/src/memory.rs:37-323 | after any run of allocate, release, resize, commit_resize and rename_prefix from a new budget, every visited state has used = sum of charges <= total, and the final peak is the highest usage visited, never more |
| `Ledger.ChainPeak` | crates/ramforge-core/src/memory.rs:93-323 | the same from any sound state, for any chain of operations: the peak is the larger of the old peak and the highest usage on the way |
| `Ledger.HistoryIsChain` | crates/ramforge-core/src/memory.rs:93-323 | running a list of operations only ever takes single ledger steps |
| `Ledger.Apply` | crates/ramforge-core/src/memory.rs:93-323 | one operation: a refused one leaves the state exactly as it was, and soundness is kept |
| `Ledger.SumCharged` | crates/ramforge-core/src/memory.rs:93-323 | the usage an operation leaves is the sum of the charges it leaves |
| `Ledger.ChargedExactly` | crates/ramforge-core/src/memory.rs:93-323 | name by name which charges an accepted operation leaves: which appear, which go, which size they have, and that no other is touched |
| `Ledger.RenamesFit` | crates/ramforge-core/src/memory.rs:286-323 | a rename is refused exactly when a new name is already charged; new names never collide with one another |
| `Ledger.RenamePrefixIsInjective` | crates/ramforge-core/src/memory.rs:286-323 | a successful rename moves every matching charge to its own new name with the same bytes, keeps every other, clobbers none, and changes neither usage nor peak |
| `Ledger.Relabel` | crates/ramforge-core/src/memory.rs:286-323 | charges moved to new names keep their total |
| `Ledger.WithTempRestores` | crates/ramforge-core/src/memory.rs:357-384 | a scope whose body restores the map restores it too, whether the body succeeds, fails or panics |
| `Ledger.ScopesRestore` | crates/ramforge-core/src/memory.rs:357-384 | any nesting of with_temp scopes with balanced bodies ends with exactly the starting charges and usage, on success, error and panic; a body is balanced when what it does besides scopes, sequences and handled failures leaves every ledger's charges unchanged |
| `Ledger.BalancedIsNeutral` | crates/ramforge-core/src/memory.rs:357-384 | so a balanced program may itself stand as such a body |
| `Ledger.BracketIsBalanced` | crates/ramforge-core/src/memory.rs:350-384 | allocating and releasing by hand around a balanced body that comes to its end is balanced |
| `Ledger.ExecPeak` | crates/ramforge-core/src/memory.rs:357-384 | the peak of any nesting of scopes is the deepest usage nested inside it, or the old peak |
| `Ledger.NestedPeak` | crates/ramforge-core/src/memory.rs:357-384 | when the deepest nesting fits, no scope is refused, the program ends as written, the charges are restored and the peak is the larger of the old peak and the usage plus the depth, a number of the program alone |
| `Ledger.MemoryBudget.constructor` | crates/ramforge-core/src/memory.rs:39-49 | a new ledger charges nothing |
| `Ledger.MemoryBudget.Allocate` | crates/ramforge-core/src/memory.rs:93-121 | the fields end where the specification of allocate says, and nothing changes on an error |
| `Ledger.MemoryBudget.Release` | crates/ramforge-core/src/memory.rs:133-152 | the charge is gone, its bytes are returned and no longer used |
| `Ledger.MemoryBudget.Resize` | crates/ramforge-core/src/memory.rs:160-208 | one charge changes to the new size or nothing changes; growing may raise the peak |
| `Ledger.MemoryBudget.CommitResize` | crates/ramforge-core/src/memory.rs:218-276 | the reservation disappears and the target takes the new size in one step, or nothing changes |
| `Ledger.MemoryBudget.RenamePrefix` | crates/ramforge-core/src/memory.rs:286-323 | the loop over the charges reaches the renamed map of the specification, or refuses before touching it |
| `Ledger.MemoryBudget.MoveCharges` | crates/ramforge-core/src/memory.rs:300-323 | moving charges one at a time, in any order, reaches the whole relabelled map |
| `Ledger.MemoryBudget.Execute` | crates/ramforge-core/src/memory.rs:357-384 | scopes executed on the ledger end in the state and outcome of their specification |
| `Ledger.MemoryBudget.Perform` | crates/ramforge-core/src/memory.rs:93-323 | any one operation on the ledger takes the step of the specification |
| `Recency.WithoutIs` | crates/ramforge-core/src/cache.rs:193-213 | without a key the keys stay distinct, only old entries remain, the key is gone and the size falls by its bytes |
| `Recency.WithoutCuts` | crates/ramforge-core/src/cache.rs:193-213 | exactly the entry of that key is cut out and all others keep their order |
| `Recency.TouchedIs` | crates/ramforge-core/src/cache.rs:98-110 | touching a key keeps the keys distinct and the size |
| `Recency.TouchedCuts` | crates/ramforge-core/src/cache.rs:98-110 | a hit puts its entry first, keeps the order of the others, and so permutes the list |
| `Recency.FitFrom` | crates/ramforge-core/src/cache.rs:421-441 | the survivors of eviction are the longest prefix of the recency list that fits |
| `Recency.InsertedIs` | crates/ramforge-core/src/cache.rs:122-190 | inserting a new key keeps the keys distinct and stays within the capacity |
| `Recency.EvictStep` | crates/ramforge-core/src/cache.rs:122-190 | evicting the last entry does not change which prefix will be kept |
| `Cache.BudgetKey` | crates/ramforge-core/src/cache.rs:415-418 | budget names of different keys differ |
| `Cache.ChargesSum` | crates/ramforge-core/src/cache.rs:223-441 | the ledger of a coupled cache charges the other clients plus the cached bytes, and no more |
| `Cache.TouchedCharges` | crates/ramforge-core/src/cache.rs:98-110 | a hit changes no charge |
| `Cache.RetainKeys` | crates/ramforge-core/src/cache.rs:193-213 | filtering the recency list removes the key and nothing else |
| `Cache.BoundedCache.constructor` | crates/ramforge-core/src/cache.rs:51-66 | a new cache is empty |
| `Cache.BoundedCache.New` | crates/ramforge-core/src/cache.rs:51-66 | a cache of no bytes is refused, any other starts empty |
| `Cache.BoundedCache.Get` | crates/ramforge-core/src/cache.rs:98-110 | a hit returns the stored buffer and moves the key to the front; hits and misses are counted |
| `Cache.BoundedCache.Remove` | crates/ramforge-core/src/cache.rs:193-213 | the entry is gone from map, recency list and usage together |
| `Cache.BoundedCache.PopLru` | crates/ramforge-core/src/cache.rs:152-161 | the victim is the least recently used entry |
| `Cache.BoundedCache.EvictToCapacity` | crates/ramforge-core/src/cache.rs:144-166 | eviction stops at the longest prefix that leaves room |
| `Cache.BoundedCache.Insert` | crates/ramforge-core/src/cache.rs:122-190 | the plain insert ends with the new entry in front of the longest prefix that fits the capacity, and refuses oversized data |
| `Cache.BoundedCache.EvictLruBudgeted` | crates/ramforge-core/src/cache.rs:421-441 | the victim's charge is released with its bytes, so cache and ledger agree after each eviction |
| `Cache.BoundedCache.EvictForCapacity` | crates/ramforge-core/src/cache.rs:260-283 | the capacity loop keeps cache and ledger agreeing and evicts from the old end only |
| `Cache.BoundedCache.EvictForBudget` | crates/ramforge-core/src/cache.rs:284-291 | the ledger loop does the same until the charge fits or the cache is empty |
| `Cache.BoundedCache.MakeRoom` | crates/ramforge-core/src/cache.rs:260-291 | both loops together keep the longest prefix satisfying capacity and ledger |
| `Cache.BoundedCache.ChargeAndRollBack` | crates/ramforge-core/src/cache.rs:293-342 | a failed, panicking or mis-sized build leaves no charge behind |
| `Cache.BoundedCache.InsertBudgetedWith` | crates/ramforge-core/src/cache.rs:223-353 | every outcome (inserted, empty, too large, skipped, builder error, builder panic, wrong size, accounting panic) leaves exactly the specified recency list and a ledger that agrees with it |
| `Cache.BoundedCache.InsertBudgeted` | crates/ramforge-core/src/cache.rs:359-372 | the same for data already built |
| `Cache.BoundedCache.RemoveBudgeted` | crates/ramforge-core/src/cache.rs:376-399 | entry and charge disappear together, also when copying the data out fails |
| `Cache.BoundedCache.ClearBudgeted` | crates/ramforge-core/src/cache.rs:402-413 | every cache charge is released and every other charge kept |
| `Cache.EvictionIsMinimal` | crates/ramforge-core/src/cache.rs:245-353 | a successful insert leaves the key followed by the longest prefix of the old list, without the key, that satisfies both the capacity and the ledger: one entry more would not have fitted |
| `Cache.SkippedOnlyWhenFull` | crates/ramforge-core/src/cache.rs:284-291 | an insert is skipped exactly when the cache has been emptied and the other clients alone leave too little |
| `Cache.ForeignIsLocal` | crates/ramforge-core/src/memory.rs:93-323 | an operation on names outside `cache:` is refused in the same cases, and changes the shared charges in the same way, as if the other clients had a ledger of their own with the total the cache leaves |
| `Cache.ForeignKeepsNames` | crates/ramforge-core/src/memory.rs:93-323 | other clients never create a cache charge |
| `Cache.RefStep` | crates/ramforge-core/src/cache.rs:98-441 | one step of the reference keeps it sane: distinct keys, within the capacity, within the ledger |
| `Cache.Replay` | crates/ramforge-core/src/cache.rs:98-441 | so does any script of cache operations and other clients' operations |
| `Cache.RunOp` | crates/ramforge-core/src/cache.rs:98-441 | one operation on the two objects takes the reference step |
| `Cache.RunScript` | crates/ramforge-core/src/cache.rs:98-441 | after any interleaving of cache and foreign operations the two objects are where the reference is: the ledger is exactly the other charges plus one charge for each cached entry, and no internal release failed on the way |
| `LruInclusion.NoBeladyAnomaly` | crates/ramforge-core/src/cache.rs:98-207 | with entries of one size, one trace on two caches with capacities C1 <= C2, even a C1 below one entry, keeps the small list inside the large one, so every hit in the small cache is a hit in the large one, provided one entry more than the large one holds still counts in 64 bits |
| `LruInclusion.FullCachePanics` | crates/ramforge-core/src/cache.rs:144-172 | a full cache panics at a new key instead of evicting exactly when that count exceeds 64 bits |
| `LruInclusion.StepIncluded` | crates/ramforge-core/src/cache.rs:98-207 | one access keeps the inclusion, with the large cache's surplus within the slot difference |
| `LruInclusion.PushIncluded` | crates/ramforge-core/src/cache.rs:122-190 | an insert keeps it |
| `LruInclusion.GetIncluded` | crates/ramforge-core/src/cache.rs:98-110 | a get keeps it |
| `LruInclusion.RemoveIncluded` | crates/ramforge-core/src/cache.rs:193-213 | a remove keeps it |
| `LruInclusion.KeptInSlots` | crates/ramforge-core/src/cache.rs:144-166 | with entries of one size, eviction by bytes is eviction by slots |
| `Planner.EstimateLayer` | crates/ramforge-runtime/src/accounting.rs:40-69 | the loop computes the resident total and the load peak, and fails exactly when a size is unknown or a sum overflows |
| `Planner.LoadTensor` | crates/ramforge-runtime/src/streaming_model.rs:608-644 | charge before reading, then settle: success exactly when the name is free, the read works and both the load charge and the settled one fit, with the peak raised to the larger |
| `Planner.LoadLayer` | crates/ramforge-runtime/src/streaming_model.rs:608-644 | planner equals executor: from usage U the layer loads, given working reads, exactly when U + load peak fits, ends at U + resident, and leaves the peak at exactly the larger of the old peak and U + load peak; a failure leaves the ledger's charges as before |
| `Planner.ReleaseLayer` | crates/ramforge-runtime/src/streaming_model.rs:849-873 | releasing a layer removes exactly the charges under its prefix |
| `Planner.ReleasedIsBase` | crates/ramforge-runtime/src/streaming_model.rs:849-873 | what a half-loaded layer charged is exactly what releasing it removes |
| `Planner.EstimateGrouped` | crates/ramforge-runtime/src/accounting.rs:73-132 | the grouped loop computes the grouped totals and fails exactly when a size is unknown or a sum overflows |
| `Planner.GroupedIsSound` | crates/ramforge-runtime/src/accounting.rs:40-132 | when every span covers its tensors, the grouped resident total equals the ungrouped one and the grouped peak is at least the ungrouped peak in plan order |
| `Planner.ResidentPermuted` | crates/ramforge-runtime/src/accounting.rs:40-132 | the resident total does not depend on the order of the tensors |
| `Planner.LoadGroups` | crates/ramforge-runtime/src/streaming_model.rs:721-790 | grouped loading never needs more than the grouped estimate, raises the peak by exactly the plan and leaves no charge on failure |
| `Planner.LoadGroup` | crates/ramforge-runtime/src/streaming_model.rs:721-790 | one group: its tensors charged, its span charged for the read only |
| `Planner.MatchedFits` | crates/ramforge-runtime/src/accounting.rs:22-36 | the load charge covers what stays resident and at most the file bytes more |
| `Planner.LoadIsFileAndCopy` | crates/ramforge-runtime/src/accounting.rs:18-37 | for a tensor of some bytes that match its type the load charge is the file bytes plus the F32 copy for F16 and BF16, and the file bytes, which are what stays, for F32 and the quantized types |
| `Planner.EmptyTensorCharge` | crates/ramforge-runtime/src/accounting.rs:46-60 | a tensor of no bytes is charged one, loading and resident |
| `TensorSizes.BlocksAreTheirParts` | crates/ramforge-core/src/quant.rs:89-605 | for every type that can be loaded the block size in the type table is the sum of the parts its decoder takes a block apart into |
| `TensorSizes.DescribedMatchesType` | crates/ramforge-core/src/types.rs:354-392 | every parsed tensor of a supported type and known length has the length its type gives its elements, as the planner demands |
| `TensorSizes.DescribedHoldsRows` | crates/ramforge-core/src/types.rs:354-392 | a Q4_0 or Q6_K tensor of whole rows has just the bytes of the rows the kernels read |
| `ReadPlan.BuildPlan` | crates/ramforge-runtime/src/layer_read.rs:50-133 | the plan's loops produce the one plan of the layer with its totals (bytes read are bytes of tensors plus gaps), or fail exactly when the layer cannot be planned; the sums at the end never overflow |
| `ReadPlan.PlannableExactly` | crates/ramforge-runtime/src/layer_read.rs:53-82 | a layer can be planned exactly when every length is known, no end and no sum exceeds 64 bits, and no tensor starts among the bytes of another (at its first byte: none that is listed later) |
| `ReadPlan.NonemptyPlannable` | crates/ramforge-runtime/src/layer_read.rs:53-82 | with no empty tensor that means that no two overlap, in whatever order they are listed |
| `ReadPlan.EmptyTensorMatters` | crates/ramforge-runtime/src/layer_read.rs:68-82 | an empty tensor at the start of another is planned or refused by the order of the two |
| `ReadPlan.TotalsFit` | crates/ramforge-runtime/src/layer_read.rs:117-124 | the bytes read are those of the tensors plus the gaps, and fit 64 bits |
| `ReadPlan.Coalesce` | crates/ramforge-runtime/src/layer_read.rs:70-115 | sorted entries are coalesced into the one plan there is, or one of them starts before the one before it ends |
| `ReadPlan.PlanIsUnique` | crates/ramforge-runtime/src/layer_read.rs:70-115 | there is only one plan: each entry joins the range before exactly when gap and span stay within the limits |
| `ReadPlan.SortSorts` | crates/ramforge-runtime/src/layer_read.rs:53-68 | the sorted entries are a permutation in offset order |
| `ReadPlan.ExtendPlans` | crates/ramforge-runtime/src/layer_read.rs:70-115 | adding the next entry, joined when it may be, keeps a plan a plan |
| `ReadPlan.GroupCovers` | crates/ramforge-runtime/src/layer_read.rs:70-115 | every range's span covers its disjoint tensors |
| `ReadPlan.PlannedEstimateIsSound` | crates/ramforge-runtime/src/accounting.rs:73-132 | for a layer that can be planned, the estimate made from the built plan has the ungrouped resident total and at least the ungrouped peak in plan order |
| `Utf8.ScanIsMaximalSubpart` | crates/ramforge-core/src/tokenizer.rs:118-153 | the scanner is valid exactly on inputs starting with an encoded character, incomplete exactly on proper prefixes of one, and otherwise replaces the maximal subpart of section 3.9 of the Unicode Standard |
| `Utf8.ScanOfEncoding` | crates/ramforge-core/src/tokenizer.rs:118-153 | every encoding of section 3 of RFC 3629 is accepted and read back as the character it came from |
| `Utf8.EncodeCharAt` | crates/ramforge-core/src/tokenizer.rs:118-153 | the character read from a valid sequence encodes to that sequence |
| `Utf8.ScanIsStable` | crates/ramforge-core/src/tokenizer.rs:118-153 | a decided sequence is not decided differently when more bytes arrive |
| `Utf8.FromUtf8Inverts` | crates/ramforge-core/src/tokenizer.rs:118-153 | from_utf8 succeeds on exactly the encodings and returns the encoded text |
| `Utf8.ValidPrefix` | crates/ramforge-core/src/tokenizer.rs:132-141 | the prefix up to valid_up_to decodes, so draining it cannot fail, and the error is then at the front |
| `Utf8.DrainLeavesPending` | crates/ramforge-core/src/tokenizer.rs:118-153 | what stays pending is empty or a proper prefix of one well-formed sequence |
| `Utf8.DrainThenLossy` | crates/ramforge-core/src/tokenizer.rs:118-153 | draining early and decoding the rest later gives the batch decoding |
| `Utf8.LossyExactly` | crates/ramforge-core/src/tokenizer.rs:118-155 | batch decoding is the replacement of section 3.9 of the Unicode Standard, and no other text is: a character where its encoding stands, U+FFFD for each maximal subpart of anything else, also at the end |
| `Utf8.LossyOfEncoding` | crates/ramforge-core/src/tokenizer.rs:146-147 | well-formed text survives lossy decoding unchanged |
| `Vocabulary.IndexTokens` | crates/ramforge-core/src/tokenizer.rs:324-328 | the token index maps every token to its first position and nothing else |
| `Vocabulary.IndexByteTokens` | crates/ramforge-core/src/tokenizer.rs:356-375 | the byte table gives every byte the last token that writes it as two hexadecimal digits, or else its character's token if that is of type byte, and nothing else |
| `Vocabulary.Gpt2AlphabetInverse` | crates/ramforge-core/src/tokenizer.rs:43-52 | the ranges are exactly the inverse of GPT-2's byte-to-character definition |
| `Vocabulary.Gpt2TokenInverse` | crates/ramforge-core/src/tokenizer.rs:54-60 | a token decodes to bytes exactly when it spells them in that alphabet |
| `Vocabulary.ByteFormExactly` | crates/ramforge-core/src/tokenizer.rs:168-173 | a token is read as byte b exactly when it is `<0x`, two hexadecimal digits of b in either case and `>`, or, below 16, a plus sign and one digit |
| `Vocabulary.PieceOfExactly` | crates/ramforge-core/src/tokenizer.rs:157-197 | what an id contributes follows from the shape of its token: passed over, a byte written, one ASCII character of type byte, bytes spelled in GPT-2's alphabet, or text, in this order |
| `Vocabulary.TrimStartExactly` | crates/ramforge-core/src/tokenizer.rs:106-111 | trimming takes exactly the leading whitespace |
| `Vocabulary.WhitespaceExactly` | crates/ramforge-core/src/tokenizer.rs:652 | whitespace is the twenty-five characters of Unicode's White_Space property |
| `LossyItems.LossyOfItems` | crates/ramforge-core/src/tokenizer.rs:118-155 | bytes made of whole characters and lone bytes are decoded item by item, each shown as itself (a lone byte above ASCII as U+FFFD), or to fewer characters than items |
| `TokenDecoding.TokenDecoder.EmitText` | crates/ramforge-core/src/tokenizer.rs:106-116 | text is trimmed until something has been emitted |
| `TokenDecoding.TokenDecoder.DrainBytes` | crates/ramforge-core/src/tokenizer.rs:118-155 | the loop emits what the pending bytes decide (all of them at the end of a run), trimmed as one text, and keeps the undecided rest |
| `TokenDecoding.TokenDecoder.Push` | crates/ramforge-core/src/tokenizer.rs:157-197 | one id emits what its piece decides and leaves the rest pending, a proper prefix of one well-formed sequence |
| `TokenDecoding.TokenDecoder.Finish` | crates/ramforge-core/src/tokenizer.rs:199-201 | everything pending is emitted lossily |
| `TokenDecoding.Decode` | crates/ramforge-core/src/tokenizer.rs:723-731 | for every id sequence the concatenated pushes plus finish equal the batch decoding of each byte run interleaved with the text tokens, trimmed once overall for a llama model; the byte tokens of a text's encoding give the text, and in a gpt2 or qwen2 model so do tokens spelling it in the byte alphabet, exactly when none is written like a byte token |
| `TokenDecoding.StepIsBatch` | crates/ramforge-core/src/tokenizer.rs:157-197 | emitting early never changes the batch text: one step and the batch of what is left make the batch |
| `TokenDecoding.DrainTwice` | crates/ramforge-core/src/tokenizer.rs:118-155 | draining in two goes decides the same text as draining once |
| `TokenDecoding.EmitAppend` | crates/ramforge-core/src/tokenizer.rs:106-116 | trimming piece by piece is trimming the whole |
| `TokenDecoding.ByteTokensDecodeToText` | crates/ramforge-core/src/tokenizer.rs:723-731 | however byte tokens cut a text's encoding, decoding returns the text |
| `TokenDecoding.HexTokensDecodeToText` | crates/ramforge-core/src/tokenizer.rs:168-173 | the `<0xHH>` tokens of a text's encoding, one for each byte and in either case, decode to the text |
| `TokenDecoding.SpellingTokensDecodeToText` | crates/ramforge-core/src/tokenizer.rs:181-191 | tokens that together spell a text's encoding in GPT-2's alphabet, even cutting characters, decode to the text exactly when none of them is written like a byte token |
| `TokenDecoding.SpellingReadAsByte` | crates/ramforge-core/src/tokenizer.rs:168-191 | an input where one is: a gpt2 token `<0x41>` decodes to the letter A |
| `TokenDecoding.SkippedIdsVanish` | crates/ramforge-core/src/tokenizer.rs:157-166 | ids of no token, and BOS and EOS of type control, change nothing wherever they stand |
| `SentencePiece.EncodeSentencePiece` | crates/ramforge-core/src/tokenizer.rs:495-567 | if the preprocessed text has a segmentation into tokens of at most 32 characters, the ids are those of one with the highest total score; the greedy fallback is taken exactly when there is none |
| `SentencePiece.RelaxFrom` | crates/ramforge-core/src/tokenizer.rs:527-543 | one row keeps every cell a real segmentation with its score and relaxes every edge from that row |
| `SentencePiece.FillTable` | crates/ramforge-core/src/tokenizer.rs:516-544 | the whole table: all cells real, all edges relaxed |
| `SentencePiece.CellsBoundAll` | crates/ramforge-core/src/tokenizer.rs:516-544 | a relaxed table bounds the score of every segmentation of every prefix |
| `SentencePiece.Backtrack` | crates/ramforge-core/src/tokenizer.rs:551-567 | backtracking ends, never reaches its stand-in branch, and spells the stored best segmentation in order |
| `SentencePiece.EncodeGreedy` | crates/ramforge-core/src/tokenizer.rs:570-604 | longest match from left to right, one stand-in for a character no token starts with |
| `SentencePiece.LongestIsLongest` | crates/ramforge-core/src/tokenizer.rs:575-588 | the match taken is the longest of at most 32 characters, and none is found only when none exists |
| `SentencePiece.GreedyCovers` | crates/ramforge-core/src/tokenizer.rs:570-604 | with every character a token, the greedy tokens join to the text |
| `SentencePiece.PreprocessExactly` | crates/ramforge-core/src/tokenizer.rs:500-511 | if U+2581 occurs in some token every space becomes it, character by character, and one is put in front of a text that opens with neither; otherwise the text is left alone |
| `SentencePiece.NormalizePreprocessed` | crates/ramforge-core/src/tokenizer.rs:500-511 | as the decoder sees it, preprocessing puts one space in front of a text that does not open with one, and changes nothing else |
| `SentencePiece.DecodeAfterEncode` | crates/ramforge-core/src/tokenizer.rs:495-567 | decoding a segmentation of the preprocessed text gives the text without its leading whitespace (llama, space marker, no marker characters, tokens that print) |
| `SentencePiece.RoundTrip` | crates/ramforge-core/src/tokenizer.rs:723-731 | encoder then decoder under the same conditions: nothing is lost exactly when the text does not open with whitespace |
| `Bpe.BpeWord` | crates/ramforge-core/src/tokenizer.rs:675-715 | the merge loop ends with the merged pieces of the specification |
| `Bpe.FindBestPair` | crates/ramforge-core/src/tokenizer.rs:690-702 | the scan finds the leftmost adjacent pair of least rank |
| `Bpe.BestPair` | crates/ramforge-core/src/tokenizer.rs:690-702 | that pair is leftmost and least, and there is none only when nothing can be merged |
| `Bpe.MergedEndsFullRun` | crates/ramforge-core/src/tokenizer.rs:675-715 | merging is a run of steps, each merging the leftmost least pair, that stops only when no pair can be merged |
| `Bpe.FullRunsAgree` | crates/ramforge-core/src/tokenizer.rs:675-715 | there is only one such run from any start |
| `Bpe.MergedKeepsText` | crates/ramforge-core/src/tokenizer.rs:675-715 | the pieces always join to the word |
| `Bpe.MergedInVocabulary` | crates/ramforge-core/src/tokenizer.rs:675-715 | if every merge product is a token, merging tokens gives tokens |
| `Bpe.PreTokenize` | crates/ramforge-core/src/tokenizer.rs:645-673 | if some token starts with the space marker, the words of the text in order, each behind the marker unless it is the first and the text does not open with whitespace; otherwise the text |
| `Bpe.SplitIsMaximal` | crates/ramforge-core/src/tokenizer.rs:652-664 | the words are the text's maximal stretches without whitespace: increasing positions, whitespace or an end on both sides, everything else whitespace |
| `Bpe.WordsAreUnique` | crates/ramforge-core/src/tokenizer.rs:652-664 | a text has its words at one list of places only |
| `Bpe.PreTokenizingExactly` | crates/ramforge-core/src/tokenizer.rs:645-673 | the words joined, markers read as spaces, are the text exactly when it holds no marker characters and, under a marker vocabulary, its whitespace is single spaces in front of words |
| `Bpe.EncodePiece` | crates/ramforge-core/src/tokenizer.rs:620-634 | a piece outside the vocabulary is spelled by bytes, with the unknown token as last resort |
| `Bpe.EncodeBpe` | crates/ramforge-core/src/tokenizer.rs:607-643 | the ids of words and pieces in order, with the greedy fallback exactly when nothing was produced; `RoundTrips.BpeTextComesBack` and `AnyTextComesBack` say what they decode to |
| `Bpe.WordKept` | crates/ramforge-core/src/tokenizer.rs:607-643 | with every character and merge product in the vocabulary a word's tokens join to it and no byte is spelled out |
| `Bpe.EncodingKeepsWords` | crates/ramforge-core/src/tokenizer.rs:607-643 | under the same condition the tokens of a text join to its pre-tokenized words, unless the space marker is in use and the text is nothing but whitespace |
| `Bpe.EncodingKeepsWordsExactly` | crates/ramforge-core/src/tokenizer.rs:607-643 | the tokens join to the pre-tokenized words exactly when the text has a word, needs no marker, or is whitespace at no position of which a token starts or the stand-in for the character spells anything |
| `Bpe.GreedyIsSilent` | crates/ramforge-core/src/tokenizer.rs:570-604 | the greedy encoder spells nothing exactly when every position is like that |
| `Bpe.WordsHaveText` | crates/ramforge-core/src/tokenizer.rs:645-673 | pre-tokenized words are empty exactly for an empty text, or for whitespace alone with the marker in use |
| `Bpe.WhitespaceIsGreedy` | crates/ramforge-core/src/tokenizer.rs:607-643 | whitespace alone with the marker in use has no words and goes to the greedy encoder |
| `Bpe.SpaceWithoutWords` | crates/ramforge-core/src/tokenizer.rs:607-643 | an input where it does not: a space that is a token of its own is kept although there is no word |
| `RoundTrips.DecodingSpells` | crates/ramforge-core/src/tokenizer.rs:157-197 | decoding shows exactly what the tokens spell, markers as spaces, when every id prints itself: not passed over, not written like a byte token, and ASCII where it is read through the byte alphabet; where nothing is trimmed, only then |
| `RoundTrips.BpeTextComesBack` | crates/ramforge-core/src/tokenizer.rs:607-731 | encode then decode: with all characters and merge products in the vocabulary, a single-spaced text without marker characters comes back exactly when the ids print themselves (one direction for llama, which trims) |
| `RoundTrips.BpeTextsThatComeBack` | crates/ramforge-core/src/tokenizer.rs:607-731 | and when they do, of the texts with a word no others come back |
| `RoundTrips.BpeRoundTrip` | crates/ramforge-core/src/tokenizer.rs:607-731 | the encoder and the decoder run one after the other |
| `RoundTrips.AnyTextComesBack` | crates/ramforge-core/src/tokenizer.rs:607-731 | with a byte token for every byte, whatever the vocabulary, a single-spaced text without marker characters comes back when the tokens used print themselves, exactly when no piece outside the vocabulary holds a marker |
| `RoundTrips.SegmentedTextComesBack` | crates/ramforge-core/src/tokenizer.rs:495-567 | the same for SentencePiece in any model: the text comes back but for the space put in front, which only llama trims |
| `RoundTrips.AccentIsLost` | crates/ramforge-core/src/tokenizer.rs:607-731 | an input that does not come back: a gpt2 vocabulary with an accented letter, which is encoded as it is and decoded as a lone byte |
| `SpecialTokens.FirstMatchIsLongest` | crates/ramforge-core/src/tokenizer.rs:379-398 | the special token taken is the longest that matches there |
| `SpecialTokens.FirstMatchExactly` | crates/ramforge-core/src/tokenizer.rs:465-468 | a special token is found at a position exactly when the text goes on with one there |
| `SpecialTokens.CutTiles` | crates/ramforge-core/src/tokenizer.rs:454-483 | the cut tiles the text: plain stretches contain no special-token start, special chunks are first matches, nothing overlaps or is skipped |
| `SpecialTokens.TilingIsUnique` | crates/ramforge-core/src/tokenizer.rs:454-483 | only one tiling has these properties |
| `SpecialTokens.EncodeWithSpecialTokens` | crates/ramforge-core/src/tokenizer.rs:454-483 | the ids are those of the chunks in order, special ones by id and plain ones by the ordinary encoder |
| `SpecialTokens.EncodePlain` | crates/ramforge-core/src/tokenizer.rs:485-492 | byte-pair or SentencePiece encoding, by the model's kind |
| `SpecialTokens.Encode` | crates/ramforge-core/src/tokenizer.rs:432-451 | BOS and EOS only when configured, around the chunks' ids |
| `SpecialTokens.EncodingKeepsText` | crates/ramforge-core/src/tokenizer.rs:454-483 | where every plain stretch survives, the whole text does |
| `ChatExpression.ParserInvertsPrinter` | crates/ramforge-core/src/chat_template.rs:731-953 | every writable expression, printed with parentheses only where its level needs them, parses back to itself; not writable are only variables named like a literal, and a variable `not` where the operator would be read |
| `ChatExpression.ReadBackExactly` | crates/ramforge-core/src/chat_template.rs:731-953 | a printed expression is read back exactly when it is writable: the parser returns no other |
| `ChatExpression.OrInverts` | crates/ramforge-core/src/chat_template.rs:782-793 | at the `or` level, before any token that stops the lower levels |
| `ChatExpression.AndInverts` | crates/ramforge-core/src/chat_template.rs:795-806 | at the `and` level |
| `ChatExpression.NotInverts` | crates/ramforge-core/src/chat_template.rs:808-814 | at the `not` level |
| `ChatExpression.ComparisonInverts` | crates/ramforge-core/src/chat_template.rs:816-848 | at the comparison level, including `is defined` |
| `ChatExpression.ConcatInverts` | crates/ramforge-core/src/chat_template.rs:850-869 | at the additive level, left associative |
| `ChatExpression.PostfixInverts` | crates/ramforge-core/src/chat_template.rs:871-953 | at the postfix and primary levels, including parenthesised operands |
| `ChatExpression.PrinterIsInjective` | crates/ramforge-core/src/chat_template.rs:731-953 | different writable expressions print differently |
| `ChatExpression.AcceptedIsReprintable` | crates/ramforge-core/src/chat_template.rs:731-953 | whatever is accepted is writable and has a printed form read the same way |
| `ChatExpression.NotAfterOperatorIsAVariable` | crates/ramforge-core/src/chat_template.rs:808-843 | `a == not` is accepted with a variable called `not`, which is never an expression by itself |
| `ChatExpression.NotIsAVariableExactly` | crates/ramforge-core/src/chat_template.rs:731-953 | an accepted expression has a variable called `not` exactly when some operator token is directly followed by `not` |
| `ChatExpression.NameAlone` | crates/ramforge-core/src/chat_template.rs:923-928 | a name alone is the literal it spells, in each of its spellings, and otherwise a variable, unless it is the operator `not` |
| `ChatExpression.ExpressionParser.ParseOrLevel` | crates/ramforge-core/src/chat_template.rs:782-793 | the method agrees with the grammar and leaves the position after what it read |
| `ChatExpression.ExpressionParser.ParseAndLevel` | crates/ramforge-core/src/chat_template.rs:795-806 | the same |
| `ChatExpression.ExpressionParser.ParseNotLevel` | crates/ramforge-core/src/chat_template.rs:808-814 | the same |
| `ChatExpression.ExpressionParser.ParseComparisonLevel` | crates/ramforge-core/src/chat_template.rs:816-848 | the same |
| `ChatExpression.ExpressionParser.ParseConcatLevel` | crates/ramforge-core/src/chat_template.rs:850-869 | the same |
| `ChatExpression.ExpressionParser.ParsePostfixLevel` | crates/ramforge-core/src/chat_template.rs:871-917 | the same |
| `ChatExpression.ExpressionParser.ParsePrimaryLevel` | crates/ramforge-core/src/chat_template.rs:919-953 | the same |
| `ChatExpression.ParseExpressionTokens` | crates/ramforge-core/src/chat_template.rs:731-746 | the whole expression, nothing left over |
| `ChatExpression.ParseOr` | crates/ramforge-core/src/chat_template.rs:782-793 | a parsed level consumes at least one token, so the recursion ends, and the tree read is one that can be written |
| `ChatTemplate.TemplateInverts` | crates/ramforge-core/src/chat_template.rs:410-584 | every tree of text, outputs, if/elif/else, for and set nodes, printed as tags, parses back to itself |
| `ChatTemplate.AcceptedTemplateReprints` | crates/ramforge-core/src/chat_template.rs:410-584 | whatever is accepted has a printed form read the same way |
| `ChatTemplate.ReprintsExactly` | crates/ramforge-core/src/chat_template.rs:484-533 | accepted tags with their expressions in printed form are the print of the nodes they parse to exactly when no else of an if is followed at its own level by an elif or an else |
| `ChatTemplate.NodesReprint` | crates/ramforge-core/src/chat_template.rs:416-482 | the same for the nodes up to a terminator, inside any open statements |
| `ChatTemplate.PrintedScan` | crates/ramforge-core/src/chat_template.rs:416-482 | printed nodes never have anything after an else but its end |
| `ChatTemplate.NodesInvert` | crates/ramforge-core/src/chat_template.rs:416-482 | before any following tags, with those parsed afterwards |
| `ChatTemplate.NodeInverts` | crates/ramforge-core/src/chat_template.rs:416-564 | one node of any kind |
| `ChatTemplate.BranchesInvert` | crates/ramforge-core/src/chat_template.rs:493-518 | any number of elif branches joins the branches before |
| `ChatTemplate.ElseInverts` | crates/ramforge-core/src/chat_template.rs:519-527 | an else and the end close the statement |
| `ChatTemplate.ForInverts` | crates/ramforge-core/src/chat_template.rs:535-564 | a for body up to its endfor |
| `ChatTemplate.ElifAfterElse` | crates/ramforge-core/src/chat_template.rs:493-533 | an elif after an else is accepted and filed with the branches before |
| `ChatTemplate.ElseAfterElse` | crates/ramforge-core/src/chat_template.rs:519-524 | an else after an else is accepted and the body of the first is lost |
| `ChatTemplate.TemplateParser.ReadNodes` | crates/ramforge-core/src/chat_template.rs:416-482 | the loop agrees with the grammar and stops at the terminator without consuming it |
| `ChatTemplate.TemplateParser.ReadIf` | crates/ramforge-core/src/chat_template.rs:484-533 | the same for if statements, with errors in the order the code finds them |
| `ChatTemplate.TemplateParser.ReadFor` | crates/ramforge-core/src/chat_template.rs:535-564 | the same for for statements |
| `ChatTemplate.ParseTemplateTags` | crates/ramforge-core/src/chat_template.rs:86-102 | a whole template, with no terminator left over |
| `Assembly.AssembleShards` | crates/ramforge-core/src/model_set.rs:309-474 | success exactly when some arrangement of the candidates is a complete set: shard i numbered i, a permutation of the candidates, compatible names and architecture, unique tensor names, all in bounds, the declared total |
| `Assembly.OrderIsIrrelevant` | crates/ramforge-core/src/model_set.rs:309-474 | permuting the candidates changes neither success nor the assembled set |
| `Assembly.ArrangementIsUnique` | crates/ramforge-core/src/model_set.rs:309-474 | there is at most one such arrangement |
| `Assembly.FindDeclaredTotal` | crates/ramforge-core/src/model_set.rs:322-337 | the one declared tensor count, or an error exactly when two differ or one is not a number |
| `Assembly.AdmitTensors` | crates/ramforge-core/src/model_set.rs:405-434 | accepted exactly when no name repeats or was seen before and every known range lies inside the file |
| `Assembly.AdmitShard` | crates/ramforge-core/src/model_set.rs:345-441 | one candidate either fails a check or fills its own empty slot with every invariant kept |
| `Assembly.PlaceAll` | crates/ramforge-core/src/model_set.rs:345-441 | all candidates placed fill all slots; a failing one means no arrangement exists |
| `Assembly.CollectOrdered` | crates/ramforge-core/src/model_set.rs:443-451 | the missing-shard error at the end cannot happen |
| `Assembly.FillingCounts` | crates/ramforge-core/src/model_set.rs:380-385 | filling an empty slot raises the count by one, which is the pigeonhole argument |
| `Assembly.OrderedIsPermutation` | crates/ramforge-core/src/model_set.rs:443-451 | the ordered shards are the candidates, each once |
| `Assembly.AllAdmitted` | crates/ramforge-core/src/model_set.rs:309-474 | every candidate of an assemblable set passes every check in whatever order |
| `ShardName.ReadWrittenName` | crates/ramforge-core/src/model_set.rs:500-530 | a written shard name is read back exactly for indices from 1 to the count and counts up to 99999, and refused otherwise |
| `ShardName.WriteReadName` | crates/ramforge-core/src/model_set.rs:500-530 | a name that is read is the name written for what was read, exactly when no number in it carries a plus sign |
| `ShardName.SignedNameIsAccepted` | crates/ramforge-core/src/model_set.rs:500-530 | a name with a signed index is accepted although no index is written that way |
| `ShardName.ShardsLeadToEachOther` | crates/ramforge-core/src/model_set.rs:500-530 | every shard of a set of at most 99999 leads to the same prefix and count, and these to the path of every other shard |
| `ShardName.LooksForItself` | crates/ramforge-core/src/model_set.rs:196-213 | a shard given by path is among the paths then looked for, under its own index, exactly when its numbers are unsigned and its stem is a file name of its own |
| `ShardName.AnonymousLooksElsewhere` | crates/ramforge-core/src/model_set.rs:500-533 | a shard whose stem is empty, `.` or `..` is looked for in another directory or under the name `model` |
| `ShardName.CutLastIsUnique` | crates/ramforge-core/src/model_set.rs:503 | there is one way to cut at the last dash, so dashes in the stem do no harm |
| `ShardName.PaddedOfNumber` | crates/ramforge-core/src/model_set.rs:516-525 | digits are the padded form of the number they spell |
| `Discovery.DiscoverFromFile` | crates/ramforge-core/src/model_set.rs:174-216 | a file opens the one model its names and counts determine, or nothing does |
| `Discovery.DiscoverFromDir` | crates/ramforge-core/src/model_set.rs:218-307 | a directory opens exactly when it holds one unsplit file or the files of one complete set |
| `Discovery.AssembleGroup` | crates/ramforge-core/src/model_set.rs:276-306 | the grouping by prefix and count ends in one group exactly when all files belong to one set |
| `Discovery.AnyShardOpensTheModel` | crates/ramforge-core/src/model_set.rs:174-216 | for a stem that is a file name of its own, whichever shard of a set is given the same model is opened, and each of them is in it |
| `Discovery.ShardsOpenAlike` | crates/ramforge-core/src/model_set.rs:174-216 | whatever the stem, two files named as shards of one set that declare its count open the same models |
| `Discovery.DirectoryAgreesWithFile` | crates/ramforge-core/src/model_set.rs:174-307 | a directory holding one split set and a file in it open the same model exactly when no shard number is written with a plus sign, for a stem that is a file name; with no files elsewhere, exactly when the stem is one as well |
| `Discovery.AnonymousOpensNothing` | crates/ramforge-core/src/model_set.rs:174-216 | with no files elsewhere a file like `-00001-of-00002.gguf` opens nothing, although its directory may |
| `Discovery.UnsignedAgrees` | crates/ramforge-core/src/model_set.rs:174-307 | with unsigned names the files read in a directory are those looked for by name, in some order |
| `Discovery.FoundIsUnsigned` | crates/ramforge-core/src/model_set.rs:174-307 | as many files as the set has, all found by name, leave no file with a signed name |
| `DataSource.ShardLayouts` | crates/ramforge-core/src/model_set.rs:82-114 | a single file is exposed whole; shards expose their data sections end to end, saturating |
| `DataSource.LayoutsFit` | crates/ramforge-core/src/model_set.rs:71-114 | layouts lie end to end from zero, map into their files and end at the virtual size |
| `DataSource.SpaceSlice` | crates/ramforge-core/src/datasource.rs:599-632 | a range inside one shard is the corresponding slice of its file |
| `DataSource.FileState.Seek` | crates/ramforge-core/src/datasource.rs:228-238 | a device that may fail at will; a failed seek leaves the cursor anywhere |
| `DataSource.FileState.ReadExact` | crates/ramforge-core/src/datasource.rs:636-642 | a device read at the cursor; a failed one may have written any part |
| `DataSource.GgufDataSource.EnsureFilePosition` | crates/ramforge-core/src/datasource.rs:215-239 | afterwards the cursor is at the offset, sought or not; a failure forgets the position |
| `DataSource.GgufDataSource.FindShard` | crates/ramforge-core/src/datasource.rs:600-616 | a shard is found exactly for positions inside the space |
| `DataSource.GgufDataSource.ReadChunk` | crates/ramforge-core/src/datasource.rs:590-653 | one turn reads at least one byte of the space, stays in one shard and keeps every known position real |
| `DataSource.GgufDataSource.ReadExactInto` | crates/ramforge-core/src/datasource.rs:584-656 | a successful read of any range, over any number of shard boundaries and empty shards, equals the slice of the concatenated data sections; with working files every in-range read succeeds |
| `DataSource.GgufDataSource.ReadRange` | crates/ramforge-core/src/datasource.rs:574-578 | the same into a fresh buffer |
| `DataSource.GgufDataSource.ValidateBounds` | crates/ramforge-core/src/datasource.rs:545-572 | accepted exactly when the range is after the data start and inside the space |
| `DataSource.GgufDataSource.ReadTensorByDescriptor` | crates/ramforge-core/src/datasource.rs:277-292 | a read tensor is its slice of the space; with working files every readable tensor is read |
| `DataSource.GgufDataSource.ReadCoalescedTensorRange` | crates/ramforge-core/src/datasource.rs:411-476 | an accepted range contains its tensors and holds the space's bytes; the recorded gap is the range less the requested bytes |
| `DataSource.CoalescedSlice` | crates/ramforge-core/src/datasource.rs:411-476 | each tensor's slice of a coalesced read is what reading it alone returns |
| `DataSource.GapIsUncovered` | crates/ramforge-core/src/datasource.rs:469-474 | the recorded gap never exceeds the bytes of no tensor, and equals them exactly when no two tensors overlap |
| `DataSource.LogicalIsCovered` | crates/ramforge-core/src/datasource.rs:411-476 | tensors ask for at least the bytes they cover, for exactly those when they are disjoint |
| `DataSource.MergedModel` | crates/ramforge-core/src/model_set.rs:121-151 | descriptors of all shards in order, moved to the virtual space |
| `DataSource.MergedAt` | crates/ramforge-core/src/model_set.rs:121-151 | where each shard's descriptor stands in the merged model |
| `DataSource.Open` | crates/ramforge-core/src/datasource.rs:97-131 | the opened source exposes exactly the given files through the computed layouts |
| `DataSource.RemappedReadable` | crates/ramforge-core/src/model_set.rs:129-147 | a merged descriptor is readable exactly when its bytes are known and it lies in the data section and file (one file) or its merged range lies in the space (several) |
| `DataSource.InDataReadable` | crates/ramforge-core/src/model_set.rs:129-147 | a tensor that starts in its shard's data section is readable exactly while its end in the virtual space fits 64 bits |
| `DataSource.MapsHomeInData` | crates/ramforge-core/src/model_set.rs:129-147 | a readable tensor of several files is looked for at its own place exactly when it starts in its shard's data section |
| `DataSource.OwnBytesInData` | crates/ramforge-core/src/model_set.rs:129-147 | and it reads as its own bytes, whatever the files hold, exactly when it starts there |
| `DataSource.MisplacedTensorReadsElsewhere` | crates/ramforge-core/src/model_set.rs:129-147 | an accepted set with a tensor before its data section, which is readable and reads as another byte |
| `DataSource.RemappedIsFileSlice` | crates/ramforge-core/src/model_set.rs:129-147 | what a merged descriptor that starts in the data section holds in the space is the shard file's own slice |
| `DataSource.ReadShardTensor` | crates/ramforge-core/src/datasource.rs:277-292 | for every assembled set and every tensor of every shard, what is read is exactly that shard file's bytes at the tensor's own offset if the tensor starts in the data section, and otherwise (several files only) comes from another place |
| `Quant.DequantizeQ4_0` | crates/ramforge-core/src/quant.rs:104-113 | every output is the weight its nibble and the block scale stand for |
| `Quant.DequantizeQ6K` | crates/ramforge-core/src/quant.rs:376-407 | every output is the weight given by its four low bits, its two high bits and its own scale |
| `Quant.WeightInQuarter` | crates/ramforge-core/src/quant.rs:376-407 | the k-th weight is the one its half, quarter and place select; `Packing.PackedQ6K` says which number that is |
| `Quant.DequantizeRow` | crates/ramforge-core/src/quant.rs:615-643 | a row decodes to its weights in order, is refused exactly when it is not whole blocks or too short, and then leaves the buffer alone; the same code serves Q6_K at lines 758-784 |
| `Quant.RowDotQ4_0` | crates/ramforge-core/src/quant.rs:875-895 | the fused dot-product, low and high nibbles in turn, equals decoding the row and then multiplying in order, for any number of blocks |
| `Quant.RowDotQ6K` | crates/ramforge-core/src/quant.rs:1195-1252 | the four-way fused dot-product equals the same reference; truncated rows are refused |
| `Quant.AddBlockQ4_0` | crates/ramforge-core/src/quant.rs:881-892 | one block adds exactly its part of the decoded dot-product |
| `Quant.AddHalfQ6K` | crates/ramforge-core/src/quant.rs:1222-1247 | one half of 128 weights adds exactly its part |
| `Quant.RowDotNext` | crates/ramforge-core/src/quant.rs:875-895 | a longer row's dot-product is the shorter one's plus the last block's |
| `Quant.DotSplit` | crates/ramforge-core/src/quant.rs:875-895 | a dot-product splits at any point |
| `Packing.PackedQ4_0` | crates/ramforge-core/src/quant.rs:90-113 | a block packed from 32 numbers of -8 to 7 and a scale decodes, number by number, to number times scale |
| `Packing.AllPackedQ4_0` | crates/ramforge-core/src/quant.rs:90-113 | every block of 18 bytes is such a packing |
| `Packing.PackedQ6K` | crates/ramforge-core/src/quant.rs:355-407 | a block packed from 256 numbers of -32 to 31, 16 signed scales and a scale of all decodes, number by number, to the product of the three |
| `Packing.AllPackedQ6K` | crates/ramforge-core/src/quant.rs:355-407 | every block of 210 bytes is such a packing |
| `Packing.PackedRow` | crates/ramforge-core/src/quant.rs:615-643 | a row of packed blocks decodes to what its blocks stand for, in order; Q6_K at lines 758-784 |
| `Matvec.MatvecRowRange` | crates/ramforge-core/src/quant.rs:913-975 | rows from row_start into a local slice: refused exactly when shapes, range, blocks or (wrapped) size disagree, and then untouched; otherwise the rows at their wrapped offsets are multiplied, with a panic exactly where one is out of bounds; when the exact size fits 64 bits the result is that range of the product; the Q6_K kernel at lines 1265-1327 differs only in its row dot |
| `Matvec.AcceptedHolds` | crates/ramforge-core/src/quant.rs:960-972 | an accepted matrix is all there exactly when the exact product of rows and row bytes fits 64 bits |
| `Matvec.FoundIsOutput` | crates/ramforge-core/src/quant.rs:969-972 | of a matrix that is all there every row is found at its own place |
| `Matvec.WrappedMatrixIsAccepted` | crates/ramforge-core/src/quant.rs:960-972 | 36 bytes accepted as a matrix of 2^63 rows, whose row 2^62 gives the product of row 0 |
| `Matvec.TiledMatvec` | crates/ramforge-core/src/quant.rs:905-975 | however the output rows are cut into consecutive ranges, the local slices join to the whole product |
| `Matvec.QuantizedMatvecReference` | crates/ramforge-core/src/compute.rs:185-229 | decoding every row and multiplying in order gives the product, with every refusal named |
| `Matvec.FusedEqualsReference` | crates/ramforge-core/src/compute.rs:185-229 | the fused kernels under any tiling and the decoding reference agree, despite the swapped shape order |
| `Matvec.MatvecF32Reference` | crates/ramforge-core/src/compute.rs:105-121 | each output is its row's dot-product, with every refusal named |
| `Matvec.MatvecF32RowRange` | crates/ramforge-core/src/compute.rs:126-180 | a row range is that range of the whole product, into a local slice |
| `Matvec.QuantizedIsPlainOfDecoded` | crates/ramforge-core/src/compute.rs:185-229 | the quantized product is the plain product of the decoded matrix |
| `Matvec.RowStartIsProduct` | crates/ramforge-core/src/quant.rs:970-972 | rows start at multiples of the row size |
| `Gguf.ParseInverts` | crates/ramforge-core/src/gguf.rs:196-328 | parsing a written header followed by any payload gives its version, entries and tensor infos, with offsets computed from the header's length |
| `Gguf.HeaderRead` | crates/ramforge-core/src/gguf.rs:202-289 | the same for the header alone, leaving exactly the payload |
| `Gguf.StringRead` | crates/ramforge-core/src/gguf.rs:121-128 | strings of at most 10 MiB of UTF-8 are read back |
| `Gguf.RefusedBeyondLimits` | crates/ramforge-core/src/gguf.rs:121-269 | strings over 10 MiB, arrays over 10 million elements, more than 8 dimensions, 100 000 entries or 10 million tensors are refused |
| `Gguf.ScalarRead` | crates/ramforge-core/src/gguf.rs:130-151 | every scalar value, signed ones in two's complement, is read back |
| `Gguf.ValueRead` | crates/ramforge-core/src/gguf.rs:247-258 | every value, arrays of scalars included, is read back with its type code |
| `Gguf.MetadataRead` | crates/ramforge-core/src/gguf.rs:244-261 | the entries become the map holding each key's last value |
| `Gguf.InsertedExactly` | crates/ramforge-core/src/gguf.rs:244-261 | with distinct keys that map holds exactly the entries |
| `Gguf.InfosRead` | crates/ramforge-core/src/gguf.rs:269-284 | tensor infos are read back in order |
| `Gguf.FromToBytes` | crates/ramforge-core/src/gguf.rs:42-88 | little-endian integers are read back |
| `Gguf.AlignmentIsLeast` | crates/ramforge-core/src/model.rs:197-207 | from every file position, under every alignment but zero, the data start is the least multiple at or after it |
| `Gguf.AlignOffsetWraps` | crates/ramforge-core/src/model.rs:197-207 | beyond every file position the bare function gives that multiple exactly when it fits 64 bits |
| `Gguf.ParsedDataSection` | crates/ramforge-core/src/gguf.rs:286-319 | in every file that parses the data section starts at the least multiple of the file's alignment after the header, at once for alignment zero, and a tensor starts in it exactly when data start plus offset does not exceed 64 bits |
| `Gguf.DescribedInData` | crates/ramforge-core/src/gguf.rs:303 | a described tensor starts in the data section exactly when that sum does not wrap |
| `Gguf.ByteLengthIsTight` | crates/ramforge-core/src/gguf.rs:289-301 | a known byte length is that of the fewest whole blocks holding the elements |
| `Gguf.ByteLengthExactly` | crates/ramforge-core/src/gguf.rs:289-301 | the length is unknown exactly for an unknown type, a count of 2^64 - 1 or a product past 64 bits, and otherwise that of the fewest whole blocks |
| `Gguf.ProductCounts` | crates/ramforge-core/src/gguf.rs:281-287 | the product of the dimensions is the number of their index vectors, listed each once |
| `Gguf.NumElementsExactly` | crates/ramforge-core/src/gguf.rs:281-287 | the element count is that product exactly when no partial product from the front exceeds 64 bits, otherwise 2^64 - 1, and 1 without dimensions |
| `Gguf.DescribeDescribes` | crates/ramforge-core/src/gguf.rs:278-319 | a descriptor carries its info, the wrapped place in the file, that element count and that length |
| `Gguf.AlignmentOfExactly` | crates/ramforge-core/src/gguf.rs:252-255 | the alignment is 32 unless the metadata give it as an integer of any width, negative ones counted from 2^64 down |
| `Gguf.ParsedDescribes` | crates/ramforge-core/src/gguf.rs:196-328 | all this holds of every descriptor of every file that parses |
| `GgufReader.Reader.ReadText` | crates/ramforge-core/src/gguf.rs:121-128 | the method agrees with what reading the bytes left means, and advances past what it read |
| `GgufReader.Reader.ReadMetadataValue` | crates/ramforge-core/src/gguf.rs:130-151 | the same for scalar values |
| `GgufReader.Reader.ReadArrayValue` | crates/ramforge-core/src/gguf.rs:153-186 | the same for arrays, nested ones refused |
| `GgufReader.Reader.ReadEntries` | crates/ramforge-core/src/gguf.rs:244-261 | the same for the metadata loop |
| `GgufReader.Reader.ReadTensorInfos` | crates/ramforge-core/src/gguf.rs:269-284 | the same for the tensor loop |
| `GgufReader.ParseGgufFile` | crates/ramforge-core/src/gguf.rs:196-328 | the whole parser, with every error of the code; what it returns describes the infos read, element counts and byte lengths included, under the file's own alignment |
| `GgufReader.ParseWritten` | crates/ramforge-core/src/gguf.rs:196-328 | parsing what was written, with distinct keys, recovers exactly the entries, and for every tensor info its descriptor with element count and byte length; the data section starts at the least aligned offset after the header |
| `EndToEnd.ReadWrittenTensor` | crates/ramforge-core/src/datasource.rs:277-292 | a tensor of a header that was written, parsed, assembled (or alone) and opened reads as its part of the payload exactly when its offset does not wrap |
| `EndToEnd.OwnBytesUnlessWrapped` | crates/ramforge-core/src/model_set.rs:129-147 | a readable tensor of several written files reads as its own bytes, whatever the payloads hold, exactly when its offset does not wrap |
| `EndToEnd.WrappedSetReadsElsewhere` | crates/ramforge-core/src/model_set.rs:129-147 | two written files with one tensor of offset 2^64 less the data start: parsed, assembled and readable, and read as a byte that is not its own |
| `EndToEnd.WrappedModel` | crates/ramforge-core/src/gguf.rs:286-319 | parsing the first of them puts that tensor at place 0 of the file |
| `EndToEnd.FileSliceIsPayload` | crates/ramforge-core/src/gguf.rs:286-319 | the own bytes of a parsed tensor are its part of the payload |
| `EndToEnd.ParsedFits` | crates/ramforge-core/src/gguf.rs:196-328 | every file that parses has 64-bit offsets, lengths and metadata numbers |
| `EndToEnd.ShardSays` | crates/ramforge-core/src/model_set.rs:476-498 | set assembly sees of a written file just what its header says: under each of its five keys nothing, something unusable, or the number or text given, and every tensor with its name, offset and wrapped place |
| `EndToEnd.PlannedRangeReads` | crates/ramforge-runtime/src/layer_read.rs:50-133 | every range of a layer's plan is accepted by the data source, and in what it reads each tensor stands at its planned offset as reading it alone would return it |
| `EndToEnd.RangeIsCoalescible` | crates/ramforge-core/src/datasource.rs:411-476 | a planned range of readable tensors meets every demand of a coalesced read |

## Left out

- DataSource.GgufDataSource.ReadCoalescedTensorRange: does not model buffer reuse and capacity counters; of the profiling counters only the ranges and the gap are kept.
- SentencePiece.EncodeSentencePiece: does not model 32-bit rounding of score sums, NaN or infinite scores; optimality is over exact sums.
- ChatTemplate.TemplateInverts: speaks of tags, not characters; finding tags in text, whitespace control and splitting statement headers are not modelled.
- ChatExpression.ParserInvertsPrinter: speaks of tokens, not characters; lexing of strings, numbers and operators is not modelled, and a number used as a member name carries its rendered text with it.
- Planner.LoadGroups: does not model the variant of grouped loading that reuses one read buffer across ranges.
- Cache.BoundedCache.InsertBudgetedWith: represents an entry's size by its buffer's length, and keeps of the statistics only hits, misses and evictions.
- Ledger.MemoryBudget.RenamePrefix: returns the new names as a set; the order in which the code lists them is not modelled.
- Assembly.AssembleShards: all rejections are one error; which message is given first does depend on the order of the candidates.
- Error messages and the names carried inside errors, throughout.
- Gguf.ByteLengthExactly: takes the block sizes of types that no decoder reads (the IQ, TQ and MXFP4 types, Q4_1, Q5_1, Q8_1, integers and F64) from the type table as they stand.
- GgufReader.ParseGgufFile: takes the file's bytes as given, so failing reads are not modelled, and several errors are one value.
- Template rendering and evaluation, JSON output of values.
- Discovery.DiscoverFromDir: takes the directory's listing and the parsed files as given; paths are sequences of components, and symbolic links or changes between two looks at a file are not modelled.
- Direct F32 reads and ranges inside a tensor, which repeat the read path.
- Building the tokenizer from metadata beyond the token and byte tables; BOS and EOS handling inside chat prompts.
- The other quantized formats (Q5_0, Q8_0, Q2_K, Q3_K, Q4_K, Q5_K, Q8_K), which repeat the same loop shapes, and any claim that Q3_K or Q5_K follow ggml.
- RMSNorm, rotary embedding, softmax, attention and SwiGLU, which have no exact statement.
- Parsing of memory sizes, which a floating-point conversion decides.
- Command line, terminal interface, supervision, reporting, native backends, prediction and simulation.
- Real locks and threads: the mutex around a file handle is the atomicity of a method call here.
