# Verified model of the news engine's core

Five parts of the engine that feed each other, modelled in Dafny and proved correct:

1. **Streaming Murmur hash** (`ModArith`, `BlockStream`, `BitMixing`, `Murmur32`, `Murmur64`,
   `MurmurVectors`). A buffered hasher object
   over wrap-around arithmetic. Cutting the input into chunks never matters, and every mixing step can be undone, so
   inputs that differ in one block cannot collide. One generic `Hasher` stands for both template specialisations: its
   `acc` is `out_` at width 4 and the pair `h1_`, `h2_` at width 16.
2. **Porter2 stemmer** (`StemmerText`, `StemmerSteps`, `Stemmer`, and the proofs in `StemmerSafety`, `StemmerTables`,
   `StemmerReference`, `StemmerEndings`, `StemmerDocumented`, `StemmerAgreement`, `StemmerWords`). `Porter2` is the
   stemmer's description, written down apart from it. `StemmerSteps` says what each step makes of a word;
   `Stemmer.Token` rewrites one word in place and is proved to do exactly that. The proofs are about whole runs: no access outside the word, what
   the regions protect, and exactly where each step, and the stem, agree with the documented "longest suffix" reading.
3. **Lock-free token map** (`TokenMap`, `TokenMapSafety`, `TokenMapProgress`, `TokenMapCalls`). A step system over any number of
   concurrent calls with pointers that are reused once nothing refers to them. Every interleaving is linearizable and
   every retry loop ends.
4. **MinHash and the duplicate index** (`MinHash`, `Jaccard`, `LshIndex`, `ArticleDedup`).
5. **Vocabulary, article parser, term-document matrix** (`SortedStems`, `Vocabulary`, `ArticleParser`, `TermDocMatrix`,
   `Driver`), and whole runs of merges and readings (`VocabularyRuns`, `Pipeline`,
   `PipelineExamples`).

`Options`, `Sets` and `Integers` hold what several parts share. All files verify together: `dafny verify dfyconfig.toml`.

## Where the code and its documentation disagree

The model follows the code. For each difference a lemma gives the exact condition, and another an input on which it shows.
Only which words with double `y` keep the described stem all the same has no condition here.

- Marking judges a `y` by the five plain vowels before it, where the documented rule counts `y` as a vowel too. The two
  agree if and only if no `y` directly follows a `y` (`MarkedAsDocumented`). Step 1c likewise counts a `y` before the
  final `y` as a non-vowel (`Step1CAsDocumented`). On `byy` both differ, and so does the stem (`DoubleYHappens`).
- Step 2, when R1 begins exactly at the `ation` of `ization`, falls through to the shorter suffix (`Step2AsDocumented`).
  `bization` is such a word (`FallThroughHappens`). The later steps always make up for it: no stem is affected
  (`LateStepsAsDocumented`).
- `cosmos`, and of the listed invariants it alone, is excluded by the length guard in front of the list
  (`OnlyCosmosMissed`), and is shortened (`CosmosShortened`).
- Step 5 reads before the start of an empty word; the stems of `''s` and `''s'` do so and no others
  (`StemFaultsExactly`).
- For every word the stem is the described one with the five plain vowels for the vowels before `y`, if and only if the
  word, cut to size, is not `cosmos` and is not one of those two (`StemIsDescribedPlainly`). For a word without double
  `y` the same holds of the description as it stands: the stem is the described one if and only if the word, cut to size, is not
  `cosmos` and is not one of those two (`StemIsDescribed`).
- A stem's counter is not always the number of articles read that use the stem, for two reasons. A merge of new stems
  moves stems to higher ids and leaves counters and token sets where they are; they stay with their stems if and only if
  no counted stem is above a new one (`MergeKeepsBelongings`). And an article that uses a stem before it is merged, as one
  that has the word only in capitals does, is not counted for it. Over a run the counters are right at every moment if and
  only if no merge passes a counted stem and none brings a stem that an earlier article uses (`CountsRightExactly`). The
  two-phase driver is such a run (`TwoPhasesCountRight`); the pipeline, which merges and reads article by article, need
  not be (`CountersGoWrong`, `LateStemsGoUncounted`).
- The counter of frequent stems counts increments past the third, not stems. As long as the counters are right, it is the
  number of the vocabulary's stems in more than three articles if and only if none of them is in more than four
  (`FrequentCounterExactly`). Both runs above make it wrong, in either direction.
- Signature entries can be negative, because the remainder keeps the sign of the hash: exactly when some element's
  remainder is (`NegativeEntries`, `NegativeEntryHappens`).
- The loop that selects matrix rows runs one id too far; that id is never selected (`BuildTermDocMatrix`).

## Assumptions

- Token map: the plain read of a slot (line 28 of its header) is one atomic step, as the exchange is. A call's own
  reference to the set it read keeps that address from being reused.
- The host is little-endian: the block loads of the hash reinterpret its memory.
- Each call is its own process in the step system; a thread making calls in sequence is a special case.
- Document counters start at zero, and there are fewer than 152588 stems.
- `MurmurHash3_x86_32`, `boost::hash_combine`, the shingle hash, lower-casing and the stemming of tokens inside the
  parser are parameters: the proofs hold for every choice of them.
- `tolower` is that of the C locale.

## Model

| member | source | states |
|---|---|---|
| BlockStream.FeedSplit | engine/extern/stemmer_bkp/util/hash.h:135-167 | from any state, feeding a and then b leaves the same accumulator, live buffer prefix and length counter as feeding a + b |
| BlockStream.ChunkIndependence | engine/extern/stemmer_bkp/util/hash.h:241-274 | for any list of chunks and either width, only their concatenation decides the state |
| BlockStream.FeedKeepsWellFormed | engine/extern/stemmer_bkp/util/hash.h:138-166 | the buffer stays shorter than a block and congruent to the length counter, wrap-around of the counter included |
| BlockStream.OneBlockSurvives | engine/extern/stemmer_bkp/util/hash.h:116-125 | if a step loses nothing, a difference inside one block reaches the end in the accumulator or in the tail, never in both |
| BlockStream.Hasher.Update | engine/extern/stemmer_bkp/util/hash.h:135-167 | the buffered loop (top up, flush, whole blocks, stash) has the effect of absorbing pending + data block by block and keeping the remainder |
| BlockStream.Hasher.UpdateAll | engine/extern/stemmer_bkp/util/hash.h:241-274 | any sequence of calls on the object leaves the state of a single call on the concatenation |
| BitMixing.FinalMix32 | engine/extern/stemmer_bkp/util/hash.h:76-85 | the step-by-step finalizer is the mix the collision results use, and its argument can be recovered |
| BitMixing.FinalMix64 | engine/extern/stemmer_bkp/util/hash.h:87-96 | the same at 64 bits |
| BitMixing.Fmix32Undone | engine/extern/stemmer_bkp/util/hash.h:76-85 | the 32-bit finalizer has an explicit inverse |
| BitMixing.Fmix64Undone | engine/extern/stemmer_bkp/util/hash.h:87-96 | the 64-bit finalizer has an explicit inverse |
| Murmur32.StepLossless | engine/extern/stemmer_bkp/util/hash.h:116-125 | a 4-byte step is injective in the accumulator and injective in the block |
| Murmur32.StepBijective | engine/extern/stemmer_bkp/util/hash.h:116-125 | for a fixed block it has a two-sided inverse on the accumulator |
| Murmur32.SealKeepsApart | engine/extern/stemmer_bkp/util/hash.h:169-189 | tail mix and finalizer separate states that differ in the accumulator or in the tail |
| Murmur32.OneBlockNoCollision | engine/extern/stemmer_bkp/util/hash.h:116-189 | equal-length inputs that differ in one aligned block, or only in the tail, get different hashes under every seed |
| Murmur32.LengthsSeparate | engine/extern/stemmer_bkp/util/hash.h:138-188 | the same state and tail under lengths that differ modulo 2^32 are sealed differently |
| Murmur32.SeedsSeparate | engine/extern/stemmer_bkp/util/hash.h:130-133 | seeds that differ in their low 32 bits give every input different hashes |
| MurmurVectors.Vectors32 | engine/extern/stemmer_bkp/util/hash.h:76-189 | the hashes of nothing, of a byte, of a block, and of two blocks and a tail |
| Murmur32.HandleBlock | engine/extern/stemmer_bkp/util/hash.h:116-125 | the statements of handle_block_4 make the step the injectivity results are about |
| Murmur32.Finalize | engine/extern/stemmer_bkp/util/hash.h:169-189 | the finalizer's fall-through switch mixes the tail as one little-endian word and returns the sealed hash |
| Murmur32.Hash | engine/extern/stemmer_bkp/util/hash.h:130-189 | constructing, feeding chunks and finalizing returns the digest of the concatenation |
| Murmur64.StepLossless | engine/extern/stemmer_bkp/util/hash.h:208-231 | a 16-byte step is injective in the pair of words and injective in the block |
| Murmur64.StepBijective | engine/extern/stemmer_bkp/util/hash.h:208-231 | for a fixed block it has a two-sided inverse on the pair |
| Murmur64.SealKeepsApart | engine/extern/stemmer_bkp/util/hash.h:276-337 | tail mix and finalization keep apart pairs that differ, or tails that differ |
| Murmur64.OneBlockSeparatesWords | engine/extern/stemmer_bkp/util/hash.h:208-337 | equal-length inputs that differ in one 16-byte block, or only in the tail, end with different pairs of words |
| Murmur64.LengthsSeparate | engine/extern/stemmer_bkp/util/hash.h:244-334 | the same words and tail under lengths that differ modulo 2^64 are sealed differently |
| Murmur64.SeedsSeparate | engine/extern/stemmer_bkp/util/hash.h:236-239 | different seeds end every input in different words |
| MurmurVectors.Vectors64 | engine/extern/stemmer_bkp/util/hash.h:87-337 | the words, and the hash, of nothing and of a byte, and the words of two blocks and a tail of eleven bytes |
| Murmur64.HandleBlock | engine/extern/stemmer_bkp/util/hash.h:208-231 | the statements of handle_block_16 make the step the injectivity results are about |
| Murmur64.Finalize | engine/extern/stemmer_bkp/util/hash.h:276-337 | the two fall-through halves load the tail little-endian, and the result is the first word of the sealed pair |
| Murmur64.Hash | engine/extern/stemmer_bkp/util/hash.h:236-337 | constructing, feeding chunks and finalizing returns the first word of the digest of the concatenation |
| StemmerText.RegionIsFirst | engine/extern/stemmer_bkp/porter2_stemmer.cpp:117-128 | the search returns just past the first vowel/non-vowel pair, or the length when there is none |
| StemmerText.RegionsNest | engine/extern/stemmer_bkp/porter2_stemmer.cpp:91-115 | R2 is to R1 what R1 is to the word, and startR1 <= startR2 <= length |
| StemmerText.RegionBoundaries | engine/extern/stemmer_bkp/porter2_stemmer.cpp:91-128 | the character just before a non-empty region is never a vowel, special prefixes included |
| StemmerSafety.RunBoundaries | engine/extern/stemmer_bkp/porter2_stemmer.cpp:145-400 | through steps 0 to 4, whenever the word reaches past a region start the character before it is still a non-vowel |
| StemmerSafety.LateStepsKeepR1 | engine/extern/stemmer_bkp/porter2_stemmer.cpp:278-424 | steps 2 to 5 leave the first min(length, startR1) characters alone and never cut into them |
| StemmerSafety.StemFaultsExactly | engine/extern/stemmer_bkp/porter2_stemmer.cpp:37-74 | stemming reads outside the word for two inputs and for no others |
| StemmerSafety.StemLength | engine/extern/stemmer_bkp/porter2_stemmer.cpp:37-74 | a stem is no longer than its word, at most 35 characters, and empty only for the empty word |
| StemmerSafety.StemLetters | engine/extern/stemmer_bkp/porter2_stemmer.cpp:37-89 | a word of lower-case letters and apostrophes has such a stem, with no consonant mark left |
| StemmerReference.LongestIsLongest | engine/extern/stemmer_bkp/porter2_stemmer.cpp:256-277 | the reference rule picks a listed suffix of the word that no other listed suffix of the word exceeds |
| StemmerReference.OrderedIsLongest | engine/extern/stemmer_bkp/porter2_stemmer.cpp:304-306 | for a table whose suffixes nest properly, trying rows in order under the region test equals taking the longest suffix and then testing the region |
| StemmerReference.Step1BAsDocumented | engine/extern/stemmer_bkp/porter2_stemmer.cpp:200-240 | the chain of guarded deletions with wrapping sizes, and the equality test on R1, do what the comment describes |
| StemmerReference.Step2AsDocumented | engine/extern/stemmer_bkp/porter2_stemmer.cpp:256-323 | step 2 is its documented reading if and only if ization does not fall through |
| StemmerReference.Step3AsDocumented | engine/extern/stemmer_bkp/porter2_stemmer.cpp:325-355 | step 3 picks what "longest suffix, then region" picks, ational/tional included |
| StemmerReference.Step4AsDocumented | engine/extern/stemmer_bkp/porter2_stemmer.cpp:357-400 | step 4 picks what "longest suffix, then region" picks, ement/ment/ent and ion after s or t included |
| StemmerEndings.MarkedAsDocumented | engine/extern/stemmer_bkp/porter2_stemmer.cpp:130-140 | marking agrees with the documented rule, in which y is a vowel, if and only if no y directly follows a y |
| StemmerEndings.Step0AsDocumented | engine/extern/stemmer_bkp/porter2_stemmer.cpp:142-150 | the fixed order of attempts deletes the longest possessive ending, and nothing else |
| StemmerEndings.Step1AAsDocumented | engine/extern/stemmer_bkp/porter2_stemmer.cpp:152-191 | for every word the guarded chain does what the longest of the six endings calls for |
| StemmerEndings.Step1CAsDocumented | engine/extern/stemmer_bkp/porter2_stemmer.cpp:242-254 | step 1c is its documented reading if and only if the final y does not follow a y |
| StemmerEndings.Step5AsDocumented | engine/extern/stemmer_bkp/porter2_stemmer.cpp:402-424 | for every word and regions step 5 is its documented reading, and it is undefined for exactly the empty word and l alone in R2 |
| StemmerAgreement.LettersAgree | engine/extern/stemmer_bkp/porter2_stemmer.cpp:479-538 | the vowels, with and without y, and the letters that allow li are the described ones |
| StemmerAgreement.RegionsAgree | engine/extern/stemmer_bkp/porter2_stemmer.cpp:91-128 | R1 and R2 are the described regions, the three special beginnings included |
| StemmerAgreement.RunIsDescribed | engine/extern/stemmer_bkp/porter2_stemmer.cpp:51-70 | in every run the regions and each of the steps 0 to 5 are those of the separately written description, with the exact condition for steps 1c, 2 and 5 |
| StemmerDocumented.LateStepsAsDocumented | engine/extern/stemmer_bkp/porter2_stemmer.cpp:278-424 | from step 2 on every run ends as documented: what the ization fall-through changes never reaches the stem |
| StemmerAgreement.StemIsDescribedPlainly | engine/extern/stemmer_bkp/porter2_stemmer.cpp:37-74 | for every word the stem is that of the separately written description, with the five plain vowels for the vowels before y, if and only if the word is neither cosmos nor one of the two faulting words |
| StemmerAgreement.StemIsDescribed | engine/extern/stemmer_bkp/porter2_stemmer.cpp:37-74 | for a word without double y the stem is that of the separately written description if and only if the word is neither cosmos nor one of the two faulting words |
| StemmerWords.QuotedStemmed | engine/extern/stemmer_bkp/porter2_stemmer.cpp:152-246 | gaps, kiwis, gas, this, ties, cries, cry, by and say have the stems the comments give them |
| StemmerWords.PluralsStemmed | engine/extern/stemmer_bkp/porter2_stemmer.cpp:479-488 | a plural for each of the six vowels loses its s |
| StemmerDocumented.FallThroughHappens | engine/extern/stemmer_bkp/porter2_stemmer.cpp:288-289 | the run on bization hands step 2 that word, its result differs from the documented one, and the stem is bizat all the same |
| StemmerDocumented.DoubleYHappens | engine/extern/stemmer_bkp/porter2_stemmer.cpp:130-140 | the stem of byy is byi where the documented one is byy |
| StemmerDocumented.CosmosShortened | engine/extern/stemmer_bkp/porter2_stemmer.cpp:472-476 | the stem of cosmos, though listed as invariant, is cosmo |
| StemmerSafety.OnlyCosmosMissed | engine/extern/stemmer_bkp/porter2_stemmer.cpp:472-476 | of the listed invariants the length guard excludes cosmos and no other |
| Stemmer.KeptOfConcat | engine/extern/stemmer_bkp/porter2_stemmer.cpp:81-88 | trimming works character by character: the trim of a concatenation is the concatenation of the trims |
| Stemmer.KeptOfOne | engine/extern/stemmer_bkp/porter2_stemmer.cpp:81-88 | of single characters, capitals become the letter 32 further on, small letters and apostrophes stay, and nothing else does |
| Stemmer.FirstNonVowelAfterVowel | engine/extern/stemmer_bkp/porter2_stemmer.cpp:117-128 | the loop finds the region start that RegionIsFirst characterises |
| Stemmer.VowelWithin | engine/extern/stemmer_bkp/porter2_stemmer.cpp:540-550 | true exactly when the end is inside the word and a vowel lies in the range |
| Stemmer.Token.Trim | engine/extern/stemmer_bkp/porter2_stemmer.cpp:76-89 | keeps the lowered letters and apostrophes in order, sentence tags untouched |
| Stemmer.Token.ChangeY | engine/extern/stemmer_bkp/porter2_stemmer.cpp:130-140 | marking in place with the skip equals marking every y at once by the original word |
| Stemmer.Token.ReplaceFirst | engine/extern/stemmer_bkp/porter2_stemmer.cpp:304-306 | the table loop stops at the first row whose suffix is there and in the region |
| Stemmer.Token.Step1B | engine/extern/stemmer_bkp/porter2_stemmer.cpp:213-240 | the in-place step is the function that Step1BAsDocumented is about, wrapping sizes included |
| Stemmer.Token.Step2 | engine/extern/stemmer_bkp/porter2_stemmer.cpp:278-323 | the in-place step is the function that Step2AsDocumented is about |
| Stemmer.Token.Step4 | engine/extern/stemmer_bkp/porter2_stemmer.cpp:368-400 | the in-place step is the function that Step4AsDocumented is about |
| Stemmer.Token.Stem | engine/extern/stemmer_bkp/porter2_stemmer.cpp:37-74 | for all words but the two, the in-place run makes only valid accesses and leaves the stem the lemmas are about |
| TokenMapSafety.StepKeeps | engine/include/common/stemid_tokens_rcumap.h:22-50 | every step of every call keeps the invariant on slots, private copies, held references and the log |
| TokenMapSafety.StepIsAtomic | engine/include/common/stemid_tokens_rcumap.h:25-44 | each step is invisible to readers or is one whole insert or read, answered from the slot's current set |
| TokenMapSafety.RunKeeps | engine/include/common/stemid_tokens_rcumap.h:22-50 | over any run published sets only grow and nothing is lost |
| TokenMapSafety.RunsAreLinearizable | engine/include/common/stemid_tokens_rcumap.h:21-50 | in every interleaving the finished calls answered as if run one after another, each slot holds exactly what they inserted, and no published set is empty |
| TokenMapSafety.TakesEffectOnce | engine/include/common/stemid_tokens_rcumap.h:22-50 | each finished call is in the log exactly once and an unfinished one is not in it |
| TokenMapSafety.LogRespectsTime | engine/include/common/stemid_tokens_rcumap.h:22-50 | a call that finished before another was made precedes it in the log |
| TokenMapSafety.SnapshotsStay | engine/include/common/stemid_tokens_rcumap.h:47-50 | the set a reader holds stays what it was at its read, and it is null exactly when that set was empty |
| TokenMapCalls.CallsAreInvoked | engine/include/common/stemid_tokens_rcumap.h:22-50 | the calls of a run are those its invocations made, in order and with their operations |
| TokenMapCalls.OnlyInvokedTokens | engine/include/common/stemid_tokens_rcumap.h:22-45 | a slot only ever holds tokens some invocation was to add to it |
| TokenMapCalls.FinishedTokens | engine/include/common/stemid_tokens_rcumap.h:22-45 | a slot holds the token of every finished invocation on it |
| TokenMapCalls.DoneTokensAreInvoked | engine/include/common/stemid_tokens_rcumap.h:22-45 | when all calls are done a slot holds exactly the tokens invoked for it |
| TokenMapCalls.ReadersSeeFinished | engine/include/common/stemid_tokens_rcumap.h:47-50 | a reader made after an insertion finished is given that token |
| TokenMapCalls.AnyCallsComplete | engine/include/common/stemid_tokens_rcumap.h:11-50 | any calls whatever on the 152588 slots can be made together and run to their ends, with exactly their tokens in the slots |
| TokenMapProgress.FailureMeansGrowth | engine/include/common/stemid_tokens_rcumap.h:42-43 | a failed exchange means that, at or after this call's last read, another call newly added a token that the read did not find |
| TokenMapProgress.RetriesBounded | engine/include/common/stemid_tokens_rcumap.h:25-44 | a call retries at most as often as other calls added new tokens to its slot since it began |
| TokenMapProgress.ExchangesAreTokens | engine/include/common/stemid_tokens_rcumap.h:43 | successful exchanges on a slot number the tokens in its set |
| TokenMapProgress.StepLowersMeasure | engine/include/common/stemid_tokens_rcumap.h:26-44 | every step other than a new call lowers a natural number |
| TokenMapProgress.CallsEnd | engine/include/common/stemid_tokens_rcumap.h:26-44 | n pending calls take at most 3n(n+1)/2 steps in any interleaving |
| TokenMapProgress.NeverStuck | engine/include/common/stemid_tokens_rcumap.h:22-50 | a call that is not done can always take a step |
| MinHash.MinimumOfUnion | engine/include/clustering/minhash.h:33-43 | the minimum over a union is the smaller minimum |
| Integers.TruncModIs | engine/include/clustering/minhash.h:39 | the remainder differs from the dividend by a multiple of the divisor, with the dividend's sign |
| Integers.SameInt32 | engine/include/dedup/lsh_deduplication.h:78 | narrowing to 32 bits forgets exactly the high bits |
| MinHash.EntriesInRange | engine/include/clustering/minhash.h:31-41 | entries of a non-empty set are attained and lie strictly within plus or minus the range; the empty set gives range + 1 |
| MinHash.NegativeEntries | engine/include/clustering/minhash.h:37-41 | an entry is negative if and only if some element's truncated remainder is |
| MinHash.NegativeEntryHappens | engine/include/clustering/minhash.h:37-41 | every negative value within the range is some signature's entry |
| MinHash.SignatureOfUnion | engine/include/clustering/minhash.h:28-45 | the signature of a union is the pointwise minimum of the signatures |
| MinHash.MinHasher.ComputeSignature | engine/include/clustering/minhash.h:28-45 | in whatever order the set is visited, the result is the pointwise minimum |
| Jaccard.OrdersEnumerate | engine/include/clustering/minhash.h:26-27 | the orders counted are exactly the rows holding each element once |
| Jaccard.SameMinimumIsSharedFirst | engine/include/clustering/minhash.h:26-27 | an order gives two sets the same minimum exactly when its first element is in both |
| Jaccard.SameMinimumCount | engine/include/clustering/minhash.h:26-27 | of the n! orders of A + B, exactly (size of A * B) times (n - 1)! give A and B the same minimum |
| LshIndex.SameDocsSameTables | engine/include/dedup/lsh_deduplication.h:55-72 | the same documents in any order, however often, fill identical tables |
| LshIndex.BandsNeedRows | engine/include/dedup/lsh_deduplication.h:32-46 | bands with different keys need at least one differing row each |
| LshIndex.SharedBandsBound | engine/include/dedup/lsh_deduplication.h:12-52 | signatures differing in d rows share at least 20 - d band keys, so with d < 20 one is shared, whatever the combine hash does |
| LshIndex.ScanAll | engine/include/dedup/lsh_deduplication.h:34-46 | looking band by band finds what comparing with every document finds |
| LshIndex.SameKeyExactly | engine/include/dedup/lsh_deduplication.h:34-46 | two keys of a band are equal if and only if the rows of the band, folded in order from 17, agree in their low 32 bits |
| LshIndex.LshDeduplication.constructor | engine/include/dedup/lsh_deduplication.h:18-26 | building from a list indexes exactly that list |
| LshIndex.LshDeduplication.ComputeGroups | engine/include/dedup/lsh_deduplication.h:58-71 | filing one document leaves tables that are those of one more document |
| LshIndex.LshDeduplication.ProcessSignature | engine/include/dedup/lsh_deduplication.h:28-52 | returns the own id and exactly the indexed ids sharing a band key, 32-bit truncation included, then indexes the document |
| ArticleDedup.ArticleDedup.IsDuplicate | engine/include/dedup/article_dedup.h:20-31 | true if and only if an indexed document with a different id shares a band |
| ArticleDedup.Serve | engine/src/dedup/article_dedup.cpp:19-34 | over any sequence of requests each answer says whether an article indexed or requested before it qualifies |
| ArticleDedup.LaterCopiesAreFlagged | engine/src/dedup/article_dedup.cpp:19-34 | in any such history a request close to an earlier one under another id is answered yes |
| ArticleDedup.NearCopiesAreFlagged | engine/include/dedup/lsh_deduplication.h:28-52 | a document within 19 of 100 rows of an indexed one with another id is flagged |
| ArticleDedup.FlaggedByFolds | engine/include/dedup/article_dedup.h:20-31 | flagged if and only if in one of twenty bands the five rows, and those of an article with another id, fold to the same low 32 bits |
| ArticleDedup.FlaggedExactly | engine/include/dedup/article_dedup.h:20-31 | unless the hash confuses rows that occur, flagged if and only if an article with another id has the same five rows in some band |
| ArticleDedup.SignatureOfArticle | engine/include/clustering/minhash.h:28-45 | a hundred entries, each the least remainder modulo 100000000 of its own hash function on the shingles, or 100000001 |
| ArticleDedup.CopiesAreFlagged | engine/include/dedup/article_dedup.h:20-31 | identical shingle sets under different ids are flagged |
| ArticleDedup.UndercutRows | engine/include/clustering/minhash.h:33-43 | adding shingles changes exactly the rows of the hash functions they undercut |
| ArticleDedup.ExtensionsAreFlagged | engine/include/dedup/article_dedup.h:20-31 | an article that adds shingles undercutting fewer than 20 hash functions is flagged against the original |
| SortedStems.LessExactly | engine/include/common/vocabulary.h:126 | the order of stems: past a common beginning the one that ends, or has the smaller character, comes first |
| SortedStems.IdIsRank | engine/include/common/vocabulary.h:60-67 | a stem's id is the number of stems below it |
| SortedStems.IdOfStem | engine/include/common/vocabulary.h:50-67 | id to stem and back is the identity |
| SortedStems.OneOrder | engine/include/common/vocabulary.h:99-102 | ids depend on the set of stems and not on how it was merged |
| SortedStems.IdStability | engine/include/common/vocabulary.h:99-102 | merging keeps an id if and only if no new stem is smaller; otherwise the id goes up |
| Vocabulary.MergeKeepsBelongings | engine/include/common/vocabulary.h:99-102 | after a merge every old stem still has its counter, and its tokens, at its new id if and only if no counted stem is above a new one |
| Vocabulary.CountedWithToken | engine/include/common/vocabulary.h:23-29 | counting a stem together with filing a token keeps "counted exactly when it has tokens, and only below the number of stems" |
| Vocabulary.Vocabulary.IncreaseStemFreq | engine/include/common/vocabulary.h:23-29 | one counter goes up by one and the frequent-stems counter stays the total excess over three |
| Vocabulary.Vocabulary.GetStem | engine/include/common/vocabulary.h:50-58 | finds exactly the ids in range, negative ones excluded, and the stem found has that id |
| Vocabulary.Vocabulary.GetStemId | engine/include/common/vocabulary.h:60-67 | finds exactly the stems present and returns their rank |
| Vocabulary.Vocabulary.AddStems | engine/include/common/vocabulary.h:99-102 | the stems become the union, in order, the counters stay consistent, and counters and tokens follow their stems exactly when no counted stem is above a new one |
| VocabularyRuns.MergeKeepsRight | engine/include/common/vocabulary.h:31-36 | in any run with right counters so far, a merge keeps every counter equal to the number of articles read that use its stem if and only if it passes no counted stem and no earlier article uses one of its new stems |
| VocabularyRuns.CountsRightExactly | engine/include/common/vocabulary.h:31-36 | over a whole run the counters are right at every moment if and only if no merge passes a counted stem and none brings a stem that an earlier article uses |
| VocabularyRuns.TwoPhasesCountRight | engine/pybind/term_doc_mat_bind.cpp:25-47 | when all merges precede all readings the counters are always right |
| VocabularyRuns.FrequentCounterExactly | engine/include/common/vocabulary.h:23-48 | with right counters, the frequent-stems counter is the number of the vocabulary's stems in more than three of the articles read if and only if none of them is in more than four |
| Pipeline.Ingest | engine/src/clustering/pipeline.cpp:54-67 | what the pipeline does to a fresh vocabulary, article by article, is a run of merges and readings |
| PipelineExamples.CountersGoWrong | engine/src/clustering/pipeline.cpp:54-67 | four articles after which, in every history of the pipeline, the counter of one stem is four though one article uses it, and the frequent-stems counter is one though no stem is in more than three |
| PipelineExamples.LateMergesPassNone | engine/src/clustering/article_parser.cpp:45-52 | no merge of a second run, in which a word first comes in capitals and so is not merged, passes a counted stem |
| PipelineExamples.LateStemsGoUncounted | engine/include/clustering/article_parser.h:36-46 | in every history of that run the counter of the stem is three though four articles use it, and the frequent-stems counter is zero though one stem is in more than three and none in more than four |
| ArticleParser.IdsAre | engine/include/clustering/article_parser.h:34-57 | the ids recorded are those some accepted token stands for, all below the number of stems |
| ArticleParser.IdsOfText | engine/include/clustering/article_parser.h:34-57 | the ids of a text are those of its parts, in order |
| ArticleParser.IdsOfToken | engine/include/clustering/article_parser.h:36-42 | a token gives the id of its stem if and only if its lower-case form is no stop word, has two characters and stems to a stem there is |
| ArticleParser.LastUseIs | engine/include/clustering/article_parser.h:53 | an id maps to the last token that stands for it |
| ArticleParser.FormsAre | engine/include/clustering/article_parser.h:50 | a stem gains tokens exactly when the article uses it |
| ArticleParser.FormsExactly | engine/include/clustering/article_parser.h:50 | the tokens filed under an id are the lower-case forms of the tokens that stand for it |
| ArticleParser.ShinglesExactly | engine/include/clustering/article_parser.h:58-70 | the shingles are those of three words in a row, in order, the first a stop word or a single character |
| ArticleParser.AcceptableExactly | engine/src/clustering/article_parser.cpp:38-60 | a hundred tokens at least, and the unknown ones, and one more, at most three tenths |
| ArticleParser.ArticleParser.TokenizeValidate | engine/src/clustering/article_parser.cpp:38-60 | accepts exactly the long enough articles whose unknown share, plus one, is at most three tenths, and collects the stems of the known words |
| ArticleParser.ArticleParser.ProcessTokens | engine/include/clustering/article_parser.h:24-72 | each stem is counted once per article, tokens are filed under their stems, last uses and shingles of passed-over tokens are as specified, and counted stems keep having tokens |
| TermDocMatrix.SelectedAre | engine/src/clustering/lsa.cpp:15-21 | a row for each id with more than the threshold and fewer than fifty articles, once each, in order |
| TermDocMatrix.ColumnSumBounded | engine/src/clustering/lsa.cpp:26-45 | distinct rows of a column add up to at most one |
| TermDocMatrix.Lsa.BuildTermDocMatrix | engine/src/clustering/lsa.cpp:10-46 | on a first or a repeated build, every id selected is in range despite the extra iteration and has tokens, rows already there stay, and every entry is the id's share of the article's tokens |
| TermDocMatrix.Lsa.RowTerm | engine/src/clustering/lsa.cpp:168-174 | the assertion on a row's tokens holds, and the term shown is the least of them |
| Driver.DocCountIs | engine/include/clustering/article_parser.h:43-49 | the counters' recurrence counts the articles with an accepted token stemming to the id's stem |
| Driver.KeptExactly | engine/pybind/term_doc_mat_bind.cpp:25-40 | kept are the tokens of just the acceptable articles that are first with their title, in order |
| Driver.KeptAtMostTitles | engine/pybind/term_doc_mat_bind.cpp:29-31 | at most one article is kept for each title |
| Driver.StemsExactly | engine/pybind/term_doc_mat_bind.cpp:32-36 | the stems collected are those of the known words of the kept articles |
| Driver.RowsExactly | engine/src/clustering/lsa.cpp:16-21 | a stem has a row, and one row, if and only if 4 to 49 articles have a token that stands for it |
| Driver.EntriesExactly | engine/src/clustering/lsa.cpp:26-41 | each entry is the number of the article's tokens that stand for the row's stem over the number of all its tokens |
| Driver.RowsOfMatrix | engine/pybind/term_doc_mat_bind.cpp:25-51 | each row is non-zero exactly at the articles using its stem, 4 to 49 of them |
| Driver.ColumnsOfMatrix | engine/pybind/term_doc_mat_bind.cpp:25-51 | each column of the returned matrix adds up to at most one |
| Driver.Collect | engine/pybind/term_doc_mat_bind.cpp:23-40 | keeps the acceptable first articles of each title and gathers exactly their stems |
| Driver.ReadAll | engine/pybind/term_doc_mat_bind.cpp:41-47 | after reading, every counter is the number of kept articles that use its stem |
| Driver.ComputeTermDocMat | engine/pybind/term_doc_mat_bind.cpp:25-51 | the two-phase driver returns the matrix that the row and column lemmas are about |

## Left out

- Murmur64.Hash: the 64-bit hash keeps only one of the two final words, so the no-collision result at that width is about the pair; the `int` block index of the 64-bit loop and the widening of results to the machine word are not modelled.
- Trim: bytes outside ASCII, for which `tolower` on a plain `char` is undefined, are treated as other characters.
- TokenizeValidate: compares exact fractions where the source compares single-precision floats.
- BuildTermDocMatrix: entries are exact real quotients rather than doubles.
- IncreaseStemFreq: counters are unbounded where the source has 32-bit ones, and updates are sequential.
- AddToken: one call at a time, as the token map's linearizability allows.
- ProcessTokens: article length and metadata, which are only copied, and log messages.
- ProcessSignature: concurrent calls, since buckets are read outside the lock and the server handles one request at a time.
- Loading of articles and word lists, XML parsing and word segmentation: the driver takes titles and tokens.
- `find_source`, whose only call is commented out and which compares dates as floats.
- SVD, concept extraction beyond the token lookup, clustering and thresholds: linear algebra on doubles.
- `get_docs_keywords` with `get_word`: row numbers are passed where stem ids are expected.
- `hash_append` overloads and `string_view` searches: easy, and the core does not use them.
- StemIsDescribed: no exact condition for which words with double y keep the described stem all the same, which depends on whether the two markings happen to move a region; StemIsDescribedPlainly says what their stem is.
- Idempotence of stemming: not true of this code.
- Network, database, configuration and serialization code.
