# hoshidicts, modelled

A Dafny model of the parts of hoshidicts, a dictionary importer and lookup engine, whose behaviour is hardest to see
from any one function, with proofs of what they promise together.

- **Skipping JSON containers.** 64 characters at a time by bit masks, then one at a time. `Word64` has the masks as 64
  bits with the machine's addition as a ripple carry, `JsonSkip` the skipper.
- **The LZO1X codec.** `LzoFormat`, `LzoDecoder` and `LzoEncoder` are the two programs over buffers, `LzoRoundTrip` and
  `LzoExact` the proof of exactly when they undo each other, for every match finder that reports true matches, and that
  the output is bounded.
- **Deinflection.** `Deinflect` is the search as a recursion, `DeinflectSearch` the explicit-stack program proved equal
  to it, `Budget` the shared work budget, `DeinflectLaws` what whole runs keep. `TrieBuilding`, `Trie`, `TrieWalk`
  and `Affixes` are the tries by which the search finds the rules to try on a text.
- **Import and index.** `Pipeline` is the protocol between workers and writer, `BankWriting` their work along its runs;
  `TermBank`, `TermWriter` and `TermStore` the records and the deduplicated glossaries; `Radix`, `OffsetIndex`,
  `HashTable`, `Bloom` and `DictionaryIndex` the index; `Records`, `Query` and `GlossaryChains` the way back from a key
  to its terms; `ImportAndQuery` all of it as one program. `PagedFile` and `BlobCursor` read files by pages, `ScanIndex`
  and `LongKeys` find the keys longer than a scan.
- **Lookup.** `Candidates` and `Ranking` merge and order the terms found; `Variants` and `VariantSearch` are the text
  processors.
- `Options`, `Bytes`, `Entries`, `Arithmetic` and `Sequences` hold what several of these share.

Programs that update state in the original are methods over arrays or objects here, each proved against a function or
a predicate; what the original promises is then proved of that. Hashing, compression and the classification of a
glossary's form-of references are arbitrary functions. The assumptions on them, where a proof needs one, are: no key
hashes to 0, since 0 marks an empty slot; hashes are below 2^64; glossary hashes identify glossaries; there are few
enough entries for a 32-bit capacity and offsets stay below 2^64.

Some promises do not hold of the code on every input. The model keeps the code as it is and says exactly when they do:

- The block loop of the JSON skipper tracks escapes everywhere, the scalar tail only inside strings, so a backslash
  outside a string can make it misread a quote (`AgreesExactly`; `BareBackslashMisleads` is a document it reads wrongly).
- The empty source does not survive the codec, nor does one with a run of 2^32 literals (`LzoExact.RoundTrip`).
- A text that ends in more than 64 affixes of one trie loses the rules of the longest (`ListedExactly`, `TriedExactly`).
- A field too wide for its slot in a record is not read back (`RecordReadsBack`, `RightExactly`).
- A term whose expression and reading are different texts with one hash is found twice (`IndexIsExact`).
- A scan shorter than 16 code points can miss a key just longer than itself (`CompleteExactly`).
- Past 4096 variants of a text some are not kept (`RunProcessors` says when the flag for this goes up).

`dafny verify dfyconfig.toml` checks the whole project.

## Model

| member | source | states |
|---|---|---|
| Word64.AddIsAddition | src/json/json_skip.cpp:88 | The ripple carry the masks are reasoned about with is 64-bit machine addition: the sum modulo 2^n, and the carry out as its overflow, for every width n up to 64 |
| Word64.CarryFollowsRuns | src/json/json_skip.cpp:83-88 | Adding the odd run starts to the backslashes carries exactly through runs that start on odd bits, so position parity and carry together tell whether the character behind a run is escaped |
| Word64.FindEscaped | src/json/json_skip.cpp:77-91 | Bit i is set exactly when character i is escaped by the running escape automaton over the block, and the new carry is exactly whether the first character of the next block is |
| Word64.PrefixXorIsParity | src/json/json_skip.cpp:93-101 | Six shifted XORs give, at every bit, the parity of all bits up to and including it |
| Word64.CountrZero | src/json/json_skip.cpp:126 | The lowest set bit of a word that is not zero |
| Word64.DropLowest | src/json/json_skip.cpp:132 | `x & (x - 1)` clears the lowest set bit and no other, so the structural walk meets every bit once, in order |
| JsonSkip.Classify64 | src/json/json_skip.cpp:60-71 | The four masks mark exactly the quotes, backslashes and brackets of the 64 characters |
| JsonSkip.WalkIsScan | src/json/json_skip.cpp:122-133 | Walking the structural bits of a block is scanning its 64 characters one by one, for every state at its start and from every bit on |
| JsonSkip.WalkCounts | src/json/json_skip.cpp:122-136 | The popcount shortcut: with more depth than closing bits, walking them changes the depth by openings minus closings and never comes to the end |
| JsonSkip.WalkBits | src/json/json_skip.cpp:124-136 | The loop over the structural bits, lowest first, and the popcount branch both find what the walk over all 64 bits finds |
| JsonSkip.BlockWords | src/json/json_skip.cpp:114-121 | The words computed of a block stand for its brackets outside strings, its string regions, and its escape carry |
| JsonSkip.BlockIsScan | src/json/json_skip.cpp:113-137 | A whole block, told by its words, moves depth, string and escape as 64 single characters do |
| JsonSkip.ScanBlock | src/json/json_skip.cpp:113-137 | One turn of the block loop: the bracket it finds, or the depth, string flag and carry it hands on, are those of the one-character automaton |
| JsonSkip.ScanTail | src/json/json_skip.cpp:140-162 | The scalar loop stops behind the matching bracket or finds none, from whatever state the blocks left |
| JsonSkip.SkipJsonContainer | src/json/json_skip.cpp:105-163 | On every input: blocks, then the tail from the state they leave; where no quote is misread, and so in every container without a bare backslash, the position (or null) the one-character depth/string/escape automaton gives |
| JsonSkip.BlocksAgree | src/json/json_skip.cpp:113-138 | Through the blocks the code and the automaton stay at one depth and on one side of every string if and only if no quote outside a string stands right behind an escape |
| JsonSkip.StaleAgree | src/json/json_skip.cpp:140-162 | An escape the blocks leave pending outside strings makes the tail differ if and only if the first quote before the matching bracket is followed by a run of backslashes, maybe none, and a quote |
| JsonSkip.AgreesExactly | src/json/json_skip.cpp:105-163 | On any text the code follows the automaton character by character, in depth and in and out of strings, if and only if it misreads no quote in one of these two ways |
| JsonSkip.FindsMatchingBracket | src/json/json_skip.cpp:105-163 | Then it returns what the automaton returns |
| JsonSkip.MisreadMisleads | src/json/json_skip.cpp:113-138 | The condition lets nothing go: whatever text leads to a misread quote in the blocks has an end with which the code finds a bracket where the automaton finds none |
| JsonSkip.SkipsToMatchingBracket | src/json/json_skip.cpp:105-163 | A container without a backslash outside a string, as section 7 of RFC 8259 has it, misreads nothing |
| JsonSkip.AgreeAtBoundaries | src/json/json_skip.cpp:113-138 | Depth, string flag and escape of the two automata agree at every block boundary |
| JsonSkip.BareBackslashMisleads | src/json/json_skip.cpp:83-121 | A whole document with one bare backslash, where the blocks stop at 64 and the automaton at 66 |
| LzoFormat.ReadLengthField | external/lzokay/lzokay.cpp:52-69 | A written length field read back: its run of zero bytes and its last byte give the length again |
| LzoDecoder.ConsumeZeros | external/lzokay/lzokay.cpp:52-57 | The loop over zero bytes stops behind the run |
| LzoDecoder.FetchInst | external/lzokay/lzokay.cpp:142-267 | One instruction header, opcode by opcode, with the meaning of 0..15 depending on the state (0, 1-3, 4) |
| LzoDecoder.CopyLookbehind | external/lzokay/lzokay.cpp:275-276 | The byte-by-byte copy, which may read bytes it has just written |
| LzoDecoder.Execute | external/lzokay/lzokay.cpp:226-291 | The bounds tests in their order, the copies, and what is left for the rest of the stream; or the end and its result code |
| LzoDecoder.Decompress | external/lzokay/lzokay.cpp:92-291 | Result code and output of every stream into every buffer, against the recursion over instructions (a zero run that reaches the end of the input is an overrun) |
| LzoEncoder.BetterMatch | external/lzokay/lzokay.cpp:510-526 | The match stays, or becomes one or two shorter, never below 3, at the offset the finder gave for exactly that length |
| LzoEncoder.EncodeLiteralRun | external/lzokay/lzokay.cpp:528-546 | Appends the run, patching the two low bits of the last instruction for at most 3 literals, or overruns exactly when the result does not fit |
| LzoEncoder.EncodeLookbackMatch | external/lzokay/lzokay.cpp:548-595 | Appends the match in the form its length, offset and last literal length ask for, or overruns exactly when it does not fit |
| LzoEncoder.Compress | external/lzokay/lzokay.cpp:597-645 | For every finder of true matches: the whole output, and success exactly when the buffer holds it |
| LzoRoundTrip.LowBitsFree | external/lzokay/lzokay.cpp:534 | The bits the patch writes to are zero in every form of a match |
| LzoRoundTrip.ReadNear | external/lzokay/lzokay.cpp:550-564 | Every two-byte match, patched with any literal count, is decoded to its offset, length and count in the state its literal run left |
| LzoRoundTrip.ReadFar | external/lzokay/lzokay.cpp:565-593 | The same for the M3 and M4 forms, with and without length fields |
| LzoRoundTrip.ReadMatch | external/lzokay/lzokay.cpp:548-595 | What the decoder makes of any match the encoder may write is that match, with the literal count patched in later |
| LzoRoundTrip.ReadRun | external/lzokay/lzokay.cpp:535-545 | A literal run of 4 or more is read in state 0 and leaves state 4 |
| LzoRoundTrip.CopyTrueMatch | external/lzokay/lzokay.cpp:275-276 | Copying a true match back continues the source, also when it overlaps what it writes |
| LzoRoundTrip.ChoiceIsWritable | external/lzokay/lzokay.cpp:615-626 | A match the gate lets through is, after the choice of a better one, true and has a form at this place |
| LzoRoundTrip.MatchContinues | external/lzokay/lzokay.cpp:268-280 | One decoder turn over a patched match brings the output from a prefix of the source to a longer one, with the state the encoder counted on |
| LzoRoundTrip.MatchDecodes | external/lzokay/lzokay.cpp:612-633 | A turn of the encoder, decoded: from its literal run and match the decoder comes to whatever follows them |
| LzoRoundTrip.Tail | external/lzokay/lzokay.cpp:612-645 | Everything behind a match decodes to the rest of the source, for every finder whose runs of literals are short, with the literal count the later patch put into that match |
| LzoRoundTrip.Head | external/lzokay/lzokay.cpp:530-546 | The same from the start of the stream, through the opening run's own forms |
| LzoExact.AnyMatch | external/lzokay/lzokay.cpp:268-280 | Whatever the decoder has written, a match makes it longer by its length and literals, or ends the decoding with an error |
| LzoExact.TailBounded | external/lzokay/lzokay.cpp:597-645 | Whatever the decoder has written, the rest of a stream adds no more than the rest of the source has, and less when a run of literals comes to 2^32 |
| LzoExact.HeadBounded | external/lzokay/lzokay.cpp:597-645 | So no stream decodes to more than its source, and one with such a run to less |
| LzoExact.RoundTrip | external/lzokay/lzokay.cpp:92-291 | For every source, every finder of true matches and every buffer that holds the source: decompressing what was compressed succeeds with the source, all input consumed, if and only if the source is not empty and no run of literals comes to 2^32, where the 32-bit count starts anew |
| LzoExact.EveryFinder | external/lzokay/lzokay.cpp:606-633 | A source survives every true finder if and only if it has between 1 and 2^32 - 1 bytes |
| LzoRoundTrip.EmptySource | external/lzokay/lzokay.cpp:597-645 | The empty source becomes 17 17 0 0, which decodes to a lookbehind overrun |
| LzoExact.CompressThenDecompress | external/lzokay/lzokay.cpp:597-645 | Both programs over real buffers, with compress_worst_size bytes for the packed form: nothing overruns in packing, and the source comes back under exactly that condition |
| LzoRoundTrip.MatchCost | external/lzokay/lzokay.cpp:615-620 | A match the gate lets through takes no more bytes than it covers, and one less than that after four or more literals, which pays for their header |
| LzoRoundTrip.RestSize | external/lzokay/lzokay.cpp:612-645 | From any point of the loop the rest costs at most one byte more for each 16 source bytes, and a few |
| LzoRoundTrip.WorstSize | external/lzokay/lzokay.hpp:75-77 | No output of any source exceeds n + n/16 + 5 bytes, so compress_worst_size always suffices |
| Budget.SearchBudget.constructor | src/languages/bounds.hpp:59-61 | A fresh budget has everything left |
| Budget.SearchBudget.Spend | src/languages/bounds.hpp:65 | What is left stays total minus units minus one unit per 64 operations, never below 0 |
| Budget.SearchBudget.AddOps | src/languages/bounds.hpp:68-75 | Operations are charged 64 to a unit whatever way they are grouped into calls; the units charged are returned |
| Deinflect.NextOutput | src/languages/transforms.cpp:558-673 | The next rule with an output leaves the results alone, takes at least one rule of the frame, and stops only for a spent budget |
| Deinflect.Expand | src/languages/transforms.cpp:675-778 | The recursion of section 7.4 of docs/languages.md: it only appends, keeps parents before children, and never has more than 65536 results, the root among them |
| Deinflect.Deinflections | src/languages/transforms.cpp:780-802 | A search appends the text itself first and keeps what the list held |
| DeinflectSearch.TurnKeepsUnwind | src/languages/transforms.cpp:730-774 | One turn of the explicit-stack loop changes nothing in what the recursion, resumed from the stack, comes to |
| DeinflectSearch.TurnWeighs | src/languages/transforms.cpp:730-774 | Every turn that goes on leaves fewer results to record, or fewer rules and frames on the stack: the loop ends even with unlimited work |
| DeinflectSearch.CheapLimitSuffices | src/languages/transforms.cpp:691-695 | A quarter of the root's bytes never exceeds its code points, so an output below the cheap limit is within the exact one |
| DeinflectSearch.TransformSearch.PushFrame | src/languages/transforms.cpp:470-553 | The tries are walked: the stack gets the rules whose affix the text has on top, the frames below keep theirs, and the code points read are charged |
| DeinflectSearch.TransformSearch.TryRule | src/languages/transforms.cpp:572-612 | One rule skipped, refused for want of work, or applied, with its charges |
| DeinflectSearch.TransformSearch.AdvanceFrame | src/languages/transforms.cpp:597-673 | The nested cursor loops give the first rule in order that makes an output, and leave the cursor behind it |
| DeinflectSearch.TransformSearch.NextRule | src/languages/transforms.cpp:558-673 | The same, on the top frame of the stack; the other frames stay |
| DeinflectSearch.TransformSearch.Grown | src/languages/transforms.cpp:752-757 | The lazily counted length test decides exactly "more than the root's code points + 32", and counts the root at most once |
| DeinflectSearch.TransformSearch.IsCycle | src/languages/transforms.cpp:696-709 | Whether the chain above already applied the rule to this text, with one operation per step looked at |
| DeinflectSearch.TransformSearch.Keeps | src/languages/transforms.cpp:749-770 | Empty outputs, cycles, growth, depth and results, in that order, decide as the recursion does |
| DeinflectSearch.TransformSearch.Record | src/languages/transforms.cpp:771-773 | A kept output is appended and its frame pushed |
| DeinflectSearch.TransformSearch.PopFrame | src/languages/transforms.cpp:742-743 | Dropping a frame and its matches leaves the frames below as they are |
| DeinflectSearch.TransformSearch.Turn | src/languages/transforms.cpp:730-774 | One turn of the loop is one turn of the recursion seen on the stack |
| DeinflectSearch.TransformSearch.Drain | src/languages/transforms.cpp:730-774 | The loop comes to what the recursion comes to from the same stack, results and charges alike |
| DeinflectSearch.TransformSearch.Run | src/languages/transforms.cpp:678-778 | On the tries of any rules, the explicit-stack search appends exactly the preorder list of the recursion and charges what it charges; with a spent budget nothing |
| DeinflectSearch.RunDeinflect | src/languages/transforms.cpp:780-790 | On a list and a budget shared with other searches: the result list, the units and the operations are those of the recursion |
| DeinflectSearch.RunDeinflectFromStep | src/languages/transforms.cpp:792-802 | The same from a variant pass's text; nothing for an empty one |
| DeinflectLaws.LargerBudgetOnlyAdds | src/languages/transforms.cpp:678-778 | For budgets b <= b' the results under b are a prefix of those under b', and the whole run is the same unless b ran out |
| DeinflectLaws.ScreenIsAdmissible | src/languages/transforms.cpp:749-770 | The loop's tests keep exactly what the bounds admit, until the results are full |
| DeinflectLaws.SearchIsExact | src/languages/transforms.cpp:678-778 | Every result is an admissible rule applied to an earlier one, and unless a budget or the result bound stopped the search no admissible application is missing |
| DeinflectLaws.SearchGoesByAffixes | src/languages/transforms.cpp:678-778 | Every result comes of a rule whose affix the earlier text has; and where no walk passes its limit, no admissible rule whose affix a result has was passed over |
| DeinflectLaws.ResultBounds | src/languages/bounds.hpp:33-40 | Every result is non-empty, at most 32 code points longer than the root and at most 128 rules below it |
| DeinflectLaws.ChainsDoNotRepeat | src/languages/transforms.cpp:696-709 | On no chain from the root is a rule whose output was not shorter applied to a text that rule had been applied to before in the chain |
| DeinflectLaws.ChainsAreFinite | src/languages/transforms.cpp:749-757 | The cycle check and the growth bound alone bound every chain's length by the number of (text, rule) pairs within the growth |
| TrieBuilding.TrieBuilder.constructor | src/languages/transforms.hpp:249-262 | The empty trie: one node, which spells nothing |
| TrieBuilding.TrieBuilder.FindEdge | src/languages/transforms.cpp:115-116 | The node's edge on c along its linked list, or none when it has none |
| TrieBuilding.TrieBuilder.AddChild | src/languages/transforms.cpp:117-122 | A new node that spells its parent's key and c; all others spell what they did, and no two the same |
| TrieBuilding.TrieBuilder.Insert | src/languages/transforms.cpp:112-128 | The rule is kept at the one node that spells its key |
| Trie.SortedChildren | src/languages/transforms.cpp:146-147 | Sorting a node's edges gives its children, ascending, each once |
| Trie.CollectEdges | src/languages/transforms.cpp:143-147 | A node's edges from its list: one for each node that spells one code point more |
| Trie.PlaceEdges | src/languages/transforms.cpp:137-149 | All nodes' edges, contiguous and sorted |
| Trie.CountStarts | src/languages/transforms.cpp:152-158 | Counting and prefix sums give where each node's rules begin |
| Trie.PlaceRules | src/languages/transforms.cpp:150-175 | Each node's span holds exactly its rules, in file order |
| Trie.Finish | src/languages/transforms.cpp:130-175 | The finished trie has the builder's nodes, with their children and their rules |
| Trie.FindEdge | src/languages/transforms.hpp:229-245 | Binary search down to eight edges and a scan of the rest find the edge on c or show there is none |
| Trie.Child | src/languages/transforms.hpp:228-246 | The node that spells one code point more, or none when no node does |
| Affixes.EntriesAt | src/languages/transforms.cpp:194-226 | The keys of a trie are those of its rules, with their numbers, in file order |
| Affixes.IndexRules | src/languages/transforms.cpp:177-229 | Every rule is in the trie of its type under its key (reversed for suffixes and first-word endings), or among the unindexed ones, in file order |
| TrieWalk.NothingLonger | src/languages/transforms.cpp:480-483 | Where the walk falls off the trie, no longer key begins the letters |
| TrieWalk.SpelledBegins | src/languages/transforms.cpp:103-123 | Below the root the trie has a node for exactly what some key begins with |
| TrieWalk.WalkLetters | src/languages/transforms.cpp:474-489 | One walk meets every key the letters begin with, the last 64 of them when there are more, and counts the letters it reads: up to the first no key goes on with, or the limit |
| TrieWalk.Walk | src/languages/transforms.cpp:472-493 | The matches of one trie, longest key first, the empty key's at the end, and the letters read |
| TrieWalk.LongestFirst | src/languages/transforms.cpp:466-469 | The lengths fall strictly: longest affix first, each once |
| TrieWalk.LimitSuffices | src/languages/transforms.cpp:476-488 | With keys of at most 64 code points no text begins with more than 64 of them |
| TrieWalk.MatchRules | src/languages/transforms.cpp:598-602 | The rules the search reads at a match are all the rules of its key, in file order |
| TrieWalk.SuffixBackwards | src/languages/transforms.cpp:188-193 | A reversed affix begins the reversed text exactly when the affix ends the text |
| TrieWalk.ListRules | src/languages/transforms.cpp:597-602 | What the search reads through the matches: the rules of every matching key, longest key first, file order within a key |
| TrieWalk.LongestDropped | src/languages/transforms.cpp:476-488 | When the letters begin with more than 64 keys the limit drops the longest |
| TrieWalk.ListedExactly | src/languages/transforms.cpp:470-512 | The rules listed are exactly those whose key the letters begin with if and only if the letters begin with at most 64 keys |
| TrieWalk.ListedFit | src/languages/transforms.cpp:470-512 | None is listed whose key they do not begin with, however many there are |
| TrieWalk.ShortKeysWithinReach | src/languages/transforms.cpp:476-488 | As they always do when no key is longer than 64 code points |
| Affixes.KeyFits | src/languages/transforms.cpp:470-541 | Walking a trie with its letters of the text (backwards, forwards, or the first word of two words backwards) meets the keys of exactly the rules whose affix the text has |
| Affixes.ListMatches | src/languages/transforms.cpp:470-553 | push_frame on the three tries: the rules of the matches, and the code points read, are those the affixes specify |
| Affixes.TriedExactly | src/languages/transforms.cpp:470-553 | A rule is tried only if the text has its affix; and all that fit are tried if and only if no walk comes to more than 64 keys |
| Affixes.ShortAffixesInReach | src/languages/transforms.cpp:476-488 | As none does when no affix is longer than 64 code points |
| Affixes.TriedInOrder | src/languages/transforms.cpp:466-469 | Suffixes before prefixes before first words before unindexed rules, the longer affix first, then file order, each rule once: the order of section 7.4 of docs/languages.md |
| Affixes.TriedAre | src/languages/transforms.cpp:470-553 | So the rules tried are the one list in that order of the rules whose affix the text has |
| Pipeline.StepKeepsInv | src/importer.cpp:748-851 | Every step of every worker and of the writer keeps the protocol's invariant: accounts, no bank in two hands, none lost, no wake-up lost, errors flagged |
| Pipeline.SomethingCanMove | src/importer.cpp:763-851 | Until the writer has finished some thread has a step |
| Pipeline.RunsAreSafe | src/importer.cpp:748-851 | In every interleaving, waits that end by themselves included: banks are written once, in file order; the bytes ahead are those of the claimed and unwritten banks, within the limit or the biggest bank; at most max_tasks_ahead banks are outstanding; success means all were written, a worker's error rules success out, and failure means that a failure was flagged |
| Pipeline.RunsGoOn | src/importer.cpp:763-851 | Any run short of the end extends to a longer run, without waiting for a wait to end by itself |
| Pipeline.RunsEnd | src/importer.cpp:763-851 | No run is longer than a bound in the banks, the workers and the number of waits that ended without a notification |
| Pipeline.KeepsLost | src/importer.cpp:782-792 | After a worker's error some claimed bank stays unprocessed and in nobody's hands, so the writer never comes past it |
| Pipeline.StepsRunOut | src/importer.cpp:763-851 | One measure falls with every step of every thread but the end of a wait without a notification, which adds one to it |
| Pipeline.SucceedsExactly | src/importer.cpp:776-851 | A finished import has succeeded if and only if no bank threw, in a worker or in the writer |
| Radix.CountChunk | src/importer.cpp:295-300 | A thread's counts of its chunk, bucket by bucket |
| Radix.GlobalPositions | src/importer.cpp:306-318 | Where the buckets begin: behind all entries with smaller digits |
| Radix.ThreadPositions | src/importer.cpp:320-327 | Where each thread's part of a bucket begins: behind the same digit in earlier chunks |
| Radix.RanksPermute | src/importer.cpp:329-342 | The slots the threads write are all distinct and fill the array |
| Radix.Scatter | src/importer.cpp:329-342 | In any interleaving of the threads' writes every slot is written once, with the entry a stable sort puts there |
| Radix.Pass | src/importer.cpp:285-345 | A pass, for any chunk size, is the stable sort by its digit |
| Radix.PassExtends | src/importer.cpp:285-345 | A stable pass over the next digit of a list stably sorted by the lower digits is stably sorted by both |
| Radix.RadixSort | src/importer.cpp:270-346 | For every number of threads: sorted by hash, entries of one hash in their old order, a permutation |
| Radix.BothPathsAgree | src/importer.cpp:987-991 | On offsets that never decrease the stable sort by hash is the lexicographic sort of the low-memory path |
| HashTable.Insert | src/hash/hash.cpp:57-67 | The first empty slot from the hash's own on; everything findable before stays findable |
| HashTable.Build | src/hash/hash.cpp:44-70 | Every entry is findable, and slots stay empty, since the capacity exceeds the number of entries |
| HashTable.Find | src/hash/hash.cpp:18-42 | The hash's offset, 0 exactly for a hash without an entry; the exception for a table without an empty slot is out of reach |
| HashTable.ProbesReach | src/hash/hash.cpp:37-39 | Probing visits every slot within one round |
| Bloom.SetRange | src/hash/bloom.cpp:50-62 | A thread sets exactly the hashes' bits that fall into its words, and no other word changes |
| Bloom.BuildFilter | src/hash/bloom.cpp:28-90 | For any number of ranges finishing in any order, exactly the bits of the hashes are set |
| Bloom.FillingIsUnique | src/hash/bloom.cpp:64-87 | One thread and several make the same filter |
| Bloom.Contains | src/hash/bloom.hpp:20-30 | Yes exactly when all seven bits are set |
| Bloom.NoFalseNegative | src/hash/bloom.hpp:20-30 | Yes for every hash the filter was built from |
| OffsetIndex.WriteGroup | src/importer.cpp:1009-1013 | A group is its count and its offsets |
| OffsetIndex.BuildOffsetIndex | src/importer.cpp:1001-1020 | One group per run of a hash, back to back, with a table entry at its address |
| OffsetIndex.GroupsAreComplete | src/importer.cpp:1001-1020 | Over a sorted list: ascending entries, one for each hash and no other, each leading to the group of all offsets of its hash |
| OffsetIndex.GroupReadsBack | src/query.cpp:595-601 | A group read back at its address gives its offsets |
| DictionaryIndex.SortKeepsSelection | src/importer.cpp:987-991 | Sorting keeps, for every hash, its offsets in import order |
| DictionaryIndex.GroupsLead | src/importer.cpp:1001-1020 | The groups of the sorted list are those of the list the writers made |
| DictionaryIndex.BuildIndex | src/importer.cpp:1169-1187 | Sort, groups, table and filter together: a valid index over the writers' entries, behind unchanged records, for every number of threads |
| DictionaryIndex.Index.Find | src/hash/hash.cpp:18-42 | Filter, then table: a hash with entries leads to the group of all its offsets in import order, one without to 0 |
| Records.HeadReadsBack | src/importer.cpp:470-474 | Expression and reading come back exactly when both are below 65536 bytes |
| Records.TagsReadBack | src/importer.cpp:485-490 | The three tag texts come back exactly when each is below 256 bytes |
| Records.FlagReadsBack | src/importer.cpp:408-421 | The three forms of the form-of slot are read as what they were written for |
| Records.RestReadsBack | src/importer.cpp:480-496 | Glossary address, size, tags, form-of flag and score come back exactly when they fit |
| Records.RecordReadsBack | src/importer.cpp:464-496 | The record the importer writes is the row the query reads if and only if every field fits its width |
| Records.WalkForms | src/query.cpp:638-654 | The loops over the form-of slot read its entries one after the other, the last empty one as the flag |
| Records.WalkRest | src/query.cpp:620-672 | The walk over the fields behind the texts reads each where the one before it ends, or fails where the file does |
| TermBank.AddRow | src/importer.cpp:446-503 | One row more: its record behind the others, its glossary compressed once per bank, its index entries and its open glossary address |
| TermBank.ProcessTermBank | src/importer.cpp:423-507 | What a worker hands over for a bank's rows |
| TermWriter.TakeRun | src/importer.cpp:703-706 | A new glossary stays in the run being copied and is placed where the copy will put it |
| TermWriter.SkipRun | src/importer.cpp:707-711 | A known one ends the run: the copy so far is the new glossaries so far, and the shift grows by its size |
| TermWriter.FreshIsKept | src/importer.cpp:700-716 | What the copy loop keeps of a bank's glossaries is what the rows bring that no earlier bank wrote |
| TermWriter.PatchOne | src/importer.cpp:718-721 | Filling in one address changes one record's glossary and no other byte |
| TermWriter.FillIn | src/importer.cpp:718-721 | After the loop every record names its glossary's place |
| TermWriter.Writer.CopyGlossaries | src/importer.cpp:697-716 | The file grows by exactly the compressed glossaries it did not have; the map knows their places; write_offset is the file's length |
| TermWriter.Writer.WriteProcessed | src/importer.cpp:692-730 | A bank's whole effect on file, index entries, glossary map and count |
| TermStore.GlossaryStands | src/importer.cpp:718-721 | A new record's glossary is in the file where the map says, whether this bank or an earlier one brought it |
| TermStore.WriteKeepsSound | src/importer.cpp:692-730 | Any bank keeps the store sound: every record with the address of its own compressed glossary, each distinct glossary once, the file nothing else |
| TermStore.RunsAreSound | src/importer.cpp:815-834 | Over any sequence of banks, and however rows are spread over them, the store is sound and holds the rows in order |
| TermStore.OffsetsNeverDecrease | src/importer.cpp:725-729 | The offsets handed to the sort never decrease |
| Query.WalkRecord | src/query.cpp:601-672 | A record of the group gives its row when it is a term record of the key, nothing otherwise |
| Query.QueryDictionary | src/query.cpp:587-711 | The rows of all records of the key's group, in the group's order |
| Query.VisitTerm | src/query.cpp:601-672 | Visiting a term's record that has room answers exactly when the key is its expression or reading |
| Query.RowNeedsRoom | src/query.cpp:601-672 | A record gives its term's row only when every field has room |
| Query.QueryIsIndexScan | src/query.cpp:587-711 | For every key, whatever hashes collide and whatever other records follow: every term of the key in import order, twice where both its texts hash as the key |
| Query.IndexIsExact | src/query.cpp:587-711 | The index agrees with a linear scan if and only if no term of the key has two texts of one hash |
| Query.RightExactly | src/query.cpp:587-711 | For a key whose hash no other text has, the rows are those of its terms if and only if their records have room |
| Query.FindTerms | src/query.cpp:562-712 | From an import's store and the index over it, a query answers with the terms of the key in import order: when the records of the key's group have room, and for an unshared hash only then; as a linear scan if and only if no term of the key collides with itself |
| BankWriting.WriteBanks | src/importer.cpp:852-867 | Any sequence of banks, processed and written one after the other, leaves the store the banks specify |
| BankWriting.CarryOn | src/importer.cpp:763-834 | One step of a thread keeps each processed bank where its task says, and the file that of the banks written so far |
| BankWriting.RunPipeline | src/importer.cpp:763-851 | Along every run of the protocol, in every interleaving, the banks processed by the workers and written by the writer make the file of the first banks in order; a run that ends well has written the store of all banks |
| BankWriting.WriteTermBanks | src/importer.cpp:680-867 | Either way: in turn, or by a pool in any interleaving that ends and in which no bank throws, the store is that of the banks in order |
| ImportAndQuery.NarrowIsRoomy | src/importer.cpp:464-496 | Records have room exactly when the rows' own fields are narrow enough, in a file below 2^64 bytes |
| ImportAndQuery.IndexEntries | src/importer.cpp:1169-1187 | The index over a list of entries, for any number of threads and ranges |
| ImportAndQuery.QueryStore | src/query.cpp:562-712 | Writing, indexing and looking up, from a store known to be sound |
| ImportAndQuery.ImportThenQuery | src/query.cpp:562-712 | Import, index and query as one program: for any banks, in turn or by a pool in any interleaving, any other records, any number of threads and any key, the answer is the terms of the key over all banks' rows, with the exact conditions of FindTerms stated of the rows alone |
| GlossaryChains.ChainIsPlaces | src/query.cpp:702-703 | The list linked through the glossaries from any row is all later rows of its term, in order |
| GlossaryChains.TermChain | src/query.cpp:687-703 | A term's list is exactly its rows |
| GlossaryChains.RawTerms.FindTerm | src/query.cpp:570-586 | The term with that expression and (normalized) reading, or none |
| GlossaryChains.ReadingsAre | src/query.cpp:696-708 | A term lists each reading of its rows once and nothing else |
| GlossaryChains.RawTerms.Add | src/query.cpp:655-710 | One row more: terms stay distinct, in first-found order, each with its list of rows, its merged readings and its best score; a row of references only is noted and adds nothing |
| PagedFile.CopyPage | src/blob_file.cpp:60-66 | One page's part of a copy is that part of the file |
| PagedFile.CopyPages | src/blob_file.cpp:57-67 | The copy is the file's slice for every page size, the rest of the buffer untouched |
| PagedFile.Copy | src/blob_file.cpp:49-69 | The slice, or the exception exactly for a range outside the file |
| BlobCursor.Cursor.Open | src/blob_file.hpp:94-99 | An empty window at the offset |
| BlobCursor.Cursor.Pin | src/blob_file.cpp:101-106 | The page is handed out and held |
| BlobCursor.Cursor.Spill | src/blob_file.cpp:119-137 | A range over page borders is copied whole, with the 16 bytes that follow it in the file |
| BlobCursor.Cursor.ReadRange | src/blob_file.cpp:111-137 | Inside a page or spilled, the range shows the file's bytes and the lookahead |
| BlobCursor.Cursor.BytesSlow | src/blob_file.cpp:108-143 | A read that leaves the window shows the file, moves the offset by its length, and throws exactly when it leaves the file |
| BlobCursor.Cursor.Bytes | src/blob_file.hpp:101-108 | The same for any read, by the fast path or the slow one |
| BlobCursor.Cursor.Skip | src/blob_file.hpp:112-118 | Moves the offset by the length, or throws exactly when that leaves the file |
| BlobCursor.RangeStays | src/blob_file.hpp:58-62 | A range keeps showing its bytes while pages and copies are only added |
| BlobCursor.Run | src/blob_file.hpp:85-134 | Any run of reads and skips, for every page size: it throws exactly when it leaves the file, else every range it handed out still shows at the end what a mapped cursor reads |
| ScanIndex.CodepointLength | src/scan_index.hpp:49-55 | The number of code points |
| ScanIndex.PrefixBytes | src/scan_index.hpp:59-70 | Where the first n code points end; none exactly when there are fewer |
| ScanIndex.EndIsUnique | src/scan_index.hpp:59-70 | There is only one such end |
| ScanIndex.NoteLongKey | src/importer.cpp:169-179 | A key is noted, under the hash of its first eight code points and with its length, exactly when it is longer than 16 |
| ScanIndex.MergeLongKeys | src/importer.cpp:731-736 | The map holds, for every prefix hash noted and no other, the longest length |
| ScanIndex.LongestIsMaximum | src/importer.cpp:731-736 | It is at least every length noted under that hash |
| ScanIndex.WriteScanIndex | src/importer.cpp:871-899 | Header, hashes and lengths of the sorted entries; no file for none |
| ScanIndex.ViewIs | src/query.cpp:202-222 | The view of a written file has all its entries |
| ScanIndex.EntryAt | src/query.cpp:230-240 | Hash and length of entry i are read where they were written |
| ScanIndex.LongKeyLength | src/query.cpp:225-244 | The binary search over the file gives the hash's length, 0 exactly without one |
| LongKeys.NoteAll | src/importer.cpp:475-478 | Every long key of the dictionary is noted |
| LongKeys.KeyIsCovered | src/importer.cpp:731-736 | For every key longer than 16 the index knows a length at least as long under the prefix of any text that starts with it |
| LongKeys.LongestKey | src/query.cpp:485-493 | The longest over all dictionaries |
| LongKeys.ScanBounded | src/lookup.cpp:629-637 | The ordinary scan: every length up to the limit, longest first, noting the eight-code-point prefix when it passes it |
| LongKeys.ScanExtended | src/lookup.cpp:650-656 | The extension: the longer lengths, longest first |
| LongKeys.Scan | src/lookup.cpp:628-658 | The lengths the two loops read together, the second only for a text that begins like a longer key |
| LongKeys.ScanIsComplete | src/lookup.cpp:628-658 | With a scan of at least 16 every prefix of the text that is a dictionary key is read |
| LongKeys.ShortScanMisses | src/lookup.cpp:644-658 | For every shorter scan there is a dictionary and a text whose key is passed over |
| LongKeys.CompleteExactly | src/lookup.cpp:628-658 | A scan reads every prefix that is a key, for all dictionaries and texts, if and only if its length is at least 16 |
| Candidates.SummaryKeepsBest | src/lookup.cpp:351-377 | A candidate keeps its longest hit; with the shortest-trace selection the fewest steps, then the shortest trace among these; the first of equals |
| Candidates.SummaryLengths | src/lookup.cpp:356-367 | Its confirmed and whole-word lengths are the longest confirming and whole-word hits, its confirmed rank the first reference at that length |
| Candidates.ConfirmedMeans | src/lookup.cpp:356-369 | They never exceed the matched length, and a candidate is confirmed (or whole-word) exactly when a hit at its matched length is |
| Candidates.CandidateSet.constructor | src/lookup.cpp:342-396 | No candidates yet |
| Candidates.CandidateSet.Find | src/lookup.cpp:278-298 | The candidate of that key or none, also when hashes of keys collide |
| Candidates.CandidateSet.AddTerm | src/lookup.cpp:346-394 | One candidate per key, in the order found, each the summary of its key's hits |
| Candidates.CandidateSet.AddTerms | src/lookup.cpp:342-396 | The same for all the terms of a query; while all terms have glossaries the two kinds of terms stay apart |
| Candidates.CandidateSet.AddMetadata | src/lookup.cpp:788-809 | A metadata-only term is left out exactly when a term with glossaries has its key, so the two kinds stay apart and no metadata-only term follows a reference |
| Candidates.DefinedCandidate | src/lookup.cpp:805-809 | The candidate of a key tells whether any term with glossaries has that key |
| Ranking.FindShortest | src/lookup.cpp:928-930 | The entry for that matched length and those steps, or none |
| Ranking.CollectShortest | src/lookup.cpp:925-936 | The shortest trace of the confirmed terms, per matched length and steps |
| Ranking.Settle | src/lookup.cpp:905-948 | Every candidate's rank depth and standing, with own entries ranked after their references |
| Ranking.LessIsLex | src/lookup.cpp:960-1036 | The comparator is a lexicographic order of thirteen keys as long as the standing tells which terms are confirmed |
| Ranking.ReachableIsSettled | src/lookup.cpp:905-948 | In every candidate set whose two kinds of terms are apart the standing does tell |
| Ranking.StrictWeakOrder | src/lookup.cpp:960-1036 | So it is irreflexive and transitive with transitive ties, and total for a pack that follows references |
| Ranking.AddBatches | src/lookup.cpp:342-396 | The passes over the text: the hits of all queries, every term with glossaries |
| Ranking.AddAllMetadata | src/lookup.cpp:772-823 | The metadata-only pass adds exactly the terms whose key no term with glossaries has |
| Ranking.RankTerms | src/lookup.cpp:342-948 | From the queries to the order: whatever terms the passes find, the candidates are one per key, each the summary of its hits, and the comparator is a strict weak order on the list made of them |
| Ranking.StandingIsNeeded | src/lookup.cpp:1031-1035 | Without that, three terms that go in a circle |
| Ranking.LessSortsLengths | src/lookup.cpp:1065-1076 | A list sorted by the comparator is sorted by the merge's two keys |
| Ranking.CutMergeCut | src/lookup.cpp:1051-1080 | Cutting the terms with glossaries to the limit, merging and cutting again is cutting the whole merge |
| Ranking.MergeKeepsOrders | src/lookup.cpp:1042-1044 | The terms with glossaries stand as they would without the others, and so do the others |
| Ranking.MergePlaces | src/lookup.cpp:1060-1064 | A metadata-only term stands after exactly the terms with glossaries that read as far or further |
| Variants.NextVariants.constructor | src/languages/steps.cpp:447-447 | No variants yet, whatever an earlier processor left |
| Variants.NextVariants.FindByText | src/languages/steps.cpp:452-457 | The kept variant of that text, by a scan |
| Variants.NextVariants.Find | src/languages/steps.cpp:377-386 | The same by the positions once there are many |
| Variants.NextVariants.Lower | src/languages/steps.cpp:395-398 | A text that is there keeps the smaller number of steps |
| Variants.NextVariants.AddNew | src/languages/steps.cpp:403-423 | A new text behind the kept ones, the positions kept right, made at the 33rd |
| Variants.NextVariants.IndexAll | src/languages/steps.cpp:418-423 | The positions of all the kept variants |
| Variants.NextVariants.Add | src/languages/steps.cpp:393-424 | Each text once; below 4096 each with its fewest steps; the flag goes up with the 4096th and not before |
| Variants.NextVariants.AddSmall | src/languages/steps.cpp:470-478 | The small path keeps the same without index or limit |
| VariantSearch.Finish | src/languages/steps.hpp:105-114 | The builtins of a processor all of whose lists are single builtins, none for another |
| VariantSearch.SmallVariant | src/languages/steps.cpp:458-493 | The small path adds what the processor makes of a variant, in order |
| VariantSearch.IndexedVariant | src/languages/steps.cpp:502-524 | So does the indexed builtin path |
| VariantSearch.ListsVariant | src/languages/steps.cpp:533-574 | So does the step-list path |
| VariantSearch.RunProcessor | src/languages/steps.cpp:442-580 | Whichever path a processor takes it adds the same variants in the same order |
| VariantSearch.StepKeepsFound | src/languages/steps.cpp:440-580 | Keeping each text once with its fewest steps turns what the processors before reach into what one more reaches |
| VariantSearch.SkipKeepsFound | src/languages/steps.cpp:440-446 | A processor that is off changes nothing |
| VariantSearch.NotCrowded | src/languages/steps.cpp:399-402 | Where fewer than 4096 are kept and none is missing, fewer than 4096 can be reached |
| VariantSearch.RunProcessors | src/languages/steps.cpp:429-581 | Every text the processors reach, once, strictly sorted, with a number of changes some way to it has; at most 4096; and the limit flag is up if and only if the first n processors, for some n, reach 4096 texts |
| VariantSearch.FewestChanges | src/languages/steps.cpp:375-424 | Below the limit no way to a text changes it less often, and no text that can be reached is missing |
| VariantSearch.SortedIsUnique | src/languages/steps.cpp:366-369 | A strictly sorted list is fixed by its members |
| VariantSearch.FoundIsUnique | src/languages/steps.cpp:429-581 | So the result is fixed, whatever paths the processors took |

## Left out

- JsonSkip.FindsMatchingBracket: goes one way. Behind a misread quote the code and the automaton are on different sides of
  every string, and may still stop at one place by chance; `AgreesExactly` and `MisreadMisleads` say that the condition
  is the right one.
- The match finder of the codec (`DictImpl`): any table of true matches stands for it, one answer per position.
- LzoDecoder.ConsumeZeros: stops at the end of the input, where the loop of the original has no such test.
- LzoDecoder.Decompress: so a run of zero bytes up to the end of the input is an input overrun, where the original reads on
  behind its buffer.
- DeinflectSearch.TransformSearch.Run: does not model the report of which bound was hit and which rules cost most, nor
  a thread's reuse of its stack.
- How a rule applies to a text: any partial function of text and rule with its costs, so stem checks, patterns,
  phrasal second words and `then` steps are not modelled.
- TrieWalk.Walk: matches carry the number of code points they spell, not byte offsets, which only the application of a
  rule reads.
- Conditions of dictionary forms, the character-class range sets, case mapping and the UTF-8 codec: easier, or tables.
- Pipeline.RunsAreSafe: each locked section is one step; an exception while the workers are being started, before the
  writer's loop, is not modelled.
- BankWriting.RunPipeline: says nothing of the file once the writer has failed, which may hold part of a bank; the import
  then fails.
- BankWriting.WriteBanks: each bank is processed when it is written; the window of futures that processes some ahead
  changes neither the banks nor their order.
- TermBank.ProcessTermBank: takes the rows the parser found; compression errors are not modelled, and the long keys of a
  bank are noted by `LongKeys.NoteAll` instead.
- Records.RecordReadsBack: only the current record version (score as a double, with a form-of slot).
- The records of meta, kanji and media rows: the query passes over records of other kinds, which is all it does with
  them here; reading frequencies, pitches, kanji and media is left out as a variation of the term path.
- Query.FindTerms: one dictionary; the selection of dictionaries and the collection of metadata are left out.
- GlossaryChains.RawTerms.Add: scores are real numbers, so a score that is not a number is not modelled.
- Candidates.CandidateSet.AddMetadata: takes each reading as given; collecting the readings of a text, and leaving out
  one that turns out to have neither frequencies nor pitches, are not modelled.
- PagedFile.Copy: pages have the file's bytes; the cache's eviction and failing reads are left out.
- Files, mappings, headers of the hash table and filter files, zip, zstd, and the loading of a damaged dictionary.
- LongKeys.Scan: for processors that leave the text as it is, without a budget; scans by words and variant passes are
  left out.
- Ranking.StrictWeakOrder: a term's value in the frequency dictionary is given; `std::sort`, `partial_sort` and
  `stable_sort` are taken as sorting by the comparator, of which the order laws and the merge are proved.
- VariantSearch.RunProcessors: no budget; the moves and swaps that save copies of texts are plain assignments. The sort
  by code points is a function.
- Dictionary management, HTML conversion, the command line, the C interface, pack and schema checking: many branches with
  shallow claims.
