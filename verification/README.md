# Datara: proofs about seven of its cores

Datara is a compiler and runtime; this project models the parts of it whose
correctness is hardest to see, and proves what they are for. `dafny verify
dfyconfig.toml` checks everything.

**JSON benchmark** (`bench_json/`). The C program recognises a document by
recursive descent over one cursor, then scans the same bytes again and only
counts brackets. `JsonGrammar` holds the grammar of RFC 8259, sections 2 to 7,
as derivation trees with their text; `JsonReader` is the recogniser with its
cursor, `JsonParse` the functions it refines. The recogniser accepts exactly the
texts of the grammar whose containers nest at most 129 deep (`JsonSound`,
`JsonComplete`), and where it rejects one, it reports the place beyond which no
such text could go on (`JsonViable`). `JsonScan` proves that the flat scan agrees
with the tree on every such text, `JsonExtract` models the whole program,
`JsonFields` says what its text search reads out of any object, and `JsonGen`
follows the generator's document of any length through it.

**Profile-guided optimisation** (`src/pgo.rs`). `Dmir` gives the SSA form a
semantics: runs with a fuel, a trace of what happened, and foreign functions that
answer from what the outside has seen. `Instrument` and `Instrumenter` are the
instrumentation, as a function and as the editing loop. `InstrumentSound`,
`InstrumentRun` and `InstrumentFacts` prove that a run of the instrumented module
is the original run plus profile calls whenever no inserted id clashes, and say
exactly when ids clash: the scan for the largest id does not look at terminators
nor at the instructions under its catch-all arm, and `InstrumentClash` shows a
function in SSA form whose result changes. `InstrumentNotes` says which profile
calls a run makes, with what arguments and where. `Profile` and `ProfileCalls`
prove the counts exact, `Layout` when the block layout keeps every run
(`RunSame`), and `LayoutOrder` that it puts the block first which the measured run
went to.

**Incremental cache** (`src/incremental.rs`, `build.rs`). `Fnv` proves that the
hash separates texts that differ in one byte, and has its published values. `Incremental`, `IncrementalCache`
and `IncrementalSound` relate the walk with its shared visited set to "everything
reachable is unchanged", on graphs with cycles. `IncrementalEdits` proves exactly
when the walk is right after every edit, and so notices every one: if and only if
reachable paths with one cache key name one file. `IncrementalPaths` does this for
the two kinds of paths: always on Windows, and elsewhere as long as no path has a
backslash. `IncrementalNames` says which file a dependency name stands for, and
`IncrementalRecords` is about recording and invalidating
modules.

**C header lexer** (`src/cimport/lexer.rs`). `CTokens` says what is read where,
`CLexer` is the lexer with its cursor, `CPlaces` is about lines and columns,
`CLiterals` about integer literals (ISO C, section 6.4.4.1), and `CRoundTrip`
proves that lexing printed tokens gives them back.

**Message framing** (`editors/vscode/extension.js`, `tools/lsp_demo_log.py`), the
base protocol of the LSP 3.17 specification. `Framing` has the editor's decoder
and proves that cutting a stream of any bytes into chunks changes nothing;
`FramedReading` has the byte-wise decoder of the demonstration client. Both
deliver exactly the messages that either side encodes. `Requests` is the editor's
table of waiting requests.

**Wasm loader** (`docs/playground/fib.js`). `LinearMemory` has the bump allocator
and the strings in linear memory, `HeapRuns` proves the heap discipline over any
run, `Formatting` the rounding and printing of numbers.

**Embedding** (`src/c_api/mod.rs`, `include/datara.hpp`). `Embed` has both layers,
the process-wide state behind the C functions and the C++ wrapper; `EmbedRuns`
proves that whole runs of a process with many wrappers show what ownership by
wrapper promises, as long as no second wrapper is loaded, and what happens
otherwise.

`Text` and `Radix` are shared: places in texts, and numerals in a base. Bytes are
characters in the models of texts, and numbers from 0 to 255 in linear memory and
under the hash.

Six things the code does that its own words do not say:

- `src/pgo.rs:207` records "semantic CFG equivalence preserved" for the layout.
  The code is kept if and only if, of the blocks with one id, the first and the
  last are the same (`Layout.SameCodeExactly`): control goes to the first, and the
  map at `src/pgo.rs:232` keeps the last. `Layout.LayoutChangesMeaning` is a
  function whose result changes. The verifier refuses two blocks with one id
  (`src/dmir/verifier.rs:26-29`), so no verified module is affected;
  `src/pgo.rs:285` verifies after the layout, when only one of them is left.
- `docs/playground/fib.js:63-65` describes zero padding above four digits. From
  four digits on the code prints the mantissa itself, ten thousand times the
  number (`Formatting.RoundedExactly`).
- `include/datara.hpp:123` calls the wrapper's ownership unique. A second loaded
  wrapper replaces the first one's module (`EmbedRuns.SecondLoadReplaces`).
- The cache keys of `src/incremental.rs:35-37` are meant to name one file each.
  Where a backslash may occur in a file name they do not
  (`IncrementalPaths.KeysCollide`).
- A recorded dependency that does not resolve is skipped (`src/incremental.rs:84-86`).
  So is one that no file fits and that was found by its name among the cache keys,
  once its module has been invalidated: what depends on it stays fresh
  (`IncrementalRecords.InvalidatedByName`, and exactly which roots do,
  `LostNamesExactly`).
- `bench_json/json_c.c:162` reads the value "for `key`" of a record. It is the
  first match in the record's text: a member of a nested object that comes first
  is read instead (`JsonFields.NestedComesFirst`), and a key with white space
  before its colon is passed over (`JsonFields.SpaceHides`).

## Model

| member | source | states |
|---|---|---|
| JsonReader.Reader.SkipWhite | bench_json/json_c.c:40-46 | the cursor moves to the end of the run of white space |
| JsonReader.Reader.MatchLit | bench_json/json_c.c:50-55 | succeeds exactly when the word stands at the cursor, and moves past it, else not at all |
| JsonReader.Reader.ReadChar | bench_json/json_c.c:63-84 | refines the recogniser of one character or escape of a string, with the place where a bad one is noticed |
| JsonReader.Reader.ReadString | bench_json/json_c.c:57-87 | refines the string recogniser that CharsSound and CharsComplete tie to the grammar; the cursor stays within the text |
| JsonReader.Reader.ReadWhole | bench_json/json_c.c:91-97 | refines the recogniser of an integer part: no leading zero before another digit |
| JsonReader.Reader.ReadFrac | bench_json/json_c.c:98-102 | refines the recogniser of an optional fraction with at least one digit |
| JsonReader.Reader.ReadExp | bench_json/json_c.c:103-108 | refines the recogniser of an optional exponent with at least one digit |
| JsonReader.Reader.ReadNumber | bench_json/json_c.c:89-110 | refines the number recogniser that NumberSound and NumberComplete tie to the grammar |
| JsonReader.Reader.ReadKey | bench_json/json_c.c:118-123 | refines the recogniser of a key with its colon and white space |
| JsonReader.Reader.ReadObject | bench_json/json_c.c:112-130 | refines the recogniser of objects at a depth; terminates, mutual recursion and loop together |
| JsonReader.Reader.ReadArray | bench_json/json_c.c:132-145 | refines the recogniser of arrays at a depth; terminates |
| JsonReader.Reader.ReadValue | bench_json/json_c.c:147-158 | refines the value recogniser that ValueSound and ValueComplete tie to the grammar |
| JsonReader.Reader.Validate | bench_json/json_c.c:216-222 | accepts exactly the texts of the grammar nested at most 129 deep; trailing bytes are reported at the first byte after a whole JSON text and its white space; a rejection is reported at a place before which the text starts some such text and beyond which it does not, but for an unfinished literal name |
| JsonSound.CharsSound | bench_json/json_c.c:60-86 | whatever is accepted as a string body is the text of valid characters and escapes up to its closing quote |
| JsonSound.NumberSound | bench_json/json_c.c:89-110 | whatever is accepted as a number is the text of a number of the grammar |
| JsonSound.ValueSound | bench_json/json_c.c:112-158 | whatever is accepted as a value at a depth has a derivation tree standing there, nested no deeper than the limit leaves |
| JsonSound.AcceptsSound | bench_json/json_c.c:216-222 | every accepted text is the text of a valid document nested at most 129 deep |
| JsonComplete.CharsComplete | bench_json/json_c.c:60-86 | every string body of the grammar is accepted up to exactly its closing quote |
| JsonComplete.NumberComplete | bench_json/json_c.c:89-110 | every number of the grammar, followed by what may follow a value, is accepted up to its end |
| JsonComplete.ValueComplete | bench_json/json_c.c:112-158 | every value of the grammar that is not nested too deep is accepted up to exactly its end |
| JsonComplete.AcceptsExactly | bench_json/json_c.c:216-222 | the first phase accepts a text if and only if it is a JSON text nested at most 129 deep |
| JsonViable.RejectedThere | bench_json/json_c.c:216-219 | what stands before the reported place starts some JSON text nested at most 129 deep, and no longer part of the text does, but for a literal name that is not over |
| JsonScan.StringStopExact | bench_json/json_c.c:246-252 | skipping over a string body stops at its closing quote, escapes of every kind included |
| JsonScan.RunValue | bench_json/json_c.c:230-255 | over any value the scan adds exactly that value's string tokens and records, leaves the depth as it was and never goes below it |
| JsonScan.SpansAreObjects | bench_json/json_c.c:233-240 | each recorded span holds exactly the text of its object, one span for each direct object |
| JsonScan.ScanAgrees | bench_json/json_c.c:225-255 | on every document: depth never negative and zero at the end, strings skipped are the string tokens, records are the objects directly inside the top-level container, each with its exact text |
| JsonExtract.ReadInt | bench_json/json_c.c:171-177 | the signed integer after blanks inside the record |
| JsonExtract.ExtractInt | bench_json/json_c.c:163-182 | the integer after the first occurrence of the key's pattern in the record's text, 0 without one |
| JsonExtract.ExtractStrLen | bench_json/json_c.c:185-201 | the distance to the next quote after the first occurrence of the key's pattern, 0 without one |
| JsonExtract.SkipString | bench_json/json_c.c:248-252 | stops where StringStopExact says a string ends |
| JsonExtract.ScanRecords | bench_json/json_c.c:225-255 | the totals over the records of the scan, each of which lies inside the text |
| JsonExtract.TallyTree | bench_json/json_c.c:237-241 | totals over spans that hold the texts of some objects are the totals over those objects |
| JsonExtract.Process | bench_json/json_c.c:203-265 | answers exactly on JSON texts nested at most 129 deep, with totals over the direct objects of whatever tree derives the text |
| JsonFields.IntFieldExactly | bench_json/json_c.c:163-182 | for every object and key name: the integer part at the first element, at any depth, whose key ends in the quoted name right before its colon; 0 without one, for other values and after a line break |
| JsonFields.StrLenExactly | bench_json/json_c.c:185-201 | for every object and key name: the raw length, up to the first escaped quote, of the string at the first element whose key, colon and string stand next to each other; 0 without one |
| JsonFields.EndsIsWhole | bench_json/json_c.c:165 | a key without an escaped quote ends in the quoted name if and only if it is that name |
| JsonFields.FieldsAreOwn | bench_json/json_c.c:163-201 | so the fields are those of the object's own member of that name when nothing before it, inside its siblings included, matches and its key is next to its colon |
| JsonFields.NestedComesFirst | bench_json/json_c.c:170-179 | of {"x":{"id":1},"id":2} the id read is 1 |
| JsonFields.SpaceHides | bench_json/json_c.c:164-170 | of {"id" :5} the id read is 0 |
| JsonFields.TotalsExactly | bench_json/json_c.c:203-265 | on every document nested at most 129 deep the program answers the number of direct objects and the sums of these fields over them |
| JsonGen.Generate | bench_json/gen_json.py:21-37 | the document of the first n records for the least n whose bytes reach the target |
| JsonGen.DocLength | bench_json/gen_json.py:33-37 | the bytes counted on the way are those of the document, but for its last bracket |
| JsonGen.DocTreeText | bench_json/gen_json.py:25-37 | the generated document of any n is the text of a valid tree nested 3 deep, whose direct objects are its n records |
| JsonGen.RecordMeans | bench_json/gen_json.py:25-31 | the five members in order and their values: k, "user_" and k in eight digits or more, whether k is even, "t" with k mod 17 and "x" with k mod 6 |
| JsonGen.ScoreMeans | bench_json/gen_json.py:28 | the score is worth (k mod 1000) / 8, written with a point and no needless digits |
| JsonGen.RecordFields | bench_json/gen_json.py:25-32 | the extraction finds the id and the name length of every generated record |
| JsonGen.RecordTotals | bench_json/gen_json.py:25-37 | the totals of n records: n, n(n-1)/2 and the summed name lengths |
| JsonGen.NameLensExactly | bench_json/gen_json.py:27 | the names of n records have 13n characters if and only if n is at most 10^8 |
| JsonGen.EndToEnd | bench_json/json_c.c:203-265 | the program accepts the generated document of every n and reports n records and n(n-1)/2, and 13n exactly when n is at most 10^8 |
| Radix.ValueOfShow | docs/playground/fib.js:366-371 | the digits written for a number in a base read back as that number |
| Radix.ShowLength | docs/playground/fib.js:366-371 | a number takes at most e digits if and only if it is below base^e |
| Radix.DigitSpelt | docs/playground/fib.js:363-365 | the digits are those of the two alphabets, in order |
| Instrumenter.ScanIds | src/pgo.rs:423-434 | the nested loops compute the largest id of parameters and scanned instructions |
| Instrumenter.BuildPrologue | src/pgo.rs:438-472 | the prologue under the next ids, and how far the counter moves |
| Instrumenter.BuildEpilogue | src/pgo.rs:479-514 | the epilogue of a block by its terminator, and how far the counter moves |
| Instrumenter.InsertEpilogues | src/pgo.rs:478-515 | editing block after block in place gives each block its epilogue under its own ids |
| Instrumenter.InstrumentFunction | src/pgo.rs:423-515 | the edited function is the one that the theorems below are about |
| Instrumenter.IrModule.DeclareRuntime | src/pgo.rs:384-409 | the five runtime functions are declared with the signatures that InsertedDeclared is about, all else kept |
| Instrumenter.IrModule.InstrumentModule | src/pgo.rs:383-517 | every function but those of the runtime is instrumented, whatever the order of the loop |
| InstrumentSound.EraseAnnotate | src/pgo.rs:459-513 | erasing the noted profile calls from a trace gives the trace back |
| InstrumentSound.PrologueRuns | src/pgo.rs:438-472 | running the prologue changes only inserted ids and adds exactly its profile calls |
| InstrumentSound.EpilogueRuns | src/pgo.rs:479-514 | running an epilogue changes only inserted ids and adds exactly its profile call, with the value branched on |
| InstrumentSound.FindInserted | src/pgo.rs:436-515 | looking a block up by id finds the instrumented form of the block found before |
| InstrumentRun.BlockAgrees | src/pgo.rs:436-515 | from environments that agree on the original ids, a block and its instrumented form run to the same end, the trace annotated |
| InstrumentRun.FunctionAgrees | src/pgo.rs:383-517 | every run of the instrumented module is the original run with profile calls noted at entries, branches and exits |
| InstrumentNotes.RunNotes | src/pgo.rs:436-515 | in every run of the instrumented module: each entry of a function outside the runtime is followed by its hit, in main after setting the output file when a path is given and not empty, each conditional branch comes after its hit with the value branched on, each return of main after a flush, and no call of any name is added beyond these |
| InstrumentNotes.MainStarts | src/pgo.rs:438-457 | a run of main that starts at all begins with setting the output file and its own hit |
| InstrumentNotes.SkippedExactly | src/pgo.rs:411-419 | exactly the functions whose names start with datara_rt_pgo_ are left as they are |
| InstrumentFacts.MeaningPreserved | src/pgo.rs:383-517 | erasing profile calls from a run of the instrumented module gives the run of the original: same value, outcome, blocks and branches, for every function, arguments and fuel |
| InstrumentFacts.InsertedDefs | src/pgo.rs:423-515 | instrumenting adds exactly one definition for each inserted id, and none else |
| InstrumentFacts.SingleAssignmentKept | src/pgo.rs:423-515 | a function in SSA form stays so if and only if it defines none of the ids to be inserted |
| InstrumentFacts.ClashFreeExactly | src/pgo.rs:303-378 | a function is free of clashes if and only if no id it mentions gets a new definition |
| InstrumentFacts.ScanExactly | src/pgo.rs:303-378 | the scan finds the largest id that a parameter or a counted instruction mentions, 0 without one |
| InstrumentFacts.ScannedIsClashFree | src/pgo.rs:303-378 | it is free of clashes when parameters and counted instructions mention every id |
| Instrumenter.InsertedDeclared | src/pgo.rs:384-409 | every runtime call that instrumenting inserts is declared, with as many parameters as it has arguments |
| Instrumenter.RuntimeExactly | src/pgo.rs:384-409 | the five names declared, their signatures, and nothing else changed |
| InstrumentClash.CastsChangeMeaning | src/pgo.rs:375 | a function that is in SSA form and not free of clashes, with casts outside the scan, returns a value, and after instrumentation takes the other branch |
| Profile.ProfileData.RecordFunctionCall | src/pgo.rs:55-57 | one more call of this function, no other counter moves |
| Profile.ProfileData.RecordBranch | src/pgo.rs:63-72 | one more outcome of this branch, taken or not, no other counter moves |
| Profile.ProfileData.Replay | src/pgo.rs:55-72 | replaying the calls of a trace gives the counters that CountsAreExact is about |
| Profile.BranchNameInjective | src/pgo.rs:481 | the id of a branch tells its function and its block, for all names and numbers |
| Profile.CountsAreExact | src/pgo.rs:459-495 | after any instrumented run each function's count is the entries of its entry block in the original run, and each branch's counts are its outcomes there, on top of what the original counts by its own calls of the runtime |
| ProfileCalls.CallsAreExact | src/pgo.rs:436-476 | each function's count is its calls in the original run and the jumps back to its entry block there, on top of the original's own; there are none where no branch leads back to the entry |
| Layout.SortIds | src/pgo.rs:233-235 | the ids in strictly ascending order |
| Layout.FirstUnplaced | src/pgo.rs:276 | the lowest id not placed, or none when all are |
| Layout.PlaceBlocks | src/pgo.rs:229-278 | the loop ends with every id placed once: the entry first, each block followed by its preferred successor unless that is placed or missing, restarts at the lowest id |
| LayoutOrder.OrderExactly | src/pgo.rs:229-278 | the order spelt out by the counters: after a conditional branch its else block when ten outcomes or more were counted and at most a fifth of them taken, else its then block, after a jump its target; where that is placed or missing, the lowest id left; the entry first |
| LayoutOrder.HotFollows | src/pgo.rs:229-278 | laid out by the counters of an instrumented run: the block that the original run went to in at least four fifths of ten or more outcomes of a branch comes next |
| Layout.LayoutFunction | src/pgo.rs:177-279 | only a measured profile with a biased branch changes the order |
| LayoutOrder.BiasedExactly | src/pgo.rs:90-102 | a branch is biased exactly when ten outcomes or more were counted and at least four fifths of them went one way |
| Layout.PermutationExactly | src/pgo.rs:229-278 | the new order is a permutation of the blocks if and only if block ids are distinct |
| Layout.SameCodeExactly | src/pgo.rs:229-278 | the laid out function holds the same block under every id if and only if, of the blocks with one id, the first and the last are the same |
| Layout.LayoutKeepsMeaning | src/pgo.rs:229-278 | where that holds, so with distinct ids, no run of the module changes, for any function, arguments, fuel and history |
| Layout.DistinctFirstIsLast | src/dmir/verifier.rs:26-29 | it holds for every function that the verifier lets pass |
| Layout.LayoutChangesMeaning | src/pgo.rs:229-278 | a function with two blocks of one id, with a biased branch, that returns nothing, and its argument once it is laid out in the order of the source |
| RunSame.FunctionSame | src/pgo.rs:278 | a run depends on the blocks of a function only through the block found under each id |
| Fnv.MixBijective | src/incremental.rs:66-67 | for a fixed byte a hash step is a bijection of the 64-bit state |
| Fnv.MixByteInjective | src/incremental.rs:66-67 | for a fixed state different bytes give different states |
| Fnv.FoldInjective | src/incremental.rs:65-68 | hashing on keeps different states different, and only those |
| Fnv.OneByteSeparates | src/incremental.rs:65-68 | two texts that differ in one byte never collide |
| Fnv.KnownStates | src/incremental.rs:64-68 | the published values of FNV-1a for no byte and for the letter a |
| Fnv.KnownHashes | src/incremental.rs:62-70 | their texts, cbf29ce484222325 and af63dc4c8601ec8c |
| Fnv.Hex16Reads | src/incremental.rs:69 | sixteen lower-case digits that read back as the number |
| Fnv.Hex16Injective | src/incremental.rs:69 | the sixteen-digit form is injective on 64-bit numbers |
| Fnv.CalculateHash | src/incremental.rs:62-70 | the loop computes the hash that HashSeparates is about |
| Fnv.HashSeparates | src/incremental.rs:62-70 | the hash texts of two contents that differ in one byte differ |
| Fnv.AddBytes | build.rs:283-286 | the inner loops fold the bytes from any state |
| Fnv.ComputeSemanticHash | build.rs:274-296 | one fold over path, separator and content of every readable file |
| Fnv.SemanticHashIs | build.rs:274-296 | it is the hash of all paths and contents in one stream, with a byte 255 after each path |
| Fnv.SemanticHashSeparates | build.rs:280-295 | changing one byte of one readable source changes the semantic hash |
| Incremental.FirstMatchUnique | src/incremental.rs:139-149 | the fallback by name has one answer, whatever the order of the map |
| IncrementalSound.VisitSettles | src/incremental.rs:92-115 | what a successful walk has visited is reachable and unchanged, with all its dependencies visited |
| IncrementalSound.VisitSucceeds | src/incremental.rs:92-115 | a walk never fails while everything reachable is unchanged, whatever the keys |
| IncrementalSound.ResolveAlike | src/incremental.rs:119-150 | a name resolves to one file, whichever slashes the path it is seen from has |
| IncrementalSound.FreshExactly | src/incremental.rs:87-115 | when reachable paths with one key name one file: transitively fresh if and only if every reachable module is recorded, readable and hash-equal, cycles included |
| IncrementalSound.FreshWhenUnchanged | src/incremental.rs:87-115 | one direction of that without any condition on keys |
| IncrementalSound.TransitiveIsStronger | src/incremental.rs:82-90 | transitively fresh implies fresh |
| IncrementalEdits.ReachesSame | src/incremental.rs:92-150 | edits of contents leave the graph as it is |
| IncrementalEdits.NoMissedEdit | src/incremental.rs:62-150 | once one byte of any reachable module is replaced, or the module cannot be read, a fresh module is not transitively fresh any more, whatever else was edited |
| IncrementalEdits.ReadsOnce | src/incremental.rs:92-115 | a walk reads at most one file for each key, and none for the keys visited before |
| IncrementalEdits.UnreadVisit | src/incremental.rs:92-115 | a walk does not depend on the contents of files it does not read |
| IncrementalEdits.KeysExactly | src/incremental.rs:35-37 | with everything recorded as it is: the walk is right after every edit of contents if and only if reachable paths with one key name one file |
| IncrementalEdits.EditsExactly | src/incremental.rs:62-150 | under the same condition, and only then, every edit of one byte is noticed, where no reachable file is empty |
| IncrementalNames.BesideFirst | src/incremental.rs:119-150 | a plain name stands for the file beside the module with .dtr, else without, else with .dtr below src, else the lowest recorded key of that name: on Windows and elsewhere, for every directory |
| IncrementalNames.AbsoluteFirst | src/incremental.rs:119-126 | an absolute path to a file stands for that file |
| IncrementalNames.EmptyName | src/incremental.rs:119-122 | the empty name for nothing |
| IncrementalNames.NamedExactly | src/incremental.rs:139-146 | a recorded module has the name of its file, and that name without its last extension |
| IncrementalPaths.RootChild | src/incremental.rs:127-137 | parent and join right below a root, and on a drive |
| IncrementalPaths.LibPortable | src/incremental.rs:119-137 | the paths of Windows and of other systems meet what the theorems ask of paths |
| IncrementalPaths.FreshOnWindows | src/incremental.rs:87-115 | on Windows the walk is right on every graph, with no condition |
| IncrementalPaths.FreshWithoutBackslash | src/incremental.rs:87-115 | elsewhere it is right when no reachable path has a backslash |
| IncrementalPaths.KeysCollide | src/incremental.rs:35-37 | where a backslash is an ordinary character: two files with one key, and the walk answers fresh although the second has changed |
| IncrementalRecords.RecordedExactly | src/incremental.rs:152-167 | a module just recorded is fresh exactly for contents of the recorded hash, and depends exactly on what the recorded names stand for |
| IncrementalRecords.RecordedIsFresh | src/incremental.rs:152-167 | after every reachable module has been recorded as it is, in any order and however often, the root is transitively fresh |
| IncrementalRecords.InvalidatedExactly | src/incremental.rs:169-172 | when no reachable module lists a dependency that no file fits and that its name gives to this key: invalidating a module makes stale exactly the roots that reach its key |
| IncrementalRecords.LostNamesExactly | src/incremental.rs:138-149 | otherwise, when no second key has such a name: exactly the roots that reach the key without these dependencies |
| IncrementalRecords.InvalidatedByName | src/incremental.rs:138-149 | a dependency found by name alone is lost with its key, and what depends on it stays fresh |
| IncrementalCache.Cache.IsModuleFresh | src/incremental.rs:72-80 | true exactly when the module is recorded with the hash of this content |
| IncrementalCache.Cache.FirstKey | src/incremental.rs:138-149 | the lowest cache key of that name, or none |
| IncrementalCache.Cache.ResolveDependency | src/incremental.rs:119-150 | the first of: an existing absolute path, the candidates in order, the lowest key of that name |
| IncrementalCache.Cache.CheckTransitive | src/incremental.rs:92-115 | the answer and the visited set of the walk that FreshExactly is about; terminates as visited keys grow |
| IncrementalCache.Cache.IsModuleFreshTransitive | src/incremental.rs:87-90 | true exactly when the walk from an empty visited set succeeds |
| IncrementalCache.Cache.UpdateModule | src/incremental.rs:152-167 | the module's fingerprint is replaced by the one RecordedIsFresh is about, no other |
| IncrementalCache.Cache.InvalidateModule | src/incremental.rs:169-172 | the module's fingerprint is removed, no other |
| CLexing.CLexer.Advance | src/cimport/lexer.rs:87-97 | one character on, and line and column stay the newline and column count of what is consumed |
| CLexing.CLexer.SkipLineComment | src/cimport/lexer.rs:134-141 | stops at the end of the line, not beyond |
| CLexing.CLexer.SkipBlockComment | src/cimport/lexer.rs:145-154 | stops just after the first closing, or at the end of the text |
| CLexing.CLexer.ReadString | src/cimport/lexer.rs:161-204 | the unescaped contents that QuotedEscaped inverts, and the end of the literal |
| CLexing.CLexer.ReadNumber | src/cimport/lexer.rs:214-260 | the literal's value and end that LiteralExactly is about |
| CLexing.CLexer.ReadSymbol | src/cimport/lexer.rs:300-330 | one symbol, three dots, or a character passed over |
| CLexing.CLexer.Step | src/cimport/lexer.rs:102-333 | one round of the loop reads what stands at the cursor |
| CLexing.CLexer.Tokenize | src/cimport/lexer.rs:99-342 | the tokens of the whole text, each with the line and column of its first character; ends at the end of the text |
| CTokens.LineStart | src/cimport/lexer.rs:90-95 | the last line start before a position, from which columns count |
| CPlaces.PlaceOrder | src/cimport/lexer.rs:87-97 | later positions have later places, so places tell positions apart |
| CPlaces.PlaceIs | src/cimport/lexer.rs:87-97 | lines are counted by line breaks and columns by characters since the last one, both from 1 |
| CPlaces.LexAscends | src/cimport/lexer.rs:99-342 | tokens come in the order of their places, with one Eof, the last, at the end of the text |
| CLiterals.LiteralMeaning | src/cimport/lexer.rs:246-253 | prefix trimming and the three conversions give the value that ISO C gives, 0 for what is no constant or not below 2^63 |
| CLiterals.LiteralExactly | src/cimport/lexer.rs:214-260 | wherever a literal starts, its token has that value of its longest run of digits and ends after the longest run of u, U, l and L |
| CLiterals.LiteralRead | src/cimport/lexer.rs:214-260 | every hexadecimal, octal or decimal constant with any run of u, U, l and L is read whole with its C value |
| CRoundTrip.QuotedEscaped | src/cimport/lexer.rs:163-204 | unescaping inverts escaping for every string |
| CRoundTrip.KeywordKind | src/cimport/lexer.rs:274-293 | every keyword's spelling is read as that keyword |
| CRoundTrip.NameKind | src/cimport/lexer.rs:274-294 | a word is a name if and only if it is no keyword |
| CRoundTrip.NameRead | src/cimport/lexer.rs:264-272 | any text of ASCII letters, digits and underscores that does not start with a digit is read as one word |
| CRoundTrip.SymbolCharKind | src/cimport/lexer.rs:302-319 | every symbol's character is read as that symbol, and starts no word |
| CRoundTrip.OtherRead | src/cimport/lexer.rs:320-331 | every character that starts nothing is passed over alone |
| CRoundTrip.OtherEscape | src/cimport/lexer.rs:172-194 | a backslash before any character but n, t, r and 0 stands for that character |
| CRoundTrip.OpenString | src/cimport/lexer.rs:161-204 | a string without an end takes the rest of the text |
| CRoundTrip.OpenComment | src/cimport/lexer.rs:143-155 | so does a block comment |
| CRoundTrip.TokenRead | src/cimport/lexer.rs:102-333 | every token is read back whole from its spelling, wherever it stands |
| CRoundTrip.CommentRead | src/cimport/lexer.rs:143-155 | a block comment is passed over whole |
| CRoundTrip.GapRead | src/cimport/lexer.rs:107-155 | blanks, block comments and line continuations are passed over whole and give no token |
| CRoundTrip.LineEndIs | src/cimport/lexer.rs:132-141 | a line comment is passed over up to the end of its line |
| CRoundTrip.RoundTrip | src/cimport/lexer.rs:99-342 | lexing any printed sequence of names, 63-bit integers, strings, keywords, symbols and newlines, with any gaps and comments, gives its kinds back, each at the place where it was printed, then Eof |
| Framing.Client.OnData | editors/vscode/extension.js:41-53 | a chunk delivers exactly the complete messages of buffer and chunk, and keeps the rest |
| Framing.MatchExactly | editors/vscode/extension.js:27 | the pattern matches exactly "Content-Length: ", one or more digits and an empty line, and gives their number and end |
| Framing.SearchExactly | editors/vscode/extension.js:25-29 | the leftmost match counts |
| Framing.MatchStays | editors/vscode/extension.js:25-29 | a header complete in a buffer stays the same when more arrives |
| Framing.SearchStays | editors/vscode/extension.js:25-29 | more input never moves the leftmost header match |
| Framing.DrainTwice | editors/vscode/extension.js:44-52 | draining in two goes is draining at once, on any bytes |
| Framing.ChunkingInvariance | editors/vscode/extension.js:41-53 | however a stream of any bytes is cut into chunks, the same messages are delivered and the same bytes kept |
| Framing.FrameHeader | editors/vscode/extension.js:61-66 | the decoder finds the length and the end of the header that the encoder writes, whatever follows |
| Framing.FramesDrain | editors/vscode/extension.js:61-66 | framing any bodies and draining gives them back, with nothing left over |
| Framing.ClientReceives | editors/vscode/extension.js:41-66 | for any bodies and any cutting of their frames, exactly the bodies in order and an empty buffer |
| FramedReading.HeaderLength | tools/lsp_demo_log.py:50-53 | the last labelled line decides, 0 without one, an exception for what is no integer |
| FramedReading.LinesExactly | tools/lsp_demo_log.py:51 | the header lines are the parts between line breaks |
| FramedReading.LabelledExactly | tools/lsp_demo_log.py:52 | a labelled line starts with content-length: in any mixture of cases |
| FramedReading.NoLabel | tools/lsp_demo_log.py:50-53 | without one the length is 0 |
| FramedReading.LastLabelDecides | tools/lsp_demo_log.py:51-53 | with several the last one decides, unless a number before it raises |
| FramedReading.NumberRead | tools/lsp_demo_log.py:53 | a number with white space around it and an optional sign |
| FramedReading.NotANumber | tools/lsp_demo_log.py:53 | any other character raises |
| FramedReading.FramedReader.Feed | tools/lsp_demo_log.py:48-59 | one byte delivers exactly the messages it completes |
| FramedReading.FramedReader.Loop | tools/lsp_demo_log.py:43-59 | the thread's loop over a whole stream |
| FramedReading.DrainTwice | tools/lsp_demo_log.py:49-59 | taking messages in two goes is taking them at once, the end of the thread included, if and only if nothing more comes or no header taken first has a negative length that cuts into what follows |
| FramedReading.ByteByByte | tools/lsp_demo_log.py:43-59 | reading byte by byte delivers what one look at the whole stream delivers if and only if no header states a negative length that cuts into what follows |
| FramedReading.FramesRead | tools/lsp_demo_log.py:31-33 | framing any bodies and reading gives them back, with nothing left over |
| FramedReading.DecodersAgree | tools/lsp_demo_log.py:31-59 | both decoders, on what either encoder writes, deliver exactly the messages |
| Requests.RequestTable.Request | editors/vscode/extension.js:68-73 | a new id waits |
| Requests.RequestTable.Expire | editors/vscode/extension.js:74-79 | the end of the grace period resolves a request that still waits, with null |
| Requests.RequestTable.HandleResponse | editors/vscode/extension.js:115-119 | a response resolves a request that still waits |
| Requests.ResolvedByFirstAnswer | editors/vscode/extension.js:68-119 | in any run each request is resolved at most once, with its first answer, and waits exactly until it has one |
| LinearMemory.AlignedExactly | docs/playground/fib.js:32 | the aligned size is a multiple of 8 that covers the size if and only if size + 7 is below 2^31 |
| LinearMemory.GrowsLeast | docs/playground/fib.js:31-40 | memory grows only when the block does not fit, by the fewest pages of 65536 zeros that will do, and fails exactly when they exceed the limit |
| LinearMemory.ReadExactly | docs/playground/fib.js:21-29 | what is read at any pointer: nothing at null, an exception without room for a length, else as many bytes as the length says, lowest byte first, or as memory has |
| LinearMemory.LittleEndian | docs/playground/fib.js:49 | a length is written with its lowest byte first |
| LinearMemory.Loader.Grow | docs/playground/fib.js:37 | a larger buffer with the old bytes and zeros after them |
| LinearMemory.Loader.AllocateMemory | docs/playground/fib.js:31-40 | the old bump pointer is returned after the buffer has grown by the pages needed, or growth fails |
| LinearMemory.Loader.WriteString | docs/playground/fib.js:45-52 | length and bytes at the new pointer, the rest of memory kept, and every exception |
| HeapRuns.AllocatedSound | docs/playground/fib.js:31-40 | an allocation that fits keeps all memory, advances by at least its size and lies inside the buffer |
| HeapRuns.WrittenSound | docs/playground/fib.js:45-52 | a string write keeps everything below it and leaves its string in place |
| HeapRuns.HeapDiscipline | docs/playground/fib.js:31-52 | after any run from any memory: blocks 8-aligned, at or above 65536, disjoint, inside the buffer, every string in place |
| HeapRuns.StringsReadBack | docs/playground/fib.js:21-52 | reading a written string gives its bytes after any further operations |
| HeapRuns.RunSucceeds | docs/playground/fib.js:31-52 | with pages enough for the sizes every operation of a run returns its block |
| HeapRuns.NextIsClearExactly | docs/playground/fib.js:31-40 | the next allocation starts clear of this one if and only if size + 7 is below 2^31 |
| Formatting.ScaleMantissa | docs/playground/fib.js:67-76 | the loop and the truncating division give the mantissa on the requested grid |
| Formatting.Dec64Fixed | docs/playground/fib.js:66-84 | the text of that number, "-0." included |
| Formatting.RoundedExactly | docs/playground/fib.js:66-76 | the printed number is the nearest of its grid, halves away from zero, if and only if fewer than four digits are asked for or it is zero; exact multiples are printed exactly; from four digits on it is the mantissa times 10^p |
| Formatting.FixedReads | docs/playground/fib.js:77-83 | the text denotes exactly r / 10^p, with p digits after the point |
| Formatting.FixedShape | docs/playground/fib.js:77-84 | a minus sign exactly for negative numbers, no needless zeros in front, p digits behind |
| Formatting.PrintedMeans | docs/playground/fib.js:66-84 | for any precision, kept between 0 and 40: the text denotes the nearest number below four digits, and the mantissa times 10^p from there on |
| Formatting.IntToStrRadix | docs/playground/fib.js:361-374 | the digits of v modulo 2^64 in a base from 2 to 16 |
| Formatting.RadixReads | docs/playground/fib.js:361-374 | they read back as v modulo 2^64 in the base asked for, in 16 where that is not from 2 to 16, with no leading zero, in at most 64 digits of the alphabet |
| Embed.Runtime.Init | src/c_api/mod.rs:59-71 | an empty table and no active module |
| Embed.Runtime.LoadModule | src/c_api/mod.rs:79-189 | success enters the module and makes it active, failure leaves the state alone |
| Embed.Runtime.CallFn | src/c_api/mod.rs:201-375 | the reply in the order of the checks; a failed call leaves the result cell and the state alone |
| EmbedRuns.RepliesExactly | src/c_api/mod.rs:201-375 | every reply of a call and exactly when it is given; a result is what the active module's function makes of the counted arguments in their order, at most eight |
| EmbedRuns.LoadsOne | src/c_api/mod.rs:79-189 | a load adds or replaces one module, keeps the others and makes it active |
| Embed.Runtime.Shutdown | src/c_api/mod.rs:379-387 | no state |
| Embed.Module.MoveFrom | include/datara.hpp:141-144 | the new wrapper takes over path and flag, the old one is unloaded, the runtime is left alone |
| Embed.Module.Reset | include/datara.hpp:189-195 | a loaded wrapper shuts the runtime down, an unloaded one does nothing |
| Embed.Module.Load | include/datara.hpp:156-170 | reset, then an empty runtime with at most the new module; a throw leaves the wrapper unloaded |
| Embed.Module.Call | include/datara.hpp:174-187 | the runtime's reply, or that the wrapper is not loaded; the state is kept |
| Embed.Module.Take | include/datara.hpp:146-154 | move assignment: the target is reset and takes over, the source is unloaded, nothing on self-assignment |
| EmbedRuns.LoadsOnly | include/datara.hpp:156-170 | a wrapper's load leaves its module alone in the runtime, under the path as C reads it, and a failed one none |
| EmbedRuns.UpToNulExactly | include/datara.hpp:160-162 | C reads the path up to its first NUL |
| EmbedRuns.LoadRealises | include/datara.hpp:156-170 | a load with no other wrapper loaded makes the runtime hold exactly its module |
| EmbedRuns.MoveRealises | include/datara.hpp:141-144 | move construction keeps the module active under its new owner |
| EmbedRuns.AssignRealises | include/datara.hpp:146-154 | move assignment does too, and unloads a loaded target |
| EmbedRuns.StepRealises | include/datara.hpp:125-200 | every step keeps: each loaded wrapper's module is active and present, at most one is loaded, and its reply is the one ownership promises |
| EmbedRuns.RunsAsPromised | include/datara.hpp:125-200 | so in every run that loads one wrapper at a time, callers see exactly what ownership by wrapper promises |
| EmbedRuns.ProcessRuns | src/c_api/mod.rs:232-267 | and never "not initialized", "no module loaded" or "active module not found" |
| EmbedRuns.UnloadedUntilLoad | include/datara.hpp:174-195 | after a reset, whatever other wrappers do, calls fail until the wrapper is loaded or moved into |
| EmbedRuns.LoadKeepsExactly | include/datara.hpp:156-170 | with several wrappers a load keeps every loaded wrapper's module active if and only if the others have the file just loaded |
| EmbedRuns.ResetKeepsExactly | include/datara.hpp:189-195 | resetting a loaded wrapper does if and only if no other is loaded |
| EmbedRuns.DestroyKeepsExactly | include/datara.hpp:133-135 | destroying a loaded wrapper does if and only if no other is loaded |
| EmbedRuns.AssignKeepsExactly | include/datara.hpp:146-154 | moving another wrapper into a loaded one does if and only if no other is loaded, the one moved from included |
| EmbedRuns.OthersKeep | include/datara.hpp:125-187 | construction, move construction and calls always do |
| EmbedRuns.SecondLoadReplaces | include/datara.hpp:156-195 | with a second wrapper loaded the first one's calls reach the second's module, and after its failed load or its reset no module |

## Left out

Statements that hold on less than one might expect:

- InstrumentFacts.MeaningPreserved: needs that no inserted id clashes with an id the function mentions, and that the module defines none of the profile runtime's functions itself. The other half is not claimed, because a clash with an id that is never read again changes nothing; ClashFreeExactly and SingleAssignmentKept are exact, and CastsChangeMeaning shows a clash that does change the result.
- Profile.CountsAreExact: needs the same. The runtime's fixed tables and the length limit of its names are not part of this model.
- Layout.LayoutKeepsMeaning: needs that of the blocks with one id the first and the last are the same, which SameCodeExactly shows to be what keeping the code takes. A run that never gets to such a block does not change either.
- Layout.LayoutFunction: a bias is a ratio of integers here; the source divides floating-point numbers.
- IncrementalSound.FreshExactly: needs that reachable paths with one cache key name one file; KeysExactly says that this is exactly what it takes, and FreshOnWindows and FreshWithoutBackslash when it holds. Paths that differ in more than their slashes are taken for different files, so that one file under two keys may be edited under each.
- IncrementalEdits.NoMissedEdit: needs the same, which EditsExactly shows to be exact, and is about one replaced byte. Other edits are noticed unless 64-bit hashes collide.
- IncrementalRecords.LostNamesExactly: where a second key has a lost name, the dependency stands for that key from then on, and FreshExactly says what the walk answers on the changed cache.
- IncrementalPaths.LibPortable: paths without "." components, and drive letters as the only prefixes on Windows.
- JsonExtract.Process: sums are unbounded integers, where C has 64-bit ones, and reading the file is not modelled.
- JsonReader.Reader.Validate: a misspelt literal name is reported at its first letter, so that a part of it may still go on.
- JsonFields.IntFieldExactly: names to search for have no quote, backslash, comma or colon; the program searches for "id" and "name" only.
- CRoundTrip.RoundTrip: a line continuation right after a word is not covered; C would join the lines into one word, the lexer ends the word.
- Framing.ClientReceives: frames carry a Content-Length header only, as both encoders write them. The editor's pattern accepts no header line after it.
- Framing.FrameHeader: lengths are integers of any size, where JavaScript has them exact below 2^53.
- HeapRuns.HeapDiscipline: sizes fit in 32 bits with their alignment; NextIsClearExactly says what happens beyond. Compiled code that writes into linear memory by itself is not part of a run.
- Formatting.Dec64Fixed: the number of digits is an integer; how a float argument is converted is not modelled.
- EmbedRuns.RunsAsPromised: loads happen while no other wrapper is loaded; the lemmas after it give the exact condition for every step otherwise.

Parts of the repository that are not modelled:

- `src/pgo.rs`: loop trip counts and allocation counters, which nothing here reads, inlining, `optimize_function` and `verify_module` before and after the layout, traces and reports, profile files, and DMIR instructions for fields, methods, structs, floats, assembly and volatile accesses.
- `src/incremental.rs`: JSON persistence and clocks. The disk is a parameter; a changed set of existing files is not an edit.
- `build.rs`: collecting and sorting the files.
- `src/cimport/lexer.rs`: what counts as a letter or numeral outside ASCII is a parameter.
- `editors/vscode/extension.js` and `tools/lsp_demo_log.py`: JSON inside the bodies, so also the exceptions of its parsers; processes, locks and the editor's user interface. Python's limit on the digits of an integer.
- `docs/playground/fib.js`: text encoding (strings are bytes), lists, maps, DOM, graphics, float formatting, ownership counters, and allocation before the memory exists.
- `src/c_api/mod.rs`: compilation is a given table of functions or a failure, functions are pure, names and paths are valid text, paths are compared as text, and threads are left out.
- `include/datara.hpp`: string views, spans and outcomes, which only give access, and calls of the C functions beside the wrappers.
- The rest of the compiler, its optimiser, ownership analysis and the C runtime.
