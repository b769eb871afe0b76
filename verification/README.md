# Models of PostgreSQL 12.5 contrib modules

A Dafny model of eight pieces of `contrib`, with proofs of what they are for:

- **intarray queries** (`IntQuery*`): a boolean query text is tokenised, turned
  into postfix with an operator stack, linked and evaluated. The parser accepts
  exactly a grammar, evaluation by links is evaluation of the tree, printing and
  parsing are inverse up to regrouping of AND, and index searches lose nothing.
- **intarray keys** (`IntSets`, `IntRanges`, `GistSplit`, `IntGist`, `IntBig`): merges of
  sorted arrays, in-place compression to 100 ranges that is optimal among all groupings,
  expansion, signatures, page splits, and searches of the trees built from them.
- **bloom** (`Bloom*`): the generator, signatures, pages, and the index as a state
  machine whose steps are what a process does between taking and releasing buffer
  locks. Invariants, placement of tuples, completeness of scans and bulk deletion,
  and absence of deadlock hold over every interleaving.
- **hstore** (`Buffers`, `Hstore*`): the packed layout as a finite map. Every operation is a
  method over buffers whose result is the exact packed form of the map operation;
  the layout is canonical; text output and input are inverse within exact limits of
  memory; old values upgrade in place.
- **btree_gist** (`ByteOrder`, `BtreeVar`): bounds cut past their common prefix, and
  page splits that cut them further on.
- **cube** (`Cube`, `CubeOrder`, `CubeDistance`): boxes of mixed dimension over reals,
  searched, sorted and scanned nearest first.
- **amcheck** (`Amcheck*`): the page checks and the level walk over possibly corrupt links,
  what a pass says of the order of a level and of what is below an item, and when the
  walk never ends.
- **isn** (`Isn*`): hyphenating printer, short forms and tolerant reader.

Imperative code is modelled by methods with loops, arrays and classes, each proved
against a specification function or a direct statement; recursive and expression
code by functions. Reads of memory, clocks, the lock manager, write-ahead logging
and the catalogs are parameters or are not part of the model.

## Reading the model

- Integers are unbounded in Dafny; 16-bit links, 32-bit generator arithmetic, the
  30-bit hstore positions and the integer limits of range compression are written
  out. Characters stand for bytes. Coordinates are reals.
- A method that takes a ghost list of pairs, nodes or items takes the abstract value
  that its concrete argument stands for; the argument determines it.
- Where the code falls short of a property, the model keeps the code, one member gives
  a concrete input, and another the exact condition:
  16-bit links (`IntQueryPrint.LargeOperandGoesWrong`, `IntQuery.LinksExactIffFit`);
  large leaf arrays (`IntGist.BigRowsGoWrong`, `IntGist.SearchIsExactIff`);
  large hstores as text (`HstoreLimits.TooManyToRead`, `HstoreLimits.TooLongToPrint`,
  `HstoreIo.RoundTrip`); the fast track of hstore upgrades
  (`HstoreUpgrade.NullBecomesEmpty`, `HstoreUpgrade.Upgrade`); page splits of btree_gist
  (`BtreeVar.SplitLoses`, `BtreeVar.SplitKeepsIff`); contained-by searches of cube
  (`Cube.ContainedByLost`, `Cube.ContainedByIff`) and its sort order (`CubeOrder.Cycle`,
  `CubeOrder.TransitiveIff`); levels with empty pages in amcheck
  (`AmcheckCases.EmptyPageHides`, `AmcheckOrder.LevelRisesIff`), items two levels below a key
  (`AmcheckCases.ItemEscapes`, `AmcheckOrder.ItemsCoverIff`), and a walk without end
  (`AmcheckCases.HalfDeadCircle`, `Amcheck.EndlessIff`); short forms of isn, which cut digits
  off by design (`IsnShort.LostNumbers`, `IsnCrop.ShortRoundTrip`).
- A method cannot run for ever in Dafny. `AmcheckPage.StepRight` and `Amcheck.CheckLevel`
  remember the blocks seen and give up at the point from which the code goes round.
- Cube takes missing dimensions as zero everywhere but in containment, which does not
  look at dimensions only the first box has; the model follows the code.

## Model

| member | source | states |
|---|---|---|
| IntQuery.FindOprnd | postgresql-12.5/contrib/intarray/_int_bool.c:440-471 | Sets every back-link in place: afterwards the items below the position are the linked form of the query whose postfix they hold, and the position ends just below it |
| IntQuery.LinksExactIffFit | postgresql-12.5/contrib/intarray/_int_bool.c:440-471 | The 16-bit links name the left operands exactly if and only if every right operand has at most 32767 items |
| IntQuery.ExecuteMeansEval | postgresql-12.5/contrib/intarray/_int_bool.c:266-295 | With right operands of at most 32767 items, evaluation by links equals the truth value of the query tree, with negations believed or, for lossy keys, taken as true |
| IntQuery.WrappedLinkLeaves | postgresql-12.5/contrib/intarray/_int_bool.c:266-295 | When the right operand of the root has 32768 to 65535 items its link is not negative, and evaluation leaves the items or meets the same item again instead of giving a truth value |
| IntQuery.LossyKeepsAnswers | postgresql-12.5/contrib/intarray/_int_bool.c:266-295 | On any over-approximation of an array the lossy evaluation accepts every query the array satisfies |
| IntQuery.ContainsRequiredValueMeansRequired | postgresql-12.5/contrib/intarray/_int_bool.c:364-397 | With right operands of at most 32767 items, the link-following search for a required value computes its definition on the tree |
| IntQuery.RequiredValueIsPresent | postgresql-12.5/contrib/intarray/_int_bool.c:364-397 | When a value is required, every satisfying array contains one of the values of the query |
| IntQueryText.QueryTextParses | postgresql-12.5/contrib/intarray/_int_bool.c:48-224 | Completeness: every text of the grammar, with NOT over AND over OR, AND and OR left associative, and pending operators within the stack of 16, is turned into the postfix of its tree |
| IntQueryText.ParsedIsQueryText | postgresql-12.5/contrib/intarray/_int_bool.c:48-224 | Soundness: every text the parser finishes is a text of the grammar |
| IntQueryParser.WorkState.GetToken | postgresql-12.5/contrib/intarray/_int_bool.c:48-131 | The character loop with its number buffer returns the token, and reaches the state, that the token function gives |
| IntQueryParser.WorkState.PushQuery | postgresql-12.5/contrib/intarray/_int_bool.c:136-147 | Appends one node to the output list |
| IntQueryParser.WorkState.MakePol | postgresql-12.5/contrib/intarray/_int_bool.c:153-224 | The recursive parser with its operator array computes the specification: same output, same errors |
| IntQueryParser.BqarrIn | postgresql-12.5/contrib/intarray/_int_bool.c:477-541 | A text is accepted if and only if it is in the grammar and not too long, and the items are the linked form of its tree; the two kinds of error never hit a text of the grammar |
| IntQueryParser.OneMeaning | postgresql-12.5/contrib/intarray/_int_bool.c:153-224 | All readings of one text by the grammar have the same tree |
| IntQueryParser.ParsedQueryMeans | postgresql-12.5/contrib/intarray/_int_bool.c:266-295 | With right operands of at most 32767 items, evaluating the items of a parsed text gives the value of the tree the grammar reads from it |
| IntQueryPrint.DecReadsBack | postgresql-12.5/contrib/intarray/_int_bool.c:564-585 | The decimal form of any 32-bit integer is read back as that integer by the number scanner |
| IntQueryPrint.Infix.Append | postgresql-12.5/contrib/intarray/_int_bool.c:553-562 | The doubling buffer takes the string whole, and fails exactly when the space reserved would need more than one allocation |
| IntQueryPrint.Infix.Run | postgresql-12.5/contrib/intarray/_int_bool.c:564-638 | The printer walks the items backwards and appends exactly the text of the query that ends there; it fails exactly when the most it reserves on the way passes the largest buffer |
| IntQueryPrint.BqarrOut | postgresql-12.5/contrib/intarray/_int_bool.c:641-661 | A non-empty query prints as the text function says, unless the space it reserves passes the largest buffer; an empty one is refused |
| IntQueryPrint.PeakIsLength | postgresql-12.5/contrib/intarray/_int_bool.c:553-562 | The space reserved at any moment is above the length of the whole text by at most twelve |
| IntQueryPrint.PrintedIsQueryText | postgresql-12.5/contrib/intarray/_int_bool.c:564-638 | Every printed text is in the grammar, and its tree is the query with AND regrouped to the left |
| IntQueryPrint.CanonMeans | postgresql-12.5/contrib/intarray/_int_bool.c:564-638 | Regrouping AND to the left changes neither the truth value on any array nor the number of items |
| IntQueryPrint.CanonPrints | postgresql-12.5/contrib/intarray/_int_bool.c:564-638 | A query and its regrouped form print alike |
| IntQueryPrint.PrintThenParse | postgresql-12.5/contrib/intarray/_int_bool.c:48-224 | Parsing the printed text of any query of 32-bit values that is not too long succeeds, and gives the query up to regrouping of AND |
| IntQueryPrint.PrintHasNoNul | postgresql-12.5/contrib/intarray/_int_bool.c:564-638 | A printed text is a C string: no NUL inside |
| IntQueryPrint.LargeOperandGoesWrong | postgresql-12.5/contrib/intarray/_int_bool.c:440-471 | The text of 1 AND a chain of 16385 to 32768 ones joined by OR is accepted, its link is not the left operand, and evaluation gives no truth value |
| IntQueryGin.QueryExtract | postgresql-12.5/contrib/intarray/_int_gin.c:28-56 | The entries are the values in item order, and whether one of them is needed is what following the links finds, with true links the definition on the tree; an empty query asks for nothing |
| IntQueryGin.BoolConsistent | postgresql-12.5/contrib/intarray/_int_bool.c:336-356 | Mapping the check vector to the items and evaluating gives the decision, for any links |
| IntQueryGin.GinAgreesWithBoolop | postgresql-12.5/contrib/intarray/_int_gin.c:33-56 | The decision on the check vector of a row is the evaluation of the operator on the row, for any links; and with true links an inverted index, in default or in full mode, returns exactly the rows that satisfy the query |
| IntSets.InnerContains | postgresql-12.5/contrib/intarray/_int_tool.c:14-47 | The two-pointer loop decides set inclusion of increasing arrays |
| IntSets.InnerOverlap | postgresql-12.5/contrib/intarray/_int_tool.c:49-76 | The two-pointer loop decides whether increasing arrays share an element |
| IntSets.InnerUnion | postgresql-12.5/contrib/intarray/_int_tool.c:78-133 | The merge of two increasing arrays is increasing and has the elements of both |
| IntSets.InnerInter | postgresql-12.5/contrib/intarray/_int_tool.c:135-181 | The merge keeps the common elements, increasing |
| IntSets.IntUnique | postgresql-12.5/contrib/intarray/_int_tool.c:310-331 | In place, a sorted array is closed up to its distinct elements, in increasing order |
| IntRanges.MergeConsecutive | postgresql-12.5/contrib/intarray/_int_gist.c:199-221 | The right-to-left pass writes ranges without overwriting an unread element, merges runs of neighbours only, and leaves at least 100 ranges |
| IntRanges.ShiftDown | postgresql-12.5/contrib/intarray/_int_gist.c:222-229 | The ranges are moved to the front unchanged |
| IntRanges.SmallestGap | postgresql-12.5/contrib/intarray/_int_gist.c:234-248 | The scan finds a narrowest gap between neighbouring ranges |
| IntRanges.MergeSmallest | postgresql-12.5/contrib/intarray/_int_gist.c:231-256 | Closing narrowest gaps until 100 ranges are left keeps the grouping: closed gaps at most as wide as those left open |
| IntRanges.CompressInPlace | postgresql-12.5/contrib/intarray/_int_gist.c:199-256 | The array ends as exactly 100 ranges that tile the elements, with every closed gap at most as wide as every open one |
| IntRanges.Compress | postgresql-12.5/contrib/intarray/_int_gist.c:154-273 | Keys under 200 elements stay as they are; longer ones become 100 ranges or, when too sparse, an error |
| IntRanges.CompressedAscends | postgresql-12.5/contrib/intarray/_int_gist.c:199-256 | The ranges are disjoint and ascending |
| IntRanges.CompressedCovers | postgresql-12.5/contrib/intarray/_int_gist.c:199-256 | Every element is in a range, and every range bound is an element |
| IntRanges.CompressedIsSmallest | postgresql-12.5/contrib/intarray/_int_gist.c:212-256 | Among all groupings into at most as many ranges the compressed key expands to the fewest integers |
| IntRanges.InternalSize | postgresql-12.5/contrib/intarray/_int_tool.c:292-307 | The sum of range widths, or the error value when it is too large |
| IntRanges.Decompress | postgresql-12.5/contrib/intarray/_int_gist.c:276-345 | The loops, with the size computed first, give what reading a stored key gives: the key itself when short, and otherwise the integers of its ranges, an error for too many, the overflowing counter, or a bound read outside an odd array |
| IntRanges.ReadIs | postgresql-12.5/contrib/intarray/_int_gist.c:276-345 | What is read from ranges is increasing, has the computed size, and consists of exactly the integers in the ranges |
| IntGist.GIntUnion | postgresql-12.5/contrib/intarray/_int_gist.c:114-149 | The union of keys is increasing and has exactly the elements of the entries |
| IntGist.InnerKey | postgresql-12.5/contrib/intarray/_int_gist.c:154-345 | Union, compression and expansion together never lose an element: the stored key is read back around every entry, and reading overflows if and only if the union is long and holds the largest int |
| IntGist.LeafReadBackIff | postgresql-12.5/contrib/intarray/_int_gist.c:170-183 | A stored leaf array is read back as itself if and only if it has fewer than 200 elements or pairs up into neighbours below the largest int; whatever is read holds its elements, and a bound outside the array is read exactly for odd lengths from 200 |
| IntGist.CheckConditionArr | postgresql-12.5/contrib/intarray/_int_bool.c:235-253 | Binary search decides membership in an increasing array |
| IntGist.GIntSame | postgresql-12.5/contrib/intarray/_int_gist.c:369-396 | Decides equality of keys |
| IntGist.GIntConsistent | postgresql-12.5/contrib/intarray/_int_gist.c:44-111 | A boolean search is evaluated by its links; with true links, and for the other strategies, the answer is the operator itself on a leaf and the weaker test on an inner key |
| IntGist.ExecuteOn | postgresql-12.5/contrib/intarray/_int_bool.c:266-310 | Evaluation of a query that looks each value up by binary search is evaluation with set membership |
| IntGist.GIntPickSplit | postgresql-12.5/contrib/intarray/_int_gist.c:425-606 | Whatever halves the costs choose, the two lists and their seeds hold every entry once, and each union has exactly the elements of its half |
| IntGist.SearchIsExact | postgresql-12.5/contrib/intarray/_int_gist.c:44-111 | In any tree whose inner keys hold the elements below, if every leaf row is read as itself a search returns exactly the matching rows, in order |
| IntGist.SearchIsExactIff | postgresql-12.5/contrib/intarray/_int_gist.c:170-183 | All searches of such a tree return exactly the matching rows if and only if every leaf row has fewer than 200 elements or pairs up into neighbours |
| IntGist.BigRowsGoWrong | postgresql-12.5/contrib/intarray/_int_gist.c:170-183 | The row of the first n even numbers, n from 200 up, is returned by a search for 1 when n is even, and read out of bounds when n is odd |
| IntBig.Signature | postgresql-12.5/contrib/intarray/_intbig_gist.c:116-147 | The bits set are those of the hashed elements and no others |
| IntBig.CompressInner | postgresql-12.5/contrib/intarray/_intbig_gist.c:154-180 | A full signature becomes a flag without changing any bit |
| IntBig.UnionKeys | postgresql-12.5/contrib/intarray/_intbig_gist.c:231-273 | A union has a bit if and only if one of the keys has it |
| IntBig.PickSplit | postgresql-12.5/contrib/intarray/_intbig_gist.c:303-463 | Whatever halves the costs choose, the two lists and their seeds hold every entry once, and each union has exactly the bits of its half |
| IntBig.IntBigConsistent | postgresql-12.5/contrib/intarray/_intbig_gist.c:467-583 | A boolean search is evaluated by its links on the bits; with true links, and for the other strategies, the answer is the test on signatures at leaves and inner keys |
| IntBig.NeverPruned | postgresql-12.5/contrib/intarray/_intbig_gist.c:467-583 | A key that covers a matching row is consistent, for all five kinds of search |
| IntBig.RecheckIsExact | postgresql-12.5/contrib/intarray/_intbig_gist.c:467-583 | After the recheck a search over signatures has exactly the matching rows |
| BloomSign.Srand | postgresql-12.5/contrib/bloom/blutils.c:242-248 | The seeded state is in range, and is 0 exactly for the seeds 0xFFFFFFFF and 0x80000001 |
| BloomSign.OnlyZeroGivesZero | postgresql-12.5/contrib/bloom/blutils.c:215-240 | The generator reaches state 0 from state 0 only |
| BloomSign.Generator.MySrand | postgresql-12.5/contrib/bloom/blutils.c:242-248 | The signed remainder gives the seeded state |
| BloomSign.Generator.MyRand | postgresql-12.5/contrib/bloom/blutils.c:215-240 | The decomposed step stays in 32 bits and gives 16807 times the state modulo 2^31-1, for negative states too; the value is one less, so -1 exactly when the state is 0 |
| BloomSign.SignValue | postgresql-12.5/contrib/bloom/blutils.c:253-279 | Adds to the signature in place exactly the bits drawn for the value; where the generator is stuck, what shifts by -1 give is added to the first word |
| BloomSign.SignedIsMask | postgresql-12.5/contrib/bloom/blutils.c:253-279 | Signing a value, stuck generator or not, is a bitwise or with a mask that depends on the value and its column only |
| BloomSign.StuckHashes | postgresql-12.5/contrib/bloom/blutils.c:253-279 | For each column the generator sticks for exactly two hashes |
| BloomSign.StuckHash | postgresql-12.5/contrib/bloom/blutils.c:253-279 | One of them for the first column: 0xFFFFBE59 |
| BloomSign.FormTuple | postgresql-12.5/contrib/bloom/blutils.c:286-305 | The signature of a row is the or of the masks of its non-null columns |
| BloomSign.FormScan | postgresql-12.5/contrib/bloom/blscan.c:91-121 | The search signature is the or of the masks of the keys; nothing is searched exactly when some key is null |
| BloomSign.RowCoversScan | postgresql-12.5/contrib/bloom/blscan.c:149-156 | The signature of a row covers the search signature of any keys the row satisfies |
| BloomPage.Buffer.Init | postgresql-12.5/contrib/bloom/blutils.c:400-411 | The page becomes an empty live page |
| BloomPage.Buffer.AddItem | postgresql-12.5/contrib/bloom/blutils.c:311-341 | The tuple is appended if and only if it fits, and the free-space pointer stays within the page |
| BloomPage.Buffer.Insert | postgresql-12.5/contrib/bloom/blinsert.c:250-258 | A new or deleted page is initialised first, then the tuple is appended if it fits |
| BloomPage.Slide | postgresql-12.5/contrib/bloom/blvacuum.c:88-113 | In-place compaction leaves exactly the tuples to keep, in order, and both counts of them agree |
| BloomPage.Buffer.Vacuum | postgresql-12.5/contrib/bloom/blvacuum.c:71-151 | The page ends as the kept tuples, is newly marked deleted exactly when its last tuple was removed, and is listed exactly when it keeps tuples and has room |
| BloomPage.ScanPage | postgresql-12.5/contrib/bloom/blscan.c:143-165 | Collects the heap addresses of exactly the matching tuples of a live page, in order |
| BloomPage.SignMatches | postgresql-12.5/contrib/bloom/blscan.c:149-156 | The word loop decides whether every bit of the search signature is set |
| BloomRuns.PutKeeps | postgresql-12.5/contrib/bloom/blutils.c:311-341 | Putting a tuple on a page with room keeps all page invariants and the placement of every other tuple |
| BloomRuns.PurgeKeeps | postgresql-12.5/contrib/bloom/blvacuum.c:85-151 | Removing dead tuples from a page keeps all page invariants and the placement of every other tuple |
| BloomRuns.StepKeeps | postgresql-12.5/contrib/bloom/blinsert.c:198-367 | Every step of insertion, bulk deletion, clean-up and scan, a failing conditional lock included, keeps the invariant |
| BloomRuns.RunKeeps | postgresql-12.5/contrib/bloom/blinsert.c:198-367 | In every interleaving at lock granularity, with conditional locks that may fail, the invariant holds: the listed not-full pages are data blocks of the file and never the metapage, pages stay within their space, and a data page is marked deleted exactly when it is empty |
| BloomRuns.OnePlace | postgresql-12.5/contrib/bloom/blvacuum.c:85-132 | At every moment each tuple ever written is at exactly one place of one page, or was vacuumed and is at none |
| BloomRuns.StaysOnItsPage | postgresql-12.5/contrib/bloom/blinsert.c:198-367 | A live tuple is never overwritten or moved to another page |
| BloomRuns.RemovedAreDead | postgresql-12.5/contrib/bloom/blvacuum.c:94-113 | Only bulk deletion removes tuples, and only tuples of dead rows |
| BloomRuns.VacuumIsComplete | postgresql-12.5/contrib/bloom/blvacuum.c:57-158 | When bulk deletion rewrites the metapage, no dead row that was indexed at its start is left on any page |
| BloomRuns.ScanIsExact | postgresql-12.5/contrib/bloom/blscan.c:123-173 | A finished scan has every matching tuple that was written before it began and not removed, and nothing that does not match |
| BloomRuns.ScanFindsRows | postgresql-12.5/contrib/bloom/blscan.c:81-173 | A scan returns every indexed and not vacuumed row whose columns equal its keys, whatever their hashes |
| BloomRuns.SomeoneMoves | postgresql-12.5/contrib/bloom/blinsert.c:198-367 | There is no deadlock: while some process has work left, some process can take a step |
| BloomInsert.Insert | postgresql-12.5/contrib/bloom/blinsert.c:198-367 | With nobody in its way an insertion ends, and has written its row exactly once |
| BloomBuild.Builder.Flush | postgresql-12.5/contrib/bloom/blinsert.c:47-59 | The cached page becomes the last block |
| BloomBuild.Builder.Callback | postgresql-12.5/contrib/bloom/blinsert.c:75-117 | Each row is added once, to the cached page or after a flush |
| BloomBuild.Build | postgresql-12.5/contrib/bloom/blinsert.c:122-160 | A built index satisfies the invariant and holds the rows in order |
| HstoreOrder.LessOrder | postgresql-12.5/contrib/hstore/hstore_io.c:281-303 | Keys by length and then bytes are in a total order |
| HstoreOrder.SameMapSameList | postgresql-12.5/contrib/hstore/hstore_io.c:305-352 | Two strictly sorted lists of pairs with one map are one list |
| HstorePack.ReadsPair | postgresql-12.5/contrib/hstore/hstore.h:29-36 | The offset and length macros find each key and value where the layout puts it |
| HstorePack.Canonical | postgresql-12.5/contrib/hstore/hstore.h:99-147 | Two packed hstores are the same bytes if and only if they hold the same map |
| HstorePack.Writer.CopyItem | postgresql-12.5/contrib/hstore/hstore.h:99-107 | Appends the bytes and the two end positions of one pair |
| HstorePack.Writer.AddItem | postgresql-12.5/contrib/hstore/hstore.h:113-128 | Appends a pair held apart, a null value without bytes |
| HstorePack.Writer.Finalize | postgresql-12.5/contrib/hstore/hstore.h:131-142 | What was written becomes the exact packed form: first flag, count and size |
| HstorePack.FromPairs | postgresql-12.5/contrib/hstore/hstore_io.c:375-402 | Pairs are packed exactly if and only if they fit in one allocation |
| HstoreOps.FindKey | postgresql-12.5/contrib/hstore/hstore_op.c:36-71 | The search from a carried lower bound finds the key if and only if it is there, and its new bound is right for every larger key |
| HstoreOps.Fetch | postgresql-12.5/contrib/hstore/hstore_op.c:130-147 | The value of a key in the map, or its absence |
| HstoreOps.ExistsAny | postgresql-12.5/contrib/hstore/hstore_op.c:164-195 | True if and only if some listed key is in the map |
| HstoreOps.ExistsAll | postgresql-12.5/contrib/hstore/hstore_op.c:198-229 | True if and only if every listed key is in the map |
| HstoreOps.Contains | postgresql-12.5/contrib/hstore/hstore_op.c:967-1011 | True if and only if every pair of the template is in the map, nulls matching nulls |
| HstoreOps.Delete | postgresql-12.5/contrib/hstore/hstore_op.c:247-291 | The result is the packed form of the map without the key |
| HstoreOps.DeleteArray | postgresql-12.5/contrib/hstore/hstore_op.c:294-370 | The result is the packed form of the map without the listed keys |
| HstoreOps.DeleteHstore | postgresql-12.5/contrib/hstore/hstore_op.c:373-470 | The result is the packed form of the map without the pairs that are equal in the other |
| HstoreOps.CopyOf | postgresql-12.5/contrib/hstore/hstore_op.c:395-403 | The copy returned when nothing is removed is the exact packed form, whatever followed the data of the original |
| HstoreConcat.Concat | postgresql-12.5/contrib/hstore/hstore_op.c:473-567 | The result is the packed form of the first map overridden by the second; it fails exactly when both sizes together pass the largest allocation |
| HstoreKeys.UniquePairs | postgresql-12.5/contrib/hstore/hstore_io.c:305-352 | In place, whatever order the sort gives equal keys: strictly sorted, one of the given pairs for each key, byte count exact, and no change to a list already strictly sorted |
| HstoreKeys.ArrayToPairs | postgresql-12.5/contrib/hstore/hstore_op.c:73-127 | The distinct non-null elements, strictly sorted; refused exactly when a pair for every element would pass one allocation |
| HstoreKeys.Slice | postgresql-12.5/contrib/hstore/hstore_op.c:634-692 | The result is the packed form of the map restricted to the listed keys |
| HstoreText.ParsePrint | postgresql-12.5/contrib/hstore/hstore_io.c:1139-1221 | Reading the text printed for any pairs without NUL bytes gives the pairs, with quotes, backslashes, nulls and the empty list, and runs out of memory exactly past 16777216 pairs |
| HstoreIo.HSParser.GetVal | postgresql-12.5/contrib/hstore/hstore_io.c:60-173 | The five-state word reader with its doubling buffer computes the specification, never writes past the buffer, and fails for memory exactly when a word needs more than half of one gigabyte |
| HstoreIo.HSParser.ParseHstore | postgresql-12.5/contrib/hstore/hstore_io.c:182-279 | The five-state pair reader with its doubling array of pairs computes the specification, with its syntax and memory errors |
| HstoreIo.HstoreIn | postgresql-12.5/contrib/hstore/hstore_io.c:404-421 | Fails exactly on texts the specification refuses; what is packed has each key once with one of its values, exactly as given when the keys are in order, and is refused exactly when it is too large |
| HstoreIo.TextBuffer.Cpw | postgresql-12.5/contrib/hstore/hstore_io.c:1139-1152 | Copies a string with quotes and backslashes escaped, in at most twice its length |
| HstoreIo.EstimateIsEnough | postgresql-12.5/contrib/hstore/hstore_io.c:1166-1186 | The printed text and its terminator stay within the estimate |
| HstoreIo.EstimateFits | postgresql-12.5/contrib/hstore/hstore_io.c:1166-1186 | The 32-bit estimate of any stored hstore does not overflow |
| HstoreIo.HstoreOut | postgresql-12.5/contrib/hstore/hstore_io.c:1154-1221 | The text is that of the pairs in order, written within the estimated buffer; there is no buffer exactly when the estimate passes one allocation |
| HstoreIo.RoundTrip | postgresql-12.5/contrib/hstore/hstore_io.c:404-421 | Printing a stored hstore and reading the text gives back the same bytes exactly when the estimate fits one allocation and there are at most 16777216 pairs, provided no key or value has a NUL byte; otherwise it is not printed, or not read |
| HstoreLimits.TooManyToRead | postgresql-12.5/contrib/hstore/hstore_io.c:188-204 | Any 16777217 to 33554432 pairs of four-byte keys and null values are a stored hstore that prints and cannot be read back |
| HstoreLimits.TooLongToPrint | postgresql-12.5/contrib/hstore/hstore_io.c:1167-1185 | A stored hstore with one value of half a gigabyte or more cannot be printed |
| Buffers.ByteRoom | postgresql-12.5/contrib/hstore/hstore_io.c:42-52 | Doubling a byte buffer stays within one allocation if and only if it is below 536870912 bytes |
| Buffers.WideRoom | postgresql-12.5/contrib/hstore/hstore_io.c:188-204 | Doubling an array of 40-byte pairs stays within one allocation if and only if it is below 16777216 pairs |
| HstoreUpgrade.ValidOldFormat | postgresql-12.5/contrib/hstore/hstore_compat.c:170-229 | Nonzero if and only if the entries are contiguous, key lengths do not fall and the data fit; 2 exactly when the size is exact too |
| HstoreUpgrade.ValidNewFormat | postgresql-12.5/contrib/hstore/hstore_compat.c:118-160 | Nonzero if and only if positions and key lengths do not fall, no later key is null and the data fit; 2 exactly when the size is exact too |
| HstoreUpgrade.Convert | postgresql-12.5/contrib/hstore/hstore_compat.c:316-344 | The in-place rewrite keeps the sequence of keys, values and nulls and trims the value to its exact packed form |
| HstoreUpgrade.MarkedPacked | postgresql-12.5/contrib/hstore/hstore_compat.c:249-255 | Marking a new-format value with slack after it gives its exact packed form |
| HstoreUpgrade.Upgrade | postgresql-12.5/contrib/hstore/hstore_compat.c:235-347 | An error is raised exactly for values of neither format, new-format ones are marked, and an old-format value becomes the packed form of its pairs if and only if it is not fast-tracked |
| HstoreUpgrade.OldTakenForNew | postgresql-12.5/contrib/hstore/hstore_compat.c:249-255 | An old value is taken for a new one before it is checked if and only if it is shorter than 32768 bytes and its first value length has its top bit set, and then that value is null |
| HstoreUpgrade.TakenIsLost | postgresql-12.5/contrib/hstore/hstore_compat.c:249-255 | An old value taken for a new one never becomes the packed form of its pairs |
| HstoreUpgrade.NullBecomesEmpty | postgresql-12.5/contrib/hstore/hstore_compat.c:249-255 | A concrete old value of 17 bytes whose null is upgraded to an empty string |
| BtreeVar.NodeCpLen | postgresql-12.5/contrib/btree_gist/btree_utils_var.c:121-163 | The length of the common prefix of the bounds |
| BtreeVar.VarUnion | postgresql-12.5/contrib/btree_gist/btree_utils_var.c:323-359 | Folds the bounds and cuts them two past their common prefix |
| BtreeVar.Widened | postgresql-12.5/contrib/btree_gist/btree_utils_var.c:234-279 | Widening a key at either end keeps every value it covers |
| BtreeVar.TruncateCovers | postgresql-12.5/contrib/btree_gist/btree_utils_var.c:205-230 | Cutting the bounds two past the common prefix keeps every value covered |
| BtreeVar.KeyCovers | postgresql-12.5/contrib/btree_gist/btree_utils_var.c:323-359 | Whatever unions and cuts made a key, each value in it is at least the lower bound, and at most the upper bound or starts with an upper bound of common prefix and two bytes |
| BtreeVar.LeafIsExact | postgresql-12.5/contrib/btree_gist/btree_utils_var.c:555-614 | On a leaf the answer is that of the operator |
| BtreeVar.NeverPruned | postgresql-12.5/contrib/btree_gist/btree_utils_var.c:555-614 | No strategy turns away a key with a satisfying value below it |
| BtreeVar.SearchIsExact | postgresql-12.5/contrib/btree_gist/btree_utils_var.c:555-614 | A search of a tree of such keys finds exactly the satisfying values |
| BtreeVar.VarPickSplit | postgresql-12.5/contrib/btree_gist/btree_utils_var.c:459-549 | The sorted keys go by halves to both sides, and both bounds are folded and cut at the longer of the two common prefixes |
| BtreeVar.KeepsIff | postgresql-12.5/contrib/btree_gist/btree_utils_var.c:205-230 | Cut past any length from the common prefix on, the folded bounds still admit every value under the keys in every search if and only if the lower bound is the prefix or no key has a bound that the cut of the upper one shuts out |
| BtreeVar.SplitKeepsIff | postgresql-12.5/contrib/btree_gist/btree_utils_var.c:459-549 | Each half of a split admits every value under its keys in every search if and only if that condition holds for the longer of the two common prefixes |
| BtreeVar.LeafSplitKeeps | postgresql-12.5/contrib/btree_gist/btree_utils_var.c:459-549 | Splitting a leaf page never loses a value |
| BtreeVar.SplitLoses | postgresql-12.5/contrib/btree_gist/btree_utils_var.c:459-549 | So the split rule can lose a value: four keys in order that unions make, split two and two, after which an equality search misses a value the left half covers |
| Cube.UnionV0 | postgresql-12.5/contrib/cube/cube.c:691-753 | The union spans in each dimension exactly what both boxes span, missing dimensions taken as zero, and is a point exactly when it has no extent; one object given twice comes back unchanged |
| Cube.GistUnion | postgresql-12.5/contrib/cube/cube.c:368-393 | The union of the entries lies around everything any of them lies around; the result is a new box exactly for two or more |
| Cube.PickSplit | postgresql-12.5/contrib/cube/cube.c:454-600 | Whatever halves the costs choose, the two lists and their seeds hold every entry once, and each union lies around everything its half lies around |
| Cube.ContainsV0 | postgresql-12.5/contrib/cube/cube.c:1075-1110 | Decides containment in the common dimensions with the rest of the second box zero; dimensions only the first box has are not looked at |
| Cube.OverlapV0 | postgresql-12.5/contrib/cube/cube.c:1145-1181 | Decides whether the boxes meet in all dimensions, missing ones taken as zero |
| CubeOrder.CmpV0 | postgresql-12.5/contrib/cube/cube.c:888-965 | The loops give the lexicographic comparison of the bounds, those of the common dimensions first, the others compared with zero, then the number of dimensions |
| CubeOrder.OrderIsTotal | postgresql-12.5/contrib/cube/cube.c:888-965 | Swapping the boxes swaps the sign, and zero means equal dimensions and bounds |
| CubeOrder.TransitiveIff | postgresql-12.5/contrib/cube/cube.c:886-965 | As the order of a sort or a b-tree it is transitive on all boxes with dimensions in a set if and only if the set has at most one dimension other than zero |
| CubeOrder.Cycle | postgresql-12.5/contrib/cube/cube.c:886-965 | For any two different dimensions other than zero there are three boxes, each below the next and the last below the first |
| Cube.ConsistentAbove | postgresql-12.5/contrib/cube/cube.c:622-676 | Leaf consistency implies consistency of every node above, for overlap, same, contains, and contained-by when the query spans zero beyond the dimensions of the box |
| Cube.ContainedByIff | postgresql-12.5/contrib/cube/cube.c:1098-1108 | A box contained in the query is reached from every node above if and only if the query spans zero in the dimensions the box lacks; so for every query of no more dimensions |
| Cube.ContainedByLost | postgresql-12.5/contrib/cube/cube.c:1098-1108 | A box that a contained-by query of more dimensions should return and does not |
| Cube.SearchIsExact | postgresql-12.5/contrib/cube/cube.c:622-676 | A search of any tree of covering boxes returns only answers, and every answer the previous condition admits |
| CubeDistance.GapIsDistance | postgresql-12.5/contrib/cube/cube.c:1454-1467 | The one-dimensional distance is the gap between the intervals, whichever way their ends are given |
| CubeDistance.DistanceOf | postgresql-12.5/contrib/cube/cube.c:1204-1347 | The loops compute the taxicab, squared Euclidean and Chebyshev distances over all dimensions of both boxes |
| CubeDistance.NodeIsNearer | postgresql-12.5/contrib/cube/cube.c:1349-1451 | In each metric the distance of a node is a lower bound of the distance of any box below it |
| CubeDistance.RootIsNearer | postgresql-12.5/contrib/cube/cube.c:1349-1451 | The Euclidean distance of a node, the root of the square, is a lower bound of that of any box below it |
| CubeDistance.NodeCoordinateIsLess | postgresql-12.5/contrib/cube/cube.c:1349-1430 | The signed coordinate value of a node is a lower bound of that of any box below it |
| AmcheckPage.StepRight | postgresql-12.5/contrib/amcheck/verify_nbtree.c:1340-1368 | The search for the next page that is not to be ignored stops exactly when it does not come round again, at the first such page or the last page |
| AmcheckPage.RightPageCheck | postgresql-12.5/contrib/amcheck/verify_nbtree.c:1301-1497 | Passes if and only if the last item is before the first real item of that page, and never comes back exactly when the search does not |
| AmcheckPage.DownlinkCheck | postgresql-12.5/contrib/amcheck/verify_nbtree.c:1508-1647 | Passes if and only if the child is readable, not deleted, and all its real items are above the key that points to it |
| AmcheckPage.TargetPageCheck | postgresql-12.5/contrib/amcheck/verify_nbtree.c:871-1287 | The page passes if and only if its items respect the high key, one another, the page to the right and their children; it never comes back exactly when the search for the page to the right does not and nothing was wrong before |
| Amcheck.CheckBlock | postgresql-12.5/contrib/amcheck/verify_nbtree.c:678-822 | A block is passed if and only if it is readable, not deleted, not in a circle of one or two, and either half-dead with a right neighbour or linked back to the block before, on the level and passing its item checks |
| Amcheck.CheckLevel | postgresql-12.5/contrib/amcheck/verify_nbtree.c:649-835 | Succeeds if and only if the level is in order, and goes on for ever if and only if the walk does or the check of a page on it does |
| Amcheck.EndlessIff | postgresql-12.5/contrib/amcheck/verify_nbtree.c:804-831 | A walk goes on for ever if and only if it comes back to a block, and then some block is half-dead |
| Amcheck.MetAgainIsHalfDead | postgresql-12.5/contrib/amcheck/verify_nbtree.c:804-831 | The first block a walk comes back to is half-dead |
| Amcheck.CompleteIsDistinct | postgresql-12.5/contrib/amcheck/verify_nbtree.c:649-835 | A walk that comes to an end has met no block twice |
| Amcheck.NothingToGoRound | postgresql-12.5/contrib/amcheck/verify_nbtree.c:649-835 | Without half-dead and deleted pages the check of a level always comes back |
| Amcheck.CheckEveryLevel | postgresql-12.5/contrib/amcheck/verify_nbtree.c:526-551 | Level numbers fall by one, and the whole check passes if and only if all levels down to the leaves or a zero child link are in order; it fails or goes on for ever at the first level that does |
| Amcheck.LeavesReached | postgresql-12.5/contrib/amcheck/verify_nbtree.c:526-551 | The last level walked is the leaf level if and only if all level numbers were walked, and otherwise its first page has a zero child link |
| Amcheck.LevelsApart | postgresql-12.5/contrib/amcheck/verify_nbtree.c:526-551 | No block, not even a half-dead one, is on two of the levels walked |
| AmcheckOrder.LevelRisesIff | postgresql-12.5/contrib/amcheck/verify_nbtree.c:918-1258 | The real items of a walked level rise from left to right, strictly when keys include the heap address, if and only if they do so across live pages without real items; so always when no such page lies between others, half-dead pages or not |
| AmcheckOrder.EveryLevelRises | postgresql-12.5/contrib/amcheck/verify_nbtree.c:526-551 | After a run without error this holds of every level; so items rise on all levels when every live page holds one |
| AmcheckOrder.ChildAbove | postgresql-12.5/contrib/amcheck/verify_nbtree.c:1508-1647 | Every real item of a child is above the item that points to it |
| AmcheckOrder.LevelsChecked | postgresql-12.5/contrib/amcheck/verify_nbtree.c:526-551 | The pages of the levels walked, if they point to no others, are checked pages with checked children |
| AmcheckOrder.ItemsCoverIff | postgresql-12.5/contrib/amcheck/verify_nbtree.c:1589-1634 | On checked pages everything below an item, to any depth, is above it if and only if what the leftmost pages below it hold is; so always one level down |
| AmcheckCases.EmptyPageHides | postgresql-12.5/contrib/amcheck/verify_nbtree.c:1468-1488 | A whole index that passes although the items of its leaves fall, on both sides of a page without items |
| AmcheckCases.ItemEscapes | postgresql-12.5/contrib/amcheck/verify_nbtree.c:1589-1616 | A whole index that passes although an item two levels below a key is smaller than the key |
| AmcheckCases.HalfDeadCircle | postgresql-12.5/contrib/amcheck/verify_nbtree.c:804-831 | A whole index of one leaf and two half-dead leaves on which the check never ends |
| IsnHyphen.CompareRow | postgresql-12.5/contrib/isn/isn.c:205-249 | Digit-by-digit comparison tells whether the digits are within a range, before it or after it |
| IsnHyphen.FindRow | postgresql-12.5/contrib/isn/isn.c:191-251 | The binary search returns a row whose range holds the digits; when it returns none and the rows ascend, no row holds them |
| IsnHyphen.OrderedRowsAscend | postgresql-12.5/contrib/isn/isn.c:191-251 | Rows of any mix of widths ascend as soon as each upper bound is below the next lower bound at their first differing digit |
| IsnHyphen.GroupZeroAscends | postgresql-12.5/contrib/isn/ISBN.h:50-56 | The six rows of the first ISBN group, of six different widths, ascend |
| IsnHyphen.Compress | postgresql-12.5/contrib/isn/isn.c:178-188 | Moves the rest of the text down unchanged |
| IsnHyphen.CopyRow | postgresql-12.5/contrib/isn/isn.c:252-268 | The shifting copy puts the characters between the hyphens of the row without overwriting one before it is read |
| IsnEan.CheckDig | postgresql-12.5/contrib/isn/isn.c:304-332 | The check digit that makes the weighted sum of thirteen digits a multiple of ten |
| IsnEan.CheckedIff | postgresql-12.5/contrib/isn/isn.c:304-332 | Thirteen digits have the right check digit if and only if the last is the one computed |
| IsnRead.WeightCheckDig | postgresql-12.5/contrib/isn/isn.c:278-295 | The check value that makes the descending weighted sum a multiple of eleven |
| IsnRead.StrToEan | postgresql-12.5/contrib/isn/isn.c:509-522 | Twice the number the digits stand for |
| IsnRead.Collect | postgresql-12.5/contrib/isn/isn.c:705-790 | The scanning loop collects in the buffer what the specification collects, and stops on the same errors |
| IsnRead.ReadEan | postgresql-12.5/contrib/isn/isn.c:685-922 | The reader with its 17-byte buffer computes the specification |
| IsnRead.ReadIsChecked | postgresql-12.5/contrib/isn/isn.c:685-922 | Every number read, however written, has thirteen digits and the right check digit |
| IsnPrint.Layout | postgresql-12.5/contrib/isn/isn.c:556-575 | The digits are laid out from the right with the hyphen, the check digit and the mark |
| IsnPrint.InsertKeeps | postgresql-12.5/contrib/isn/isn.c:252-268 | Inserting hyphens by a row neither drops nor adds nor moves a digit |
| IsnPrint.EanToString | postgresql-12.5/contrib/isn/isn.c:533-674 | Every number in range prints as its thirteen digits with hyphens after the prefix, before the check digit and where the row of its table puts them, with the mark if flagged; larger ones are refused |
| IsnPrint.ReadsBack | postgresql-12.5/contrib/isn/isn.c:685-922 | Any text that shows thirteen digits with the right check digit, marked or not, is read as that number and flag if the type takes it, and is of the wrong type otherwise |
| IsnPrint.RoundTrip | postgresql-12.5/contrib/isn/isn.c:533-674 | Printing a number with a right check digit, flagged or not, and reading the text gives the same value exactly for the types that take the number |
| IsnShort.ReadsIsbn | postgresql-12.5/contrib/isn/isn.c:443-466 | Nine digits, hyphenated anyhow, with their weighted check character are read as the ISBN number 978 and the nine digits, flagged if marked |
| IsnShort.ReadsIsmn | postgresql-12.5/contrib/isn/isn.c:468-475 | An M with eight digits and their check digit is read as the ISMN number 9790 and the eight digits, flagged if marked |
| IsnShort.ReadsIssn | postgresql-12.5/contrib/isn/isn.c:477-491 | Seven digits with their weighted check character are read as the ISSN number 977, the seven digits and issue code 00 |
| IsnShort.ReadsUpc | postgresql-12.5/contrib/isn/isn.c:493-499 | Eleven digits with their check digit are read as the UPC number that starts with 0 |
| IsnShort.LostNumbers | postgresql-12.5/contrib/isn/isn.c:477-499 | A concrete ISSN number with issue code 01, and a concrete UPC number when flagged, do not survive |
| IsnCrop.Strip | postgresql-12.5/contrib/isn/isn.c:178-188 | In place, drops the first characters of the string |
| IsnCrop.WeightBuffer | postgresql-12.5/contrib/isn/isn.c:278-295 | The weighted check value of the digits in the buffer, other characters skipped |
| IsnCrop.PutCheck | postgresql-12.5/contrib/isn/isn.c:456-464 | In place, replaces the last digit of the string |
| IsnCrop.Dehyphenate | postgresql-12.5/contrib/isn/isn.c:143-159 | In place, leaves the digits from the second character on, in order |
| IsnCrop.Crop | postgresql-12.5/contrib/isn/isn.c:443-499 | In place, the long form becomes the short form of its kind |
| IsnCrop.ShortRoundTrip | postgresql-12.5/contrib/isn/isn.c:950-963 | Printing a number in the short form of its kind and reading that gives the same value if and only if nothing was cut off: the flag for UPC and ISSN, the issue code for ISSN |

## Left out

- BloomSign.SignValue: takes a shift by -1, which C leaves undefined and the code does when the generator is stuck, to give some word that depends on column and hash only.
- BloomRuns.RunKeeps: treats a page change as atomic with its log record and takes the free space map as a set of hints; crash recovery is not part of the model.
- AmcheckPage.TargetPageCheck: leaves out the line pointer, tuple size and attribute count checks, the search from the root for each tuple, the fingerprints and the check for missing downlinks; the metapage as a child counts as unreadable.
- CubeDistance.DistanceOf: gives the square of the Euclidean distance; the square root is taken up in `CubeDistance.RootIsNearer`, and rounding of floating point is not part of the model.
- HstoreIo.HstoreIn: is not specific about which of several values given for one key is kept, because the sort does not say.
- HstoreUpgrade.Upgrade: models the build in which ambiguous values count as old.
- IntGist.SearchIsExactIff: takes rows and searched arrays sorted and without repeats; the recheck of equality against repeats is not part of the model.
- HstoreUpgrade.MarkedPacked: leaves out values marked as new without a check whose last position is beyond their bytes.
- IntQuery.ExecuteMeansEval: is for queries whose right operands have at most 32767 items, the exact condition for true links; for 32768 to 65535 items at the root see `IntQuery.WrappedLinkLeaves`, and what evaluation does with other wrong links is not stated.
- IntQuery.ContainsRequiredValueMeansRequired: has the same condition on right operands, because it follows the same links.
- IntQueryParser.ParsedQueryMeans: has the same condition on right operands.
- IntQueryText.QueryTextParses: takes the conversion of a number to set its range error exactly when the value does not fit; recursion depth limits are not part of the model.
- IsnHyphen.FindRow: does not read the table row that the code fetches and ignores when the search has failed.
- IsnCrop.ShortRoundTrip: copies the printed text into a buffer of its own before it is cropped; the casts between kinds and the contents of the range tables other than ISSN are not part of the model.
- HstorePack.Writer.Finalize: makes the packed value from the entries and the bytes; that the code moves the bytes down within one allocation is not part of the model.
- The choice of halves, the cost estimates and the seeds in the page split functions, which are parameters of the model.
- hstore conversions to and from records, arrays, JSON and the binary protocol, hstore comparison operators, and its GiST and GIN support.
- Multibyte prefixes and the other data types of btree_gist, and its penalty function.
- Text input and output of cubes, and the constructors and accessors of coordinates.
- Memory contexts, compression of stored values, freeing of buffers.
- All other contrib modules.
