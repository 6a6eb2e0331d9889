# A verified model of the hard parts of leblibc

leblibc is a fork of musl.  This project models, in Dafny 4.11, the algorithms of
the library whose correctness is not plain from reading them, and proves what the
library relies on them for.  `dafny verify dfyconfig.toml` checks all of it.

| component | files |
|---|---|
| decimal scanner (`decfloat`, up to the assembled mantissa) | `Decimal`, `Normalise`, `Scaling`, `FloatScan`, `Digits`, `Decfloat`, `Numerals`, `Stray`, `Shortfall` |
| dependency closure and constructor order | `DepGraph`, `StaleMarks`, `Dependencies` |
| constructors and destructors of many threads | `CtorProtocol` |
| asynchronous I/O queues | `Aio`, `AioList` |
| thread-local storage | `TlsLayout`, `TlsInstall`, `Memory` |
| symbol lookup | `GnuHash` |
| `dlopen`, failing or not | `Dlopen` |
| packed relative relocations | `Relr` |
| DES and `encrypt` | `DesTables`, `DesCipher`, `Encrypt`, `DesStandard` |
| MD5, SHA-256 and SHA-512 streaming | `HashStream` |
| integer scanner | `IntScan`, `IntNumerals` |
| exit handlers | `AtExit` |
| words, masks and bits | `Words` |

Code that changes things in place is modelled in place: classes with the fields
the source updates, arrays for its buffers, loops with their invariants, each
method tied to a function or a stated property.  The two multi-threaded protocols
are step relations with an invariant that every step keeps, so that their theorems
hold in every state of every run, for any number of threads.  Machine arithmetic
is written out: unsigned words wrap with `Word`, masks are the bitwise `BitAnd`,
and that a mask takes a remainder is a lemma.

Fixed choices: x86_64 and i386 (no function descriptors, thread-local blocks below
the thread pointer); word size, `sizeof(struct pthread)`, S-boxes and compression
functions are parameters.  A string is its bytes followed by a NUL.

## What turned out otherwise

* In `decfloat`, line 258 of `src/internal/floatscan.c` clears the cell below the
  new end of the ring; when the end wraps to 0 that is `x[-1]`, outside the array.
  `FloatScan.Ring.Assemble` gives the exact condition for this store
  (`FloatScan.Strays`), and proves that the mantissa is right all the same: the last
  cell, which is read in its place, is always zero then.  `Stray.StrayWitness`
  follows the text 0.014551915228366851806640625 to such a store.
* A limb is at most 10^9 only as long as the ring has never been full.  A fold
  combines two limbs with a bitwise or, which stays below 2^30.  The mantissa has its
  full length either way; it is exact if nothing is folded and no non-zero digit is
  dropped.  `Scaling.Roomy` is a condition on the number of digits and the radix
  point under which neither happens (`Scaling.RoomyIsExact`, `Scaling.RoomyInRange`).
* A limb may be exactly 10^9, as line 201 of `src/internal/floatscan.c` carries only
  beyond that.  The mantissa is therefore the number rounded down to whole units if and
  only if the limbs behind it do not carry, that is, unless a limb of 10^9 or more
  follows the top limbs after none or some of 10^9 - 1; else it is one unit less
  (`Normalise.TruncatedIff`, `Decfloat.MantissaTruncates`).  `Shortfall.ShortfallWitness`
  follows the text 34000000000.00000000186264515 to such a mantissa.
* `extend_bfs_deps` leaves the marks it has set when it runs out of memory at run
  time, and no roll-back clears them.  A later call takes the marked DSOs for listed:
  its list is the complete one of the graph without the edges to marked DSOs that are
  no direct dependency (`StaleMarks.StaleLists`), and complete if and only if no marked
  DSO can be reached without being a direct dependency (`StaleMarks.StaleListsIff`,
  `Dependencies.ExtendBfsDeps`).
* `queue_ctors` takes two cells more than a recorded list has.  Every store finds a free
  cell if and only if there is one for each DSO its walk comes to, and one more
  (`Dependencies.QueueCtors`).  For a list recorded among marked DSOs that means: it
  misses no more DSOs than it has direct dependencies repeated, and one if the DSO
  depends on itself (`StaleMarks.StaleFitsIff`).  A complete list always fits; a short
  one may (`StaleMarks.ShortButFits`) or may not (`StaleMarks.StaleWitness`, four nodes
  in three cells).  As long as no call of `dlopen` runs out of memory while it records
  dependencies, every recorded list is complete, no mark is left and no array is overrun
  (`Dlopen.Loader.DlOpen`).
* `load_library` adds up the room for one more thread in a `size_t`.  What it reserves
  suffices if and only if that sum does not wrap around; a sum that wraps to 0 is
  divided by (`TlsInstall.Reserve`, `TlsInstall.WrapWitness`).
* A TLS header with alignment 0, which ELF allows, puts its block minus its image below
  the thread pointer and makes the common alignment, and with it the published size
  of the area, 0 for good; loaded at run time it gives all threads the image itself.
  The size suffices if and only if no module has alignment 0
  (`TlsLayout.ZeroAlignOffset`, `TlsLayout.ZeroAlign`, `TlsLayout.Loader.AddModule`,
  `TlsLayout.Loader.UpdateTlsSize`, `TlsInstall.ZeroAlignBlock`).
* `count_syms` of a DSO that has only a GNU hash table counts the symbols exactly
  if some symbol is hashed, and otherwise returns 0 (`GnuHash.CountSyms`,
  `GnuHash.NothingHashed`).
* `encrypt` twice gives back the low bits of the block, so the block itself exactly
  if its entries are 0 or 1 (`Encrypt.RestoredIff`, `Encrypt.NotRestored`).

## Model

| member | source | states |
|---|---|---|
| `Decimal.MulPassInt` | src/internal/floatscan.c:199-210 | a multiplication pass over the limbs, carry included, multiplies the integer they spell by exactly 2^29 |
| `Decimal.MulPassBounds` | src/internal/floatscan.c:199-210 | limbs stay at most 10^9 and the carry at most 2^29; a leading limb that produces no carry grows |
| `Decimal.DivPassInt` | src/internal/floatscan.c:182-191 | a division pass by a divisor of 10^9, with the limb it appends, divides exactly |
| `Decimal.DivPassBounds` | src/internal/floatscan.c:238-247 | limbs keep their bound and the carry stays below 10^9 |
| `Decimal.DivPassLead` | src/internal/floatscan.c:238-247 | the leading limb strictly falls, and if it vanishes the next one does not |
| `Decimal.ValueDropZeros` | src/internal/floatscan.c:175 | dropping trailing zero limbs keeps the number |
| `Normalise.MulStepNumber` | src/internal/floatscan.c:196-220 | a whole multiplication round, new leading limb and moved radix point included, keeps limbs times 2^e2 unless a limb is folded |
| `Normalise.MulStepBounds` | src/internal/floatscan.c:196-220 | limb bounds, capacity and a non-zero leading limb are kept; without a carry the leading limb grows |
| `Normalise.DivStepNumber` | src/internal/floatscan.c:236-253 | a right-shift round by 1 or 9 keeps limbs times 2^e2 unless a carry is folded |
| `Normalise.DivStepBounds` | src/internal/floatscan.c:236-253 | limb bounds, capacity and a non-zero leading limb are kept; the leading limb falls while it lasts |
| `Normalise.ThresholdIsLargestMantissa` | src/internal/floatscan.c:12-28 | the threshold limbs of all three formats spell 2^LDBL_MANT_DIG - 1 |
| `Normalise.ExceedsIffTooLarge` | src/internal/floatscan.c:226-234 | the limb-by-limb comparison with the threshold decides whether the top integer has too many bits, also for limbs of 10^9 and more |
| `Normalise.TopFromLead` | src/internal/floatscan.c:196 | when the multiplication loop stops at the radix point the top integer already fills the mantissa but for one bit |
| `Normalise.ShiftKeepsMantissa` | src/internal/floatscan.c:223-254 | halving a top integer that is too large leaves at least 2^(LDBL_MANT_DIG-1) |
| `Normalise.ShiftAcrossLimb` | src/internal/floatscan.c:242-246 | so does the shift that makes the leading limb vanish |
| `Normalise.ValueAtLeastTop` | src/internal/floatscan.c:257-260 | the number is at least the integer assembled from the top limbs |
| `Normalise.Fraction` | src/internal/floatscan.c:199-210 | what the limbs behind a place are worth: less than two of its units, and one or more exactly if they carry, which takes a limb of 10^9 or more |
| `Normalise.TruncatedIff` | src/internal/floatscan.c:257-260 | the assembled integer is less than one unit below the number if and only if the limbs behind it do not carry, and less than two in any case |
| `Scaling.AlignValue` | src/internal/floatscan.c:178-193 | dividing by the power of ten and moving the radix point to a multiple of nine keeps the number, with room for the extra limb |
| `Scaling.MulFalls` | src/internal/floatscan.c:196-220 | why the multiplication loop ends: a round moves the radix point up or makes the leading limb large |
| `Scaling.ShiftFalls` | src/internal/floatscan.c:223-254 | why the shifting loop ends: a round lowers (radix point, leading limb) and never moves the radix point past its place |
| `Scaling.UpConserves` | src/internal/floatscan.c:196-220 | the whole multiplication loop keeps limbs times 2^e2, unless a limb is folded |
| `Scaling.DownConserves` | src/internal/floatscan.c:223-254 | so does the whole shifting loop |
| `Scaling.DownMantissa` | src/internal/floatscan.c:223-254 | from a number large enough on, the shifting loop leaves exactly one full mantissa |
| `Scaling.NormalisedMantissa` | src/internal/floatscan.c:178-254 | for all limbs and radix points the top integer ends up between 2^(LDBL_MANT_DIG-1) and 2^LDBL_MANT_DIG - 1 |
| `Scaling.NormalisedWorth` | src/internal/floatscan.c:178-254 | alignment and both loops together keep the number, unless a limb is folded |
| `Scaling.UpRoom` | src/internal/floatscan.c:196-220 | with room for the integer part and one limb more the multiplication loop never folds a limb, as the low end of the number does not fall |
| `Scaling.ShiftRoom` | src/internal/floatscan.c:236-253 | within the bound a shift folds nothing, and the room still needed does not grow: the bits left to shift pay for the limbs it may append |
| `Scaling.DownRoom` | src/internal/floatscan.c:223-254 | so a number within that bound is shifted down without a fold |
| `Scaling.RoomyIsExact` | src/internal/floatscan.c:178-254 | enough room for digits and radix point implies that nothing is ever folded and the number is exact |
| `Scaling.RoomyInRange` | src/internal/floatscan.c:144-151 | every number in the range of the format with up to 380 digits, 6800 for the wider formats, has that room |
| `FloatScan.MulLoop` | src/internal/floatscan.c:199-210 | the backward loop over the ring computes the multiplication pass and the end with trailing zeros dropped |
| `FloatScan.DivLoop` | src/internal/floatscan.c:238-247 | the forward loop computes the division pass, the new start and the new radix point |
| `FloatScan.PushFront` | src/internal/floatscan.c:211-219 | a carry becomes the leading limb; in a full ring the last limb is folded into its neighbour |
| `FloatScan.PushBack` | src/internal/floatscan.c:248-253 | a carry becomes the last limb, or in a full ring sets the low bit of the last |
| `FloatScan.Ring.constructor` | src/internal/floatscan.c:160-163 | the ring holds the packed limbs with the given radix point and e2 = 0 |
| `FloatScan.Ring.MultiplyPass` | src/internal/floatscan.c:196-220 | contents, radix point, e2, exactness, start and cleared cells after one round are those of the multiplication step |
| `FloatScan.Ring.DividePass` | src/internal/floatscan.c:238-253 | likewise for one division round; exactness is lost exactly by a fold |
| `FloatScan.Ring.ScaleRound` | src/internal/floatscan.c:196-220 | one round of the multiplication loop in place is one round on limb sequences |
| `FloatScan.Ring.ScaleUp` | src/internal/floatscan.c:196-220 | the loop on the ring ends in exactly the state the multiplication loop on limb sequences ends in, exactness included, and leaves cleared cells behind the ring |
| `FloatScan.Ring.CompareTop` | src/internal/floatscan.c:226-233 | the comparison loop over the ring, which stops at its end, is the limb-by-limb comparison |
| `FloatScan.Ring.ShiftRound` | src/internal/floatscan.c:236-253 | one shift in place is one shift on limb sequences, exactness included, and lowers (radix point, leading limb) lexicographically |
| `FloatScan.Ring.ScaleDown` | src/internal/floatscan.c:223-254 | the shift loop ends in exactly the state the shifting loop on limb sequences ends in |
| `FloatScan.Ring.AlignRadix` | src/internal/floatscan.c:178-193 | radix alignment in place, for negative radix points too, and where in the ring the radix point comes to stand |
| `FloatScan.Ring.Assemble` | src/internal/floatscan.c:257-260 | the mantissa is the integer of the top limbs, always; and exactly when the padding store falls outside the array |
| `FloatScan.Ring.AddLimbs` | src/internal/floatscan.c:257-260 | the loop for any ring: outside stores by the position of its end, and a right mantissa if and only if there is none or the last cell is zero |
| `FloatScan.StraysIff` | src/internal/floatscan.c:257-260 | the condition in terms of radix point and length is the one by position, and the last cell is then among the cleared ones |
| `Digits.PackDigit` | src/internal/floatscan.c:98-105 | a digit enters the started limb: the packed integer becomes ten times itself plus the digit |
| `Digits.SetLowBit` | src/internal/floatscan.c:109-112 | a non-zero digit that no longer fits makes the packed integer odd and changes nothing else |
| `Digits.AddDigit` | src/internal/floatscan.c:97-113 | the limbs hold the digits read so far, or their kept part with a sticky bit, and the last non-zero position is known |
| `Digits.SkipZeros` | src/internal/floatscan.c:85-89 | leading zeros, with or without a radix point, are read as the reference reader reads them |
| `Digits.Collect` | src/internal/floatscan.c:81-115 | the collecting loops hold exactly the significant digits a reference reader finds, and know digits, radix point and end |
| `Digits.PackExactIff` | src/internal/floatscan.c:97-113 | what was packed is worth the digits read if and only if no non-zero digit was dropped |
| `Digits.PadLast` | src/internal/floatscan.c:154-158 | padding the last limb multiplies the packed integer by the missing power of ten, with as few limbs as the digits need |
| `Digits.PaddedValue` | src/internal/floatscan.c:154-163 | the limbs with the radix point rp are worth the kept digits |
| `Digits.GroupsUnique` | src/internal/floatscan.c:97-158 | limbs below 10^9 are determined by the integer they spell, so the packed limbs are the nine-digit groups |
| `Decfloat.ScanExp` | src/internal/floatscan.c:36-60 | the exponent is exact or, when very long, saturated far outside every range; no digits is told apart |
| `Numerals.ExponentReads` | src/internal/floatscan.c:36-60 | an exponent spelled as a sign or none and any digits, leading zeros included, is their number, negative exactly after a minus, and ends where they do |
| `Numerals.ExponentLacks` | src/internal/floatscan.c:42-51 | there is none if and only if no digit comes first or right behind a sign |
| `Decfloat.RangeOfSaturated` | src/internal/floatscan.c:144-151 | a saturated exponent decides about overflow and underflow exactly as the exponent itself does, and inside the range it is exact |
| `Decfloat.SmallValue` | src/internal/floatscan.c:166-172 | the one-limb results are exactly the number |
| `Decfloat.Scale` | src/internal/floatscan.c:175-260 | trimming, alignment, both loops and assembly give exactly the mantissa, exponent and outside store of the normalised limbs |
| `Decfloat.MantissasAre` | src/internal/floatscan.c:175-260 | that mantissa has its full length and is truncated from the normalised limbs; with its limbs and exponent it is worth the digits if none was dropped and none folded, and certainly if digits and radix point leave room |
| `Decfloat.MantissaTruncates` | src/internal/floatscan.c:178-260 | the same of mantissa and exponent for all limbs and radix points, after alignment and both loops |
| `Decfloat.Convert` | src/internal/floatscan.c:154-260 | exactly which numbers are returned without normalising, that they are exact, and the outcome for all others |
| `Decfloat.Classify` | src/internal/floatscan.c:139-260 | zero, overflow, underflow, direct and normalised results, each if and only if its condition on digits and radix point holds, and what each means |
| `Decfloat.Scan` | src/internal/floatscan.c:62-260 | from the text: which strings are malformed, lack an exponent or are zero, how much is consumed, nothing for the first two, and the outcome for the digits and the radix point spelled: overflow, underflow and direct results exactly when due, and else a full mantissa that is exact when there is room |
| `Numerals.MantissaReads` | src/internal/floatscan.c:81-115 | a numeral spelled as digits, a radix point and more digits has those digits without leading zeros, and as many decimals as stand behind the point |
| `Numerals.NumeralSpells` | src/internal/floatscan.c:81-142 | for every numeral, with or without radix point and exponent, the number scanned is its digits times the power of ten that exponent and point spell, and all of it is consumed |
| `Numerals.SeenIff` | src/internal/floatscan.c:117-137 | a text has a numeral if and only if it begins with a digit, or with a point and a digit |
| `Stray.StrayWitness` | src/internal/floatscan.c:257-260 | for the text 0.014551915228366851806640625 and every target type the scanner stores outside the array, with mantissa and exponent worth the number |
| `Shortfall.ShortfallWitness` | src/internal/floatscan.c:199-260 | for the text 34000000000.00000000186264515 and every target type the mantissa is more than one unit below the number |
| `DepGraph.BfsListsDependencies` | ldso/dynlink.c:1261-1305 | for every closed graph, cyclic or not, the breadth-first list is the direct dependencies followed by every other node reachable by at least one edge, once each, in order of discovery |
| `DepGraph.BfsLevels` | ldso/dynlink.c:1278-1301 | breadth-first order is order of distance |
| `DepGraph.FreshInOrder` | ldso/dynlink.c:1295-1299 | of a list's entries that are not taken yet, those taken come in the order in which they stand first |
| `StaleMarks.StaleListsIff` | ldso/dynlink.c:1261-1305 | started with some nodes marked, the list is complete if and only if every marked node that can be reached is a direct dependency |
| `StaleMarks.StaleLists` | ldso/dynlink.c:1261-1305 | whatever is marked, the list is the complete breadth-first list of the graph without the edges to marked nodes that are no direct dependency |
| `StaleMarks.StaleFitsIff` | ldso/dynlink.c:1464-1472 | two cells more than that list hold everything reachable and a terminator if and only if it misses no more nodes than it has direct dependencies repeated, and one if the node depends on itself |
| `StaleMarks.CompleteFits` | ldso/dynlink.c:1464-1472 | two cells more than a complete list always do |
| `StaleMarks.ShortButFits` | ldso/dynlink.c:1464-1472 | two nodes that need each other, one of them marked: the list is short and the cells suffice |
| `StaleMarks.GrownReachable` | ldso/dynlink.c:1295-1299 | whatever is marked, only dependencies that can be reached are listed |
| `StaleMarks.StaleNotAdded` | ldso/dynlink.c:1296 | a node marked before is never listed by a later round |
| `StaleMarks.ListsInLarger` | ldso/dynlink.c:1261-1305 | a complete list stays one when DSOs are loaded that no old one depends on |
| `StaleMarks.StaleWitness` | ldso/dynlink.c:1464-1505 | a chain of four with the third marked: its list is short, and the constructor walk needs four cells where three are taken |
| `DepGraph.StartWalk` | ldso/dynlink.c:1485-1490 | the walk's invariant holds with the root on the stack, whatever else is marked |
| `DepGraph.AdvanceWalk` | ldso/dynlink.c:1496-1497 | passing over a marked dependency keeps it |
| `DepGraph.DescendWalk` | ldso/dynlink.c:1498-1503 | going down to an unmarked dependency keeps it |
| `DepGraph.EmitWalk` | ldso/dynlink.c:1505 | emitting a node whose dependencies are scanned keeps it |
| `DepGraph.WalkDone` | ldso/dynlink.c:1493-1507 | when the stack is empty the output lists everything reachable without passing through a node marked before, once each, with v before u whenever u depends directly on v and v does not reach u |
| `DepGraph.OrderWithout` | ldso/dynlink.c:1493-1507 | if no node marked before can be reached, that is the constructor order of the whole graph |
| `Dependencies.ExtendBfsDeps` | ldso/dynlink.c:1261-1305 | whatever marks are set and whatever an earlier call has left in the list: the recorded list is complete if and only if none of that stands in the way, marks are clear on success, and on failure the marks and the part of the list that are left |
| `Dependencies.RecordClosure` | ldso/dynlink.c:1271-1304 | the body for a DSO whose closure is not recorded yet |
| `Dependencies.MarkAll` | ldso/dynlink.c:1274-1275 | exactly the listed DSOs are marked |
| `Dependencies.BfsLoop` | ldso/dynlink.c:1278-1301 | the growing loop terminates with the breadth-first list as far as marks let it, or stops or passes over an entry when memory gives out |
| `Dependencies.GrowOnce` | ldso/dynlink.c:1279-1300 | one round lists what is not marked, drops what an earlier call left behind, and never outgrows the array |
| `Dependencies.CountUnmarked` | ldso/dynlink.c:1280-1284 | the allocation is always large enough for what is appended |
| `Dependencies.AppendUnmarked` | ldso/dynlink.c:1295-1300 | the unmarked dependencies of an entry are appended once each and marked |
| `Dependencies.SizeQueue` | ldso/dynlink.c:1464-1472 | two cells more than the recorded list, or one more than there are DSOs, and exactly which marks are cleared |
| `Dependencies.RecordedFits` | ldso/dynlink.c:1464-1472 | for a complete list, or none, the cells suffice |
| `Dependencies.ExtendedFitsIff` | ldso/dynlink.c:1261-1472 | for a list recorded among stale marks they do if and only if it misses no more than is repeated or leads back |
| `Dependencies.PushPath` | ldso/dynlink.c:1499 | the downward stack stays clear of the upward queue |
| `Dependencies.PushDone` | ldso/dynlink.c:1505 | the upward queue stays clear of the downward stack |
| `Dependencies.WalkDown` | ldso/dynlink.c:1495-1504 | the inner loop ends at a DSO with all dependencies scanned, in step with the abstract walk, unless more is to be held than there are cells |
| `Dependencies.WalkOne` | ldso/dynlink.c:1494-1505 | one round of the outer loop marks more DSOs or shortens the stack, unless more is to be held than there are cells |
| `Dependencies.WalkAll` | ldso/dynlink.c:1485-1506 | the walk terminates with the constructor order in the array, unless more is to be held than there are cells |
| `Dependencies.FillQueue` | ldso/dynlink.c:1485-1508 | every store, the terminator included, finds a free cell if and only if there is one for each DSO the walk comes to and one more; then the order is in the array and exactly the marks from before are left |
| `Dependencies.UnmarkQueue` | ldso/dynlink.c:1508 | exactly the queued DSOs lose their marks |
| `Dependencies.QueueCtors` | ldso/dynlink.c:1464-1517 | the array is overrun if and only if it has no cell for each DSO the walk comes to and one more, never for a complete list; else the array up to its terminator lists them, once each, dependencies first except around cycles, everything the root reaches if nothing marked is in the way; no queue exactly when memory is short or a queued constructor was under way in a lost thread; marks are only cleared |
| `CtorProtocol.RunKeeps` | ldso/dynlink.c:1520-1558 | the invariant of visitors, queues and the destructor list holds in every state of every run |
| `CtorProtocol.BeginKeeps` | ldso/dynlink.c:1530-1540 | starting a constructor keeps it |
| `CtorProtocol.ReturnKeeps` | ldso/dynlink.c:1552-1555 | so does its return, also out of a nested call |
| `CtorProtocol.DestroyKeeps` | ldso/dynlink.c:1428-1442 | so does running one DSO's destructors |
| `CtorProtocol.LockHeld` | ldso/dynlink.c:1417-1557 | in every state of every run a thread holds init_fini_lock if and only if its innermost call is between the lock and the unlock or wait, not in a constructor or destructor, and never two threads are |
| `CtorProtocol.NeverStuck` | ldso/dynlink.c:1417-1557 | the thread that holds the lock can go on, unless it has run all destructors at exit; when none holds it, every thread in a call can |
| `CtorProtocol.ConstructorsStartOnce` | ldso/dynlink.c:1527-1532 | in every interleaving each DSO's constructors start at most once, and none starts after shutting_down is set |
| `CtorProtocol.StartsAfterDependencies` | ldso/dynlink.c:1527-1540 | when one starts, every DSO earlier in that thread's queue is constructed or under construction by the same thread |
| `CtorProtocol.DependenciesReady` | ldso/dynlink.c:1484-1540 | hence every direct dependency that does not depend back is, if the queue is a constructor order |
| `CtorProtocol.DestroyedOnlyConstructed` | ldso/dynlink.c:1428-1442 | destructors run only for DSOs that have them and are constructed |
| `CtorProtocol.DestroyedInReverse` | ldso/dynlink.c:1417-1443 | of any two DSOs whose destructors have run the one destroyed first was started later, so none is destroyed twice |
| `CtorProtocol.DestroyedAll` | ldso/dynlink.c:1428-1442 | when the exiting thread is through, every constructed DSO with destructors has had them run |
| `Aio.GetKeeps` | src/aio/aio.c:52-98 | every step of finding or creating a queue keeps the invariant |
| `Aio.SubmitKeeps` | src/aio/aio.c:243-289 | every step of a submission or a cancellation keeps it |
| `Aio.IoKeeps` | src/aio/aio.c:145-241 | every step of an I/O thread up to its clean-up keeps it |
| `Aio.UnrefKeeps` | src/aio/aio.c:100-126 | every step of dropping a reference keeps it |
| `Aio.RunKeeps` | src/aio/aio.c:52-289 | it holds in every state of every run |
| `Aio.QueueLockHeld` | src/aio/aio.c:52-289 | a queue is locked by a thread exactly while that thread is between the lock and the unlock or wait |
| `Aio.MapLockHeld` | src/aio/aio.c:52-126 | the map is locked by any number of readers or one writer, exactly where they hold that lock |
| `Aio.NeverStuck` | src/aio/aio.c:52-289 | as long as an operation is under way, some thread that is in one can take a step |
| `Aio.ReferencesCounted` | src/aio/aio.c:52-126 | ref is the number of operations that took a reference and have not dropped it, by the place they are at; the map holds exactly the queues not being freed, aio_fd_cnt counts them, and no thread points to a freed queue |
| `Aio.FreedAlone` | src/aio/aio.c:100-126 | when a queue is freed no other thread holds, awaits or can reach it |
| `Aio.AppendWritesExclusive` | src/aio/aio.c:211-219 | on an append-mode queue at most one write is in its I/O phase |
| `Aio.NotOlderKept` | src/aio/aio.c:197-199 | no step lets an operation overtake one enlisted before it |
| `Aio.WaitsForEarlierWrites` | src/aio/aio.c:211-219 | a sync on any queue, and a write on an append-mode queue, is neither in its I/O phase nor past it while a write enlisted before it is still on the list |
| `Aio.OnlyOrderedWait` | src/aio/aio.c:211-219 | nothing else ever waits |
| `AioList.AioQueue.Enlist` | src/aio/aio.c:197-199 | linking in front keeps the doubly linked list well formed |
| `AioList.AioQueue.Unlist` | src/aio/aio.c:147-149 | unlinking from any place keeps it well formed, without that operation and in the same order |
| `AioList.AioQueue.WriteBehind` | src/aio/aio.c:213-214 | the scan finds a write behind an operation if and only if there is one |
| `Aio.WithoutCuts` | src/aio/aio.c:147-149 | the step that takes an operation off the list is that cut |
| `TlsLayout.Maxp2IsMax` | ldso/dynlink.c:42 | on powers of two MAXP2 is the maximum |
| `TlsLayout.AlignUpFacts` | ldso/dynlink.c:43 | ALIGN rounds up to the next multiple |
| `TlsLayout.NextOffsetLeast` | ldso/dynlink.c:1195-1198 | a module's offset is the least one above the blocks so far that is congruent to minus its image |
| `TlsLayout.AppOffsetLeast` | ldso/dynlink.c:1860-1862 | so is the application's |
| `TlsLayout.LeastIsLeast` | ldso/dynlink.c:1195-1198 | no smaller offset would do |
| `TlsLayout.AppIsFirst` | ldso/dynlink.c:1851-1865 | the two formulas agree on the first module |
| `TlsLayout.ThreadAtFacts` | src/env/__init_tls.c:60-62 | the thread structure is aligned and loses less than one alignment unit |
| `TlsLayout.ZeroAlignOffset` | ldso/dynlink.c:1195-1198 | with alignment 0 a module, or the application, gets the offset minus its image, whatever its size |
| `TlsLayout.ZeroAlign` | ldso/dynlink.c:42-43 | with alignment 0 MAXP2 and ALIGN give 0, and the thread structure goes to address 0 |
| `TlsLayout.Loader.constructor` | ldso/dynlink.c:145-146 | no modules, minimum alignment |
| `TlsLayout.Loader.AddApplication` | ldso/dynlink.c:1851-1865 | the application's block is laid out if it has one, unless its alignment is 0 |
| `TlsLayout.Loader.AddModule` | ldso/dynlink.c:1187-1206 | the blocks stay stacked without overlap, congruent to their images, under an alignment that suits them all, if and only if no module has alignment 0; that makes the alignment 0, and its block clears those below exactly if they and its image fit the address space together |
| `TlsLayout.Loader.UpdateTlsSize` | ldso/dynlink.c:1578-1588 | the published size is enough for DTV, blocks and thread structure wherever the area starts, if and only if no module has alignment 0; else it is 0 |
| `TlsLayout.Placement` | src/env/__init_tls.c:57-72 | in an area of such a size DTV, all blocks and the thread structure are pairwise disjoint and inside, each block congruent to its image modulo its alignment |
| `TlsLayout.CopyStep` | src/env/__init_tls.c:64-67 | one round sets a DTV entry and a block and disturbs nothing set before |
| `TlsLayout.CopyTls` | src/env/__init_tls.c:57-71 | afterwards every DTV entry read back is its block's address, every block starts with its image, the count and the thread's pointer to its DTV are right and no other byte has changed |
| `TlsLayout.StaticLayout` | src/env/__init_tls.c:103-129 | a statically linked program's sizes are enough too, with and without a TLS header, unless its alignment is 0 |
| `TlsInstall.Reserve` | ldso/dynlink.c:1165-1202 | a division by zero, a refusal and a grant each exactly when due; what is granted holds the new DTVs and blocks behind the name, in order and aligned, if and only if the need of a thread does not wrap around |
| `TlsInstall.WrapWitness` | ldso/dynlink.c:1167-1171 | two sizes for which it does: one is granted five bytes a thread, one makes the code divide by zero |
| `TlsInstall.BlockFits` | ldso/dynlink.c:1611-1620 | a thread's new block lies in its reserved room, congruent to the image |
| `TlsInstall.ZeroAlignBlock` | ldso/dynlink.c:1614-1615 | with alignment 0 it is the image itself, the same for every thread |
| `TlsInstall.BlocksApart` | ldso/dynlink.c:1611-1620 | new blocks of different modules or threads never overlap |
| `TlsInstall.BlockRowApart` | ldso/dynlink.c:1595-1620 | no new block overlaps a new DTV |
| `TlsInstall.RowStep` | ldso/dynlink.c:1603-1607 | one round of the first loop |
| `TlsInstall.BlockStep` | ldso/dynlink.c:1612-1619 | one round of the second loop disturbs nothing done before |
| `TlsInstall.CopyDtvs` | ldso/dynlink.c:1603-1607 | every new DTV has the new length and all old entries |
| `TlsInstall.FillModule` | ldso/dynlink.c:1611-1620 | every thread has an entry and an initialised block for the module |
| `TlsInstall.SwitchDtvs` | ldso/dynlink.c:1629-1631 | every thread points to its new DTV |
| `TlsInstall.InstallNewTls` | ldso/dynlink.c:1590-1635 | every live thread has a DTV of length tls_cnt with its old entries and with new ones that point to blocks holding the image; no byte outside the new DTVs and images has changed |
| `GnuHash.SysvIsElf` | ldso/dynlink.c:233-242 | leaving the top bits in until the end computes the hash of the System V gABI |
| `GnuHash.ElfTakes` | ldso/dynlink.c:233-242 | the hash of the gABI takes the bytes in order, the last one included |
| `GnuHash.ElfStep` | ldso/dynlink.c:236-240 | a byte shifts it by four and is added, and what goes beyond 28 bits is folded into bits 4 to 7 |
| `GnuHash.Gnu` | ldso/dynlink.c:244-251 | for every name the loop computes the polynomial 5381 * 33^n + c1 * 33^(n-1) + ... + cn modulo 2^32, in which every byte counts |
| `GnuHash.GnuTakes` | ldso/dynlink.c:244-251 | that polynomial starts at 5381 and one more byte multiplies it by 33 and adds the byte |
| `GnuHash.Sysv` | ldso/dynlink.c:233-242 | the loop computes the gABI hash |
| `GnuHash.GnuLookup` | ldso/dynlink.c:267-286 | on a well-formed table the result is that of a linear scan of the hashed symbols for a visible one of that name |
| `GnuHash.GnuLookupFiltered` | ldso/dynlink.c:288-298 | the filter changes nothing: same result |
| `GnuHash.SysvLookup` | ldso/dynlink.c:253-265 | the first match along the chain of the name's hash, which is a match if the DSO has one at all |
| `GnuHash.LookupsAgree` | ldso/dynlink.c:253-298 | with unique names both tables give the same symbol |
| `GnuHash.CountSyms` | ldso/dynlink.c:966-983 | the exact number of symbols if and only if there is a System V table or some symbol is hashed, and otherwise 0 |
| `GnuHash.CountHashed` | ldso/dynlink.c:970-982 | from a GNU table alone: exact if and only if some bucket is non-empty |
| `GnuHash.NothingHashed` | ldso/dynlink.c:966-983 | a well-formed table with one symbol that is counted as none |
| `GnuHash.Accepts` | ldso/dynlink.c:325-333 | the branches accept exactly defined (or tolerated), non-null or TLS symbols of the listed types and bindings |
| `GnuHash.Lookup` | ldso/dynlink.c:312-323 | the section a DSO has is asked with the right hash and filter arguments, so that its answer is the first match |
| `GnuHash.FindSym` | ldso/dynlink.c:310-339 | the definition returned is the answer of the first DSO along the scope whose answer is acceptable, and there is none only if no DSO has one |
| `Dlopen.Loader.constructor` | ldso/dynlink.c:1881 | the program alone on list and chain |
| `Dlopen.Loader.AddSyms` | ldso/dynlink.c:1321-1327 | a DSO is appended to the symbol chain unless it is on it |
| `Dlopen.Loader.RevertSyms` | ldso/dynlink.c:1329-1338 | the chain is cut back to what it was, and no DSO cut off keeps a link |
| `Dlopen.Loader.LoadLibrary` | ldso/dynlink.c:1178-1216 | nothing, with lists and counters as they were, a DSO already there, or a new one at the end of the list and perhaps of the TLS list |
| `Dlopen.Loader.LoadDirectDeps` | ldso/dynlink.c:1219-1252 | only a DSO without dependencies gets them, all of them direct; the lists only grow |
| `Dlopen.Loader.LoadDeps` | ldso/dynlink.c:1254-1259 | on success every DSO of the list has its dependencies recorded, and those loaded by the call are otherwise untouched |
| `Dlopen.Loader.ExtendDeps` | ldso/dynlink.c:1261-1305 | what is recorded is complete if and only if nothing stale stands in the way; an old DSO depends on old ones only; complete lists and clear marks stay so unless memory gives out, and then which marks are left |
| `Dlopen.Kept` | ldso/dynlink.c:1261-1305 | what recording one closure does to the lists and marks of all other DSOs, old and new |
| `Dlopen.AmpleIff` | ldso/dynlink.c:1261-1472 | for a closure recorded by the call the array of the constructor queue suffices if and only if the list misses no more than is repeated or leads back |
| `Dlopen.Loader.QueueFor` | ldso/dynlink.c:2089-2092 | the constructor queue of a DSO not yet constructed, or its failure; an overrun exactly if the array does not suffice |
| `Dlopen.Loader.AddAll` | ldso/dynlink.c:2099-2104 | the DSO and its dependencies that are not on the symbol chain go to its end |
| `Dlopen.JoinedIs` | ldso/dynlink.c:2099-2104 | the chain so joined keeps what was on it in place and has the DSO and all its dependencies on it, once each, in order, and nothing else |
| `Dlopen.Loader.RelocAll` | ldso/dynlink.c:1360-1387 | on success every DSO of the list is relocated, and symbols were looked up in the chain as it stood at the call |
| `Dlopen.Loader.Bind` | ldso/dynlink.c:2093-2107 | a DSO not yet relocated is relocated against the chain joined by it and its dependencies; the chain is joined exactly if it was not relocated or symbols are global; what a roll-back needs is kept |
| `Dlopen.Loader.Rollback` | ldso/dynlink.c:2048-2074 | from any state of a call, list, chain, TLS list, counters and lazy head go back, and exactly the DSOs loaded by the call are gone |
| `Dlopen.Loader.Open` | ldso/dynlink.c:2087-2114 | everything after load_library, any step of which may fail, with the constructor queue that comes of it |
| `Dlopen.Loader.DlOpen` | ldso/dynlink.c:2012-2119 | a call that fails, or finds nothing, leaves lists, links and counters as they were, and no surviving DSO depends on or is linked to a discarded one; a call that succeeds leaves every DSO settled and returns the constructor order, with global symbols leaves the chain joined by the DSO and its dependencies and else as it was, and has relocated a new DSO against the joined chain; recorded lists stay complete, marks clear and queues inside their arrays unless memory gives out while dependencies are recorded; and exactly when marks left by such a call spoil a list, and when a queue overruns its array |
| `Relr.Object.MoveSelected` | ldso/dynlink.c:563-566 | the bitmap loop moves the selected words |
| `Relr.Object.DoRelrRelocs` | ldso/dynlink.c:553-569 | the words decoded from the stream are moved in order, and nothing for the linker itself |
| `Relr.Object.StartRelocs` | ldso/dlstart.c:133-146 | the start-up loop does the same |
| `Relr.MovedAt` | ldso/dynlink.c:553-569 | for any stream a word has the load address added as often as it is named |
| `Relr.MovedExactlyOnce` | ldso/dynlink.c:553-569 | for increasing addresses exactly once, and other words stay |
| `Relr.WindowDecodes` | ldso/dynlink.c:563-567 | a bitmap selects exactly the addresses encoded in it |
| `Relr.BitsSmall` | ldso/dynlink.c:563-567 | a bitmap entry fits a word |
| `Relr.DecodeEncode` | ldso/dynlink.c:553-569 | decoding undoes a reference encoder |
| `Relr.BitmapsName` | ldso/dynlink.c:558-568 | an address and a run of bitmaps name the address and the words whose bits are set, each bitmap standing for the 8w - 1 words behind those of the one before it |
| `DesTables.IpBits` | src/crypt/crypt_des.c:728-737 | where every bit goes in the initial permutation |
| `DesTables.FpBits` | src/crypt/crypt_des.c:782-795 | where every bit goes in the final permutation |
| `DesTables.IpIsStandard` | src/crypt/crypt_des.c:190-355 | the initial permutation is table IP of FIPS PUB 46-3 |
| `DesTables.FpAfterIp` | src/crypt/crypt_des.c:190-441 | the final permutation undoes the initial one |
| `DesTables.IpAfterFp` | src/crypt/crypt_des.c:190-441 | and the other way round |
| `DesCipher.Permute` | src/crypt/crypt_des.c:728-737 | the table loop computes the initial permutation, also for the zero block it skips |
| `DesCipher.PermuteBack` | src/crypt/crypt_des.c:782-795 | the loop over two nibbles at a time computes the final permutation |
| `DesCipher.RoundFunction` | src/crypt/crypt_des.c:746-771 | expansion, salt, key and boxes; every box index is in range |
| `DesCipher.ExpandLBits` | src/crypt/crypt_des.c:748-752 | the left half of the expansion is the first half of table E of FIPS PUB 46-3 |
| `DesCipher.ExpandRBits` | src/crypt/crypt_des.c:754-758 | the right half is the second |
| `DesCipher.BoxDigits` | src/crypt/crypt_des.c:764-771 | the box indices are the six-bit groups of a half, in order |
| `DesStandard.KeyedBits` | src/crypt/crypt_des.c:760-762 | what enters the boxes, bit by bit: the bit of table E, from the other half where the salt has a one, exclusive or the bit of the 48-bit key |
| `DesStandard.RoundBits` | src/crypt/crypt_des.c:746-771 | box b is entered at the number that bits 6b to 6b + 5 of those 48 spell, and a bit of the result is set exactly if it is in one of the eight outputs |
| `DesCipher.RunRounds` | src/crypt/crypt_des.c:741-778 | the inner loop and the exchange are one pass |
| `DesCipher.DoDes` | src/crypt/crypt_des.c:721-796 | the whole is initial permutation, `count` passes, final permutation |
| `DesCipher.RoundsUndone` | src/crypt/crypt_des.c:745-776 | rounds with reversed keys on exchanged halves undo rounds, for any round function |
| `DesCipher.PassesUndone` | src/crypt/crypt_des.c:739-779 | so do any number of passes |
| `DesCipher.DesUndone` | src/crypt/crypt_des.c:721-796 | the reversed schedule deciphers, for every key schedule, block, salt and count |
| `Encrypt.Pack` | src/crypt/encrypt.c:30-35 | 32 entries become a word |
| `Encrypt.Unpack` | src/crypt/encrypt.c:48-51 | and a word 32 entries |
| `Encrypt.UnpackPacked` | src/crypt/encrypt.c:30-51 | unpacking undoes packing up to the low bits |
| `Encrypt.PackUnpacked` | src/crypt/encrypt.c:30-51 | packing undoes unpacking |
| `Encrypt.Turned` | src/crypt/encrypt.c:38-44 | the decryption schedule is the reversed one |
| `Encrypt.Crypt.Encrypt` | src/crypt/encrypt.c:23-52 | the block is replaced by the cipher of its low bits |
| `DesStandard.RoundsEnd` | src/crypt/crypt_des.c:745-776 | the rounds end with the last two of the halves that x(i+2) = x(i) xor f(k(i), x(i+1)) gives |
| `DesStandard.EncryptIsDes` | src/crypt/encrypt.c:23-52 | entry by entry: the block under table IP gives the first two halves, the keys are taken in order for flag 0 and backwards otherwise, and the last two halves, exchanged, under the inverse of IP are the result |
| `DesStandard.RunExists` | src/crypt/encrypt.c:23-52 | every block and schedule has such halves |
| `Encrypt.EncryptUndone` | src/crypt/encrypt.c:23-52 | enciphering and deciphering, in either order, give the low bits back |
| `Encrypt.RestoredIff` | src/crypt/encrypt.c:23-52 | the block comes back if and only if its entries are 0 or 1 |
| `Encrypt.NotRestored` | src/crypt/encrypt.c:30-35 | a block that does not |
| `HashStream.PaddedWhole` | src/crypt/crypt_sha256.c:86-107 | the standards' padding fills whole blocks of 64 bytes, for SHA-512 128, with the fewest zeros |
| `HashStream.CountField` | src/crypt/crypt_sha512.c:112-121 | the eight bytes stored, with the zeros before them, are the standard's length field; for MD5 also beyond 2^64 bits |
| `HashStream.FieldSpells` | src/crypt/crypt_sha256.c:97-105 | the length field has 16 bytes for SHA-512 and else eight, and read back, big-endian, for MD5 little-endian, it is the length in bits modulo its width |
| `HashStream.DigestWord` | src/crypt/crypt_sha256.c:127-132 | each word read back from its place in the digest is the word of the chaining value: four bytes, for SHA-512 eight, big-endian, for MD5 little-endian |
| `HashStream.PadBytes` | src/crypt/crypt_md5.c:82-103 | what fills the buffer up, in one block or two, is the standard's padding |
| `HashStream.Context.constructor` | src/crypt/crypt_sha256.c:109-120 | nothing taken in |
| `HashStream.Context.Update` | src/crypt/crypt_sha256.c:135-154 | whatever has been taken in before, the context has then taken in that and the new bytes |
| `HashStream.Context.Pad` | src/crypt/crypt_sha512.c:102-123 | the chaining value is the compression of the padded message |
| `HashStream.Context.Sum` | src/crypt/crypt_md5.c:114-125 | the digest is that of the padded message |
| `HashStream.HashChunks` | src/crypt/crypt_sha256.c:86-154 | for every way of cutting a message up, init, updates and sum give the hash of the whole |
| `HashStream.HashDigest` | src/crypt/crypt_sha256.c:173-180 | exactly n bytes of the digest repeated cyclically are fed |
| `IntScan.ReadDecimal` | src/internal/intscan.c:63-68 | the positional value without wrap-around, or a stop where 64 bits do not suffice |
| `IntScan.ShiftIs` | src/internal/intscan.c:70 | the shift looked up is the logarithm of the base |
| `IntScan.ReadShifted` | src/internal/intscan.c:69-74 | the same for powers of two |
| `IntScan.ReadScaled` | src/internal/intscan.c:75-80 | the same for every other base |
| `IntScan.Accumulate` | src/internal/intscan.c:63-98 | all digits are consumed and nothing after them, and the result is the value or the saturated limit |
| `IntScan.Finish` | src/internal/intscan.c:81-98 | exact signed or unsigned value when in range, else the limit with ERANGE, if and only if out of range |
| `IntScan.Scan` | src/internal/intscan.c:25-99 | white space, sign, prefix, base and errors as the standard has them, for every string, base and limit 2^k or 2^k - 1 |
| `IntNumerals.HexRead` | src/internal/intscan.c:35-98 | white space, a sign, 0x and hexadecimal digits of either case, with base 16 or none: their number, negated after a minus, and all is consumed |
| `IntNumerals.OctalRead` | src/internal/intscan.c:35-98 | a zero and octal digits, with no base: their number in base 8 |
| `IntNumerals.PlainRead` | src/internal/intscan.c:35-98 | digits alone: their number in the base given, or in base 10 |
| `IntNumerals.NothingRead` | src/internal/intscan.c:31-62 | no digit of the base, or no such base: EINVAL, and nothing is consumed |
| `IntNumerals.ZeroRead` | src/internal/intscan.c:35-49 | 0x and no hexadecimal digit: zero, consumed up to the x if push-back is allowed |
| `AtExit.Handlers.constructor` | src/exit/atexit.c:14-22 | no handlers |
| `AtExit.Handlers.Register` | src/exit/atexit.c:45-76 | the handler goes on top of the stack the blocks stand for, unless draining is over or memory is short; the first 32 need no memory |
| `AtExit.Handlers.Next` | src/exit/atexit.c:30-37 | the next handler is the top of the stack; the drain ends exactly when it is empty |
| `AtExit.Handlers.Drain` | src/exit/atexit.c:26-39 | each handler called is followed by the outcome of exactly its own registrations in order, and the whole is a legal history of a stack that ends empty |
| `AtExit.CalledOnce` | src/exit/atexit.c:26-76 | in such a history every handler there was or that was registered is called exactly once or still waits |

## Left out

- FloatScan.Ring.ScaleUp: does not bound rp and e2 to the width of int; the scanner's range checks keep them far inside it.
- Decfloat.Scan: stops at the assembled mantissa; rounding, scaling and denormals after it need a floating-point model. `hexfloat`, `inf` and `nan` are not modelled.
- Decfloat.MantissasAre: without the room no value is claimed, as the source then rounds by a sticky bit; that the condition for room is necessary is not claimed either.
- Dependencies.ExtendBfsDeps: at start-up an entry passed over for want of memory only keeps what is listed reachable; the program then ends.
- Dependencies.QueueCtors: the model stops at the first store that finds no free cell, and claims nothing of what the source does after it; `ldd` mode and the static queue of the program are not modelled.
- CtorProtocol.NeverStuck: some thread can always go on, but fair scheduling, and so that a given thread gets its turn, is not modelled; the read-write lock taken at exit and constructors that never return play no part.
- Aio.NeverStuck: some thread can always go on, but fair scheduling is not modelled; nor are fork, signals, the notifications of clean-up and cancellation of a thread inside the condition wait, and the four-level table is a map.
- TlsInstall.InstallNewTls: memory barriers and signal blocking are not modelled; the thread ring is the sequence of its threads from the caller on; alignments are powers of two and what was reserved suffices, for the other cases see `TlsInstall.ZeroAlignBlock` and `TlsInstall.Reserve`.
- TlsLayout.Loader.AddModule: an alignment is 0 or a power of two, sizes do not overflow an address, and the image is no longer than the block, as ELF has it.
- GnuHash.LookupsAgree: assumes unique visible names, and none of them below the first symbol of the GNU table.
- Dlopen.Loader.DlOpen: libc is already in the list; file search, mapping, error texts and the lazy list beyond its head are not modelled, what load_library finds is left open, and nothing is claimed of a call that overruns the array of its queue.
- Relr.Object.DoRelrRelocs: memory is the words at aligned offsets; a word named that is not there is passed over.
- Relr.DecodeEncode: the reference encoder is this project's own; the source has only decoders.
- HashStream.Context.Sum: the compression functions are parameters, and for SHA the message's length in bits is below 2^64.
- DesCipher.DoDes: the S-boxes are a parameter, and the key schedule (`__des_setkey`) is not modelled; each mask table row is given by its entries for single bits, whose or the other entries are.
- IntScan.Scan: reads a string; limited reads from a stream are not modelled.
- AtExit.Handlers.Drain: one thread drains; locking, and `__cxa_finalize`, which does nothing, are not modelled, and the chain of blocks is a sequence of blocks that the methods reassign.
- Relocation processing other than packed relative relocations, path search and `LD_PRELOAD`.
- Blowfish, the crypt front ends, the environment functions, directory streams and `at_quick_exit`: they would only add easy members.
- Character tables, headers and thin system-call wrappers.
