# A verified model of peony

peony is an x86-64 ELF linker whose promise is that an incremental relink leaves the same bytes as a
full link. This project models the parts that promise rests on, and proves what they guarantee for
every input, run or interleaving.

| file | what it models |
|---|---|
| `Bytes`, `Tables`, `Objects` | byte images, little-endian fields, string tables, parsed objects |
| `Reloc`, `FootprintTight`, `RelocMeaning`, `RelaxedTls`, `RelocAction` | relocation stores, the bytes they reserve, what the stored fields and rewritten instructions mean, and the decision which addresses to use |
| `InputWork`, `Dispatch` | accepted byte ranges, parallel dispatch of work items |
| `EhFrame`, `EhRelocation`, `EhTable` | `.eh_frame` scanning and the search table; what relocation leaves of the records, and where the rows lead |
| `Emit`, `EmitInPlace`, `ShrinkingHdr` | the full and the minimal emit as image functions, the loops that write the buffer, and the search table that shrinks |
| `WorkList`, `EmittedImage`, `EmittedFields`, `EmittedTables`, `EmittedHeaders`, `EmittedAddresses` | what every byte of a full emit is: contributions, relocated fields, tables, headers, gaps; and that the work is done at the addresses of the layout |
| `ReverseIndex`, `RelinkPlan`, `RelinkReasons`, `Daemon`, `DaemonProgress`, `PatchedImage` | the lock-free relocation index, the red-green planner and its refusals, the resident daemon and its clients, when it answers what, and its patch on bytes |
| `Symbols`, `SymbolTable`, `SymbolRuns` | symbol resolution, ids, and what a run of table operations leaves in an entry |
| `Archives`, `ResolvedRun`, `ArchiveLoop` | COMDAT groups, runs of objects, lazy archive members and the fixpoint around them |
| `Gc`, `Addrsig`, `Icf`, `IcfMeaning` | section garbage collection, address-significance tables, identical code folding |
| `SysvHash`, `HashMeaning`, `Verneed`, `VersionRecords`, `VersionMeaning` | `.hash`, symbol versions, and what a loader concludes from them |
| `DynReloc`, `DynRelocMeaning`, `CountsTight`, `TlsReloc`, `TlsMeaning`, `RelaDyn`, `RelaMeaning` | dynamic relocations counted, collected and assembled, and what a loader does with them |
| `SectionNames`, `NamesExactly`, `Grouping`, `SymbolHomes`, `Placement`, `PlanOrder`, `Segments`, `ImagePlan`, `SegmentRights` | kinds and names of sections, output sections, addresses and file offsets, the order within segments, segments and their rights, and the pass from grouped sections to the placed image |
| `Relro`, `RelroExact`, `TlsBlock`, `SmallLayouts`, `StrayRelro`, `StrayTls` | pages of the `PT_GNU_RELRO` span, the start of `PT_TLS`, and two concrete layouts |
| `Relocatable`, `RelocatableSymbols`, `Reparsed` | partial links (`-r`), and what the next link reads of them |
| `Glob` | wildcard patterns |

Code that loops over a buffer, a table or a worklist is a method or a class here, proved against a
function of its inputs; the properties are then lemmas about that function. Threads are interleavings
of sequentially consistent atomic steps. Digests and fingerprints are parameters, and where a property
needs "equal digest, equal content" it says so.

## What the proofs found

These are places where the code does not keep a promise of its documentation. Each has a lemma with a
concrete witness and, beside it, the condition under which the promise holds.

- The daemon answers NOCHANGE or RELINKED without looking at the output again. A link of the same
  output with `--gc-sections` or `--icf`, and a link that fails after it has begun to write, both leave
  `layout.bin` alone, so the daemon vouches for an output that is not up to date
  (`Daemon.GcLinkFoolsDaemon`, `Daemon.FailedEmitFoolsDaemon`). Claims are true exactly when each was
  made while the output was the recorded one or a failed patch of it (`Daemon.ClaimsAreTrueIffSound`).
  Comparing the output's fingerprint with the manifest before a reply is always enough, and exact when no
  patch fails half way (`Daemon.RecordedIsEnough`).
- The minimal emit does not clear the end of a longer, older `.eh_frame_hdr` table. An object that loses an
  FDE without changing size leaves a stale row (`ShrinkingHdr.LostFdeLeavesARow`); minimal and full emit
  agree exactly when the stale bytes are those a full link starts from (`Emit.MinimalEqualsFull`), which
  with a reserved table means no fewer FDEs than before (`ShrinkingHdr.MinimalEqualsFullIffNoFewerFdes`).
  The incremental link is safe from it because its per-object digest covers the bytes of `.eh_frame`
  (`ShrinkingHdr.KeptTableIsEnough`).
- A definition that replaces a common symbol does not take over the indirect-function flag
  (`Symbols.IfuncLost`, exact condition in `Symbols.IfuncFlag`).
- Identical code folding compares relocation targets by name. Two objects that each call their own local
  function of one name have their callers folded although the targets differ
  (`Icf.FoldsDifferentTargets`); the names identify the targets in every symbol view exactly when neither
  is local or both are the same symbol (`Icf.TargetsAgree`).
- `.rela.dyn` is sized before linker-provided symbols and `--defsym`s are defined and filled after it, so a
  64-bit slot for such a name is collected but was not counted (`DynReloc.LinkerSymbolUncounted`). The
  counts are enough for every input exactly when no name gains an address or an importing library in
  between (`DynReloc.CountsBoundExactly`). A General-Dynamic reference to a thread-local symbol in a section
  that layout dropped is counted once and collected twice (`TlsReloc.DroppedSectionOverflows`); each such
  reference is one record more than counted, and each that got a place after counting is one less
  (`TlsReloc.TlsCountExactly`).
- Version indices are 16-bit and the loader masks the top bit: distinctness holds for exactly 65534
  versions in the section and exactly 32766 for a loader (`VersionRecords.IndexLimit`,
  `VersionRecords.LoaderLimit`).
- The reverse index is sized by the number of table entries, not by the number of ids. Larger ids would be
  missed (`RelinkPlan.BigIdsAreMissed`); the order of operations in a link rules them out
  (`RelinkPlan.IndexHasRoom`).
- Marking drops roots whose section was not parsed and references outside the live bitmap, which the
  verification crate's recomputation keeps: the two agree exactly when nothing was dropped
  (`Gc.WitnessAgrees`, `Gc.UnparsedEntryDisagrees`).
- A truncated `.eh_frame` piece can make the merged section hold more FDEs than were counted
  (`EhFrame.LeftoverBreaksTheBound`). The sum of the counts is a bound whatever follows exactly when the
  piece ends where its scan stops, or stops at an extended length (`EhFrame.BoundExactly`); a leftover in
  the last piece is harmless (`EhFrame.MergedBound`).
- The RELRO scan goes by name and write flag, placement by permission. A `.init_array` that is both writable
  and executable lies in the executable segment, the span starts with it, and code lies on its page
  (`StrayRelro.StrayRelroSharesAPage`). Whatever the sections hold, the pages of the span are its own
  exactly when names do not mix: no such section beside one without a RELRO name, and none without file
  contents that the scan reaches (`RelroExact.RelroPagesExactly`). The second case takes a linker script
  (`RelroExact.UnscriptedExactly`, `SectionNames.NobitsIsNoRelro`).
- `.data.rel.ro` is on the list of RELRO sections, but the naming without a script sends it, and all its
  continuations, to `.data` (`NamesExactly.DataRelRoIsPlainData`): only `.dynamic`, `.fini_array`, `.got` and
  `.init_array` and their continuations get a RELRO name (`NamesExactly.DefaultRelroExactly`).
- `PT_TLS` starts at the first section of thread-local data, but the last one is aligned for all of them.
  With `.mytls` before a more strictly aligned `.tdata` its address is no multiple of its alignment
  (`StrayTls.FirstTlsMisaligned`). The first TLS section is aligned for all exactly when it is the raised
  one, with nothing larger outside the writable sections, or has the largest alignment anyway
  (`TlsBlock.LeadFitsExactly`).
- In partial links the output sections 0xfff0 and 0xfff1 turn into absolute and common symbols, and from
  section 65535 on the 16-bit header index wraps (`RelocatableSymbols.SectionIndexWraps`): a symbol keeps its
  address exactly below the reserved indices (`RelocatableSymbols.SectionIndexExactly`).

## Model

| member | source | states |
|---|---|---|
| `Reloc.PatchStaysInFootprint` | peony-emit/src/input_work/footprints.rs:12-47 | whatever the type, addresses, offset and buffer, applying a relocation changes no byte outside the footprint reserved for its type |
| `Reloc.OutsideFootprint` | peony-emit/src/input_work/footprints.rs:12-47 | byte by byte: a relocation whose footprint starts inside the section leaves every byte outside the footprint as it was |
| `Reloc.FieldReadsBack` | peony-reloc/src/apply.rs:301-802 | a plain relocation reports overflow exactly when its value is outside the field's range, panics exactly when an in-range value's field runs off the section, and on success the field reads back as the ABI value of its formula in its width |
| `Reloc.RelaxedGdReadsBack` | peony-reloc/src/apply.rs:301-802 | a relaxed General-Dynamic sequence holds the replacement code and a displacement that reads back as the thread-pointer offset, or as the way to the Initial-Exec slot when a library owns the symbol |
| `Reloc.PatchBuf` | peony-reloc/src/apply.rs:301-802 | patching a slice in place gives exactly the patched bytes and outcome of the value model, and leaves the buffer around the slice alone |
| `FootprintTight.FootprintExactly` | peony-emit/src/input_work/footprints.rs:12-47 | the bytes reserved for a relocation type at an offset are exactly those that some patch of that type reads or writes |
| `FootprintTight.PatchIsLocal` | peony-emit/src/input_work/footprints.rs:12-47 | a byte outside the footprint takes no part in the patch: changing it before gives the same as changing it after |
| `RelocMeaning.FieldLeadsTo` | peony-reloc/src/apply.rs:301-802 | place plus the stored PC-relative field, as 64-bit addresses, is what the type refers to (symbol, PLT stub, GOT slot, GOT, TLS slot) plus the addend |
| `RelocMeaning.FieldAddresses` | peony-reloc/src/apply.rs:301-802 | an absolute field is the symbol's address and the addend, a size field the size and the addend, and the GOT-relative ones point there from the GOT's start |
| `RelocMeaning.ThreadOffsets` | peony-reloc/src/apply.rs:301-802 | a thread-pointer offset points from the end of the TLS block to the symbol, as does a block offset in an executable; a shared object's counts from the block's start |
| `RelocMeaning.NarrowFields` | peony-reloc/src/apply.rs:301-802 | 8-, 16- and unsigned 32-bit fields hold the same sums cut to their width |
| `RelaxedTls.RelaxedGd` | peony-reloc/src/apply.rs:301-802 | running the rewritten General-Dynamic code leaves the address of the variable: of the block's own one, or of the one behind the loader's Initial-Exec slot |
| `RelaxedTls.RelaxedLd` | peony-reloc/src/apply.rs:301-802 | running the rewritten Local-Dynamic code leaves the thread pointer, from which an executable's offsets count |
| `RelaxedTls.RelaxedDesc` | peony-reloc/src/apply.rs:301-802 | the rewritten descriptor sequence leaves the offset from the thread pointer that the descriptor's call returned |
| `RelaxedTls.RelaxedCall` | peony-reloc/src/apply.rs:301-802 | and the rewritten call itself changes nothing |
| `RelocAction.AppliedExactly` | peony-reloc/src/apply.rs:104-292 | a relocation is applied exactly when its symbol has an address and it is no call to `__tls_get_addr` behind a relaxed sequence, fails exactly when a table entry is wanted and gives no address, and uses that address, its own addend and the place it has in memory |
| `RelocAction.AppliedSlots` | peony-reloc/src/apply.rs:104-292 | GOT slot, PLT stub and size come from the table entry, the stub and size only if it is defined |
| `RelocAction.AppliedTls` | peony-reloc/src/apply.rs:104-292 | a thread-local access uses the slots of its reference and the offset that those slots are filled from |
| `RelocAction.AppliedPlain` | peony-reloc/src/apply.rs:104-292 | other relocations use none of these |
| `RelocAction.BuildSymIndex` | peony-reloc/src/apply.rs:23-71 | the loops record for each symbol of each object its table entry, and none for local and nameless symbols |
| `RelocAction.IndexIsLookup` | peony-reloc/src/apply.rs:23-71 | deciding through that index is deciding through the table |
| `InputWork.ValidateWorkItemRanges` | peony-emit/src/input_work/ranges.rs:97-146 | accepts exactly the item lists whose ranges lie in the buffer, hold their relocations' footprints and are pairwise disjoint, and on acceptance returns each item's range |
| `InputWork.SortedCheckIsPairwise` | peony-emit/src/input_work/ranges.rs:97-146 | comparing neighbours after sorting by start is the same as comparing all pairs |
| `InputWork.CollectRanges` | peony-emit/src/input_work/ranges.rs:97-146 | the ranges handed to the overlap check are those of the items, each contained, or a refusal |
| `InputWork.ItemBytes` | peony-emit/src/input_sections.rs:212-264 | one item's section copy and relocations give a section of the same length |
| `Dispatch.EveryScheduleIsSerial` | peony-emit/src/input_sections.rs:106-264 | every batching and every interleaving of workers that ends without an error leaves the serial loop's image, and one ends with an error exactly when some item fails |
| `Dispatch.SerialInside` | peony-emit/src/input_sections.rs:106-264 | inside an item's range the serial image holds that item's relocated bytes |
| `Dispatch.SerialOutside` | peony-emit/src/input_sections.rs:106-264 | a byte that no item covers keeps its base value |
| `Dispatch.ProcessItem` | peony-emit/src/input_sections.rs:212-264 | copies and relocates one item in the shared buffer, touching its own range only, and reports its first failure |
| `Dispatch.DispatchSerial` | peony-emit/src/input_sections.rs:106-264 | the serial loop in the buffer stops at the first failing item and leaves the image of the items before and including it |
| `EhFrame.ScanEhFrame` | peony-object/src/eh_frame.rs:33-60 | the scanning loop counts the records that the recursive reading of the bytes has, and reports what is left over |
| `EhFrame.MergedCounts` | peony-layout/src/lib.rs:1671-1693 | pieces that each scan with no leftover, joined with zero padding in multiples of four, add up their CIE and FDE counts |
| `EhFrame.LeftoverBreaksTheBound` | peony-object/src/eh_frame.rs:33-60 | two pieces without any FDE that joined have one: without the no-leftover condition the count is no bound |
| `EhFrame.BoundExactly` | peony-object/src/eh_frame.rs:33-60 | the count of a piece plus that of what follows bounds the count of both joined, for every continuation, exactly when the scan of the piece ends with it or at an extended length |
| `EhFrame.MergedBound` | peony-layout/src/lib.rs:1671-1693 | with every piece but the last sealed so, the sum over the pieces bounds the FDEs of the merged section |
| `EhFrame.ListingWithinCount` | peony-object/src/eh_frame.rs:61-87 | on any bytes the listing of FDEs is no longer than their count |
| `EhRelocation.TableNeverTruncated` | peony-emit/src/eh_frame.rs:48-94 | the search table reserved from the input sections has room for every FDE of the merged, relocated section, whatever the relocations store, if their footprints miss the length words and CIE pointers and every input section but the last is sealed |
| `EhRelocation.CleanTableNeverTruncated` | peony-emit/src/eh_frame.rs:48-94 | and so it has when every input section scans with no leftover |
| `EhRelocation.RelocatedScan` | peony-emit/src/eh_frame.rs:48-94 | relocations whose footprints miss the length words and CIE pointers leave the records as they were scanned |
| `EhFrame.IterFdes` | peony-object/src/eh_frame.rs:61-87 | the listing loop yields the FDEs that the recursive reading finds, in order |
| `EhFrame.SortSorts` | peony-emit/src/eh_frame.rs:48-94 | sorting the table by program counter keeps every entry |
| `EhFrame.HdrReadsBack` | peony-emit/src/eh_frame.rs:48-94 | the header's count field is the number of FDEs and row i is the i-th smallest program counter with its FDE, relative to the header |
| `EhFrame.BuildHdr` | peony-emit/src/eh_frame.rs:9-94 | the loops produce that header for any section bytes |
| `EhTable.ListsExactly` | peony-object/src/eh_frame.rs:61-87 | the listing holds exactly the FDEs that can be reached by following the record lengths, each with its `PC begin` field |
| `EhTable.TableExactly` | peony-emit/src/eh_frame.rs:9-94 | every row of the search table leads to an FDE of the section and to the function its relocated field refers to, and every FDE has a row |
| `EhTable.HeaderLeadsToSection` | peony-emit/src/eh_frame.rs:9-94 | the header's pointer leads to the section, in the encodings that its first bytes announce |
| `Emit.MinimalEqualsFull` | peony-emit/src/lib.rs:317-423 | in one layout and symbol view, patching only the changed objects into the old image gives byte for byte a fresh full emit of the new objects, `.eh_frame_hdr` and build id included, if and only if the bytes that the old header has past the end of the new one are those a full emit starts from |
| `ShrinkingHdr.MinimalEqualsFullIffNoFewerFdes` | peony-emit/src/lib.rs:317-423 | with the header reserved for the old table, the two images are equal if and only if the new `.eh_frame` has at least as many FDEs |
| `ShrinkingHdr.LostFdeLeavesARow` | peony-emit/src/lib.rs:317-423 | an object whose FDE becomes a CIE of the same size makes the two images differ |
| `ShrinkingHdr.KeptTableIsEnough` | peony-layout/src/lib.rs:511-552 | when the items of `.eh_frame` keep their bytes and relocations, as the per-object digest demands, and no relocation reaches a length word or CIE pointer, the two images are equal without further condition |
| `Emit.MinimalFailsAsFull` | peony-emit/src/lib.rs:317-423 | after a clean old link, the minimal emit reports an error exactly when the full one would |
| `Emit.StaleDescriptorIgnored` | peony-emit/src/build_id.rs:32-47 | images that agree outside the build-id descriptor get the same final image, so a stale descriptor makes no difference |
| `Emit.SameHdr` | peony-emit/src/eh_frame.rs:9-94 | the header depends on nothing but the relocated `.eh_frame` bytes |
| `Emit.WorkFiltered` | peony-emit/src/input_work.rs:85-119 | the work of the minimal mode is the full work restricted to the changed objects, in the same order |
| `WorkList.WorkExactly` | peony-emit/src/input_work.rs:85-119 | the work list holds an item exactly if it is of a contribution of an input section that the filter admits: the section at the contribution's object and position, both file offset and address that of the output section plus the contribution's offset, the address saturating at 2^64 - 1 |
| `EmittedAddresses.ItemsAtLayout` | peony-emit/src/input_work.rs:85-119 | every item is at the address that layout has for its input section, as far from the base address as it is into the file |
| `EmittedAddresses.PlacedIsEmitted` | peony-emit/src/input_work.rs:85-119 | and every input section that layout has placed is in the work list, at its address |
| `EmittedImage.FullHoldsContribution` | peony-emit/src/lib.rs:317-423 | in the finished file every contribution lies at its offset in its section, relocated |
| `EmittedImage.FullGapIsZero` | peony-emit/src/lib.rs:317-423 | a byte of an input section that no contribution covers is zero |
| `EmittedFields.FieldInImage` | peony-emit/src/lib.rs:317-423 | the field of a plain relocation that no later one overlaps reads in the finished file as the value of its formula |
| `EmittedFields.ReferenceArrives` | peony-emit/src/lib.rs:317-423 | in the finished file a PC-relative reference leads from where it sits in memory to the address of its symbol, or to its PLT stub, moved by the addend |
| `EmittedFields.WordHolds` | peony-emit/src/lib.rs:317-423 | and a 64-bit word holds the address of its symbol and the addend |
| `EmittedTables.FullHdrMatches` | peony-emit/src/lib.rs:317-423 | the search table in the finished file is that of the finished `.eh_frame`, cut to the room reserved for it, the rest of the room zero |
| `EmittedTables.FullBuildId` | peony-emit/src/build_id.rs:32-47 | the build id in the finished file is the digest of the file with a zero build id |
| `EmittedTables.FullNote` | peony-emit/src/lib.rs:317-423 | it stands in a note of name `GNU`, type 3 and 16 bytes |
| `EmittedTables.FullStore` | peony-emit/src/lib.rs:317-423 | in a section of tables the last store that touches a byte decides it, and a byte that none touches is zero |
| `EmittedTables.FullTlsWord` | peony-emit/src/sections.rs:16-53 | a statically known TLS word that no later one overlaps reads back at its address |
| `EmittedHeaders.FullHeader` | peony-emit/src/lib.rs:317-423 | outside the sections the last header store that touches a byte decides it |
| `EmittedHeaders.FullSectionHeader` | peony-emit/src/lib.rs:317-423 | a byte of the section header table is that of its last store, whatever was written before |
| `EmittedHeaders.FullUntouched` | peony-emit/src/lib.rs:317-423 | and a byte that no section holds and no header touches is the one the file had |
| `Emit.KeptAcceptable` | peony-emit/src/input_work/ranges.rs:97-146 | any selection of accepted items is accepted |
| `EmitInPlace.EmitWithFilter` | peony-emit/src/lib.rs:317-423 | the whole emit into the buffer succeeds exactly when the ranges are accepted and no relocation fails, and then the buffer is the full or the minimal image, whose bytes the `Emitted` lemmas give |
| `EmitInPlace.ZeroInputGaps` | peony-emit/src/sections.rs:253-271 | with its moving cursor, exactly the bytes between contributions become zero |
| `EmitInPlace.EhFrameHdrInPlace` | peony-emit/src/eh_frame.rs:9-94 | the header range is overwritten from the relocated `.eh_frame` in the same buffer |
| `EmitInPlace.BuildIdInPlace` | peony-emit/src/build_id.rs:32-47 | zeroing the descriptor, hashing and storing gives the image with the digest of everything else |
| `EmitInPlace.StoreSlots` | peony-emit/src/sections.rs:16-53 | the statically known TLS GOT words, and nothing else, are stored |
| `ReverseIndex.EveryInterleaving` | peony-cache/src/lib.rs:341-382 | in every interleaving of any number of inserters each symbol's chain is finite and free of repeats, holds exactly the ids whose exchange succeeded, and shares none with another chain |
| `ReverseIndex.QuiescentIndex` | peony-cache/src/lib.rs:341-417 | when all calls have returned, a chain holds each in-range id inserted for its symbol, once |
| `ReverseIndex.EveryRunIsBounded` | peony-cache/src/lib.rs:362-382 | no interleaving of n inserts takes more than 2n² + 3n steps: the retry loop always makes progress |
| `ReverseIndex.IterRelocs` | peony-cache/src/lib.rs:383-417 | following the cells yields the chain from head to end marker |
| `ReverseIndex.RelocReverseIndex.Insert` | peony-cache/src/lib.rs:362-382 | one thread's insert puts the id in front of its symbol's chain and ignores ids out of range |
| `RelinkPlan.PlanPartialRelink` | peony-cache/src/lib.rs:764-839 | accepts exactly when every section keeps its offset, address and size within capacity, and otherwise names the first that does not; the plan partitions the sections, red where an input changed or the index hits, green elsewhere, and its color map says the same |
| `RelinkReasons.ReasonExactly` | peony-cache/src/lib.rs:764-839 | the refusal names the first section that cannot stay where the last record of its name has it, and the first thing wrong with it: no record, file offset, address, capacity, size |
| `RelinkPlan.RelocationReverseIndex` | peony/src/main.rs:1462-1505 | the index and section list hold one entry for every relocation of every emitted input section, under the id of its target if that is not local |
| `RelinkPlan.AllEntriesExactly` | peony/src/main.rs:1462-1505 | the entries are exactly those of the relocations of the contributions of the input sections, whatever the order |
| `RelinkPlan.RepairExactly` | peony/src/main.rs:1409-1505 | an entry leads to a moved symbol exactly if such a relocation, read from its object, is against a non-local symbol with an id whose cached address or GOT slot is another now |
| `RelinkPlan.MovedRelocSections` | peony-cache/src/lib.rs:960-974 | walking the chains of the moved ids gives exactly the sections of their relocations |
| `RelinkPlan.HitsAreMoved` | peony/src/main.rs:1450-1505 | with ids below the table size, a section is hit exactly when it refers to a cached non-local symbol whose address or GOT slot changed |
| `RelinkPlan.BigIdsAreMissed` | peony/src/main.rs:1462-1505 | relocations whose ids are at or beyond the table size are never hit |
| `RelinkPlan.PhasedRun` | peony-symbols/src/lib.rs:544-655 | in a link's order of operations no name is minted twice |
| `RelinkPlan.IndexHasRoom` | peony/src/main.rs:1462-1505 | so after any link every minted id is below the table size |
| `RelinkPlan.PlanLink` | peony/src/main.rs:1385-1505 | the planning step of one link, from resolved symbols to the plan: a section is red if and only if an input of it changed, or some relocation of some contribution of an input section of its name is against a symbol that is not local and whose cached address or GOT slot is another now |
| `Daemon.ClaimsAreTrueIffSound` | peony/src/daemon.rs:187-302 | over every run of edits, one-shot links and requests, all RELINKED and NOCHANGE replies are true if and only if each was given while the output was the recorded one, or a failed patch of it |
| `Daemon.RecordedIsEnough` | peony/src/daemon.rs:235-302 | all replies are true if each was given while the output had the fingerprint that the manifest records, and only then when no patch of the run failed half way |
| `Daemon.OrderlyRuns` | peony/src/daemon.rs:187-302 | if no GC or ICF link shares the output and no link fails midway, every such reply is true |
| `Daemon.RequestIsSound` | peony/src/daemon.rs:235-302 | one request in an orderly state: its claim is true exactly when the output was sound, and the state stays orderly |
| `Daemon.EventKeeps` | peony/src/main.rs:1084-1146 | edits, one-shot links, reuse and starts keep the agreement between manifest, layout file, output and daemon; a reused or patched output is up to date |
| `Daemon.PatchIsLink` | peony-cache/src/lib.rs:618-661 | patching the changed objects of a sound output gives the link of the current inputs |
| `PatchedImage.PatchRefines` | peony/src/main.rs:1084-1146 | where the protocol takes the recorded output to one of the current inputs, a minimal emit of the changed objects takes the bytes of a full link of the old versions to those of a full link of the current ones |
| `Daemon.GcLinkFoolsDaemon` | peony/src/daemon.rs:235-302 | a link with GC or ICF in between makes the daemon answer NOCHANGE over a stale output |
| `Daemon.FailedEmitFoolsDaemon` | peony/src/daemon.rs:235-302 | so does a link that fails after it has begun to write |
| `Daemon.DaemonState.HandleRequest` | peony/src/daemon.rs:235-302 | the handler, updating its fingerprints, mtime and layout and the files, has the effect and the reply of the protocol step |
| `DaemonProgress.AnswersExactly` | peony/src/daemon.rs:187-302 | when a request is answered NOCHANGE, when RELINKED and when FALLBACK, from the arguments, the files and the inputs |
| `DaemonProgress.DeclinedLeavesFiles` | peony/src/daemon.rs:235-302 | a request declined before anything is written leaves the files as they were |
| `DaemonProgress.SecondRequestIsIdle` | peony/src/daemon.rs:235-302 | after a claim, a request without an edit in between is answered NOCHANGE and changes nothing |
| `DaemonProgress.StartsExactly` | peony/src/daemon.rs:187-233 | a daemon started with some arguments serves exactly if the files are of a link with just these that left the output and layout that are there |
| `DaemonProgress.StartsAfterLink` | peony/src/daemon.rs:187-233 | after a full link without GC and ICF, started with its arguments, the daemon serves from that link |
| `DaemonProgress.EditsAreRelinked` | peony/src/daemon.rs:187-302 | once linked and started, it answers every change to plain objects that keep their demand RELINKED, and the output is then a link of the inputs as they are |
| `Symbols.FoldMeaning` | peony-symbols/src/lib.rs:290-460 | folding the symbols of a name fails exactly when two strong definitions occur; else it selects the strong one, else the first weak one, else a common of maximal size and alignment, else undefined, strong exactly when some reference was |
| `Symbols.IfuncFlag` | peony-symbols/src/lib.rs:290-398 | the selected definition keeps its indirect-function flag exactly when it did not replace a common |
| `Symbols.IfuncLost` | peony-symbols/src/lib.rs:290-398 | a common followed by a strong indirect function loses the flag |
| `Symbols.CommonOrigin` | peony-symbols/src/lib.rs:400-460 | a name that nothing but commons defines belongs to the object of the first of them, with its binding and no section |
| `SymbolTables.RunIds` | peony-symbols/src/lib.rs:632-660 | over every run of table operations each minted id names its own entry |
| `SymbolTables.IdsDistinct` | peony-symbols/src/lib.rs:632-660 | no two entries share a minted id |
| `SymbolRuns.ImportedExactly` | peony-symbols/src/lib.rs:528-640 | over every run of table operations a name is imported exactly if some library was registered for it while it was wanted and nothing satisfied it; that library and version stay, whoever exports it later |
| `SymbolRuns.CopiedExactly` | peony-symbols/src/lib.rs:528-640 | exactly the imports marked afterwards have a copy relocation |
| `SymbolRuns.AbsoluteExactly` | peony-symbols/src/lib.rs:528-640 | an absolute symbol's address is its last one, and no other operation gives an address |
| `SymbolRuns.ForcedStaysWanted` | peony-symbols/src/lib.rs:528-640 | a name that was asked for stays defined or strongly undefined, whatever weak references follow |
| `SymbolRuns.NamedExactly` | peony-symbols/src/lib.rs:528-640 | the names with an id are exactly those that were defined, imported or asked to have one |
| `SymbolTables.BuildIdIndex` | peony-symbols/src/lib.rs:511-522 | the id-indexed view answers as a lookup by name, for every minted id and no other |
| `SymbolTables.TableMeaning` | peony-symbols/src/lib.rs:267-460 | a link's table exists exactly when no name has two strong definitions, and then each entry is what its own symbols mean |
| `SymbolTables.MergeAllByName` | peony-symbols/src/lib.rs:267-460 | merging symbols in link order is folding each name's symbols apart |
| `SymbolTables.SymbolTable.Merge` | peony-symbols/src/lib.rs:290-398 | merges one symbol in place; a duplicate definition changes nothing |
| `SymbolTables.SymbolTable.ProcessObjectExcluding` | peony-symbols/src/lib.rs:267-289 | merges an object's symbols outside discarded sections, up to the first duplicate |
| `Archives.ReconcileExact` | peony/src/main.rs:2011-2045 | updating the undefined set from the touched names alone gives the set recomputed from the table, even under COMDAT exclusion |
| `Archives.PullUptoKeeps` | peony/src/main.rs:1997-2045 | a pass adds each taken member once and nothing else, and a pass that takes none leaves no remaining member with a wanted definition |
| `Archives.PulledWhenWanted` | peony/src/main.rs:1997-2045 | a member is taken exactly when at its turn one of its own symbols defines a name that is then strongly undefined |
| `Archives.Resolver.ResolveObject` | peony/src/main.rs:1951-1979 | claims COMDAT groups and merges the symbols that remain; in every state reached, a member section is discarded exactly if its group's signature occurred before, in an earlier object or earlier in its own |
| `Archives.ResolveKeepsFirst` | peony/src/main.rs:1951-1976 | resolving an object keeps that of all copies of a group signature exactly the first stays |
| `ResolvedRun.RunKeepsFirst` | peony/src/main.rs:1951-1976 | so it is after any run of objects from the empty resolver |
| `ResolvedRun.RunMeaning` | peony/src/main.rs:1951-1976 | a run of objects resolves exactly when no name has two strong definitions among the visible symbols outside discarded members, and then each entry is what those symbols of its name mean, in link order |
| `ResolvedRun.WantedNames` | peony/src/main.rs:1978-2045 | the names that archives are searched for are those that some such symbol refers to strongly and none defines |
| `Archives.Resolver.PullLazyMembers` | peony/src/main.rs:1997-2045 | the loop over the members is that pass, with the undefined set kept exact throughout |
| `ArchiveLoop.IncludeArchiveMembers` | peony/src/main.rs:2093-2209 | terminates; keeps the undefined set equal to the one the table gives; reads and pulls each member at most once; and on success no unpulled member of a faithfully indexed archive defines a strongly undefined name |
| `ArchiveLoop.ReadRound` | peony/src/main.rs:2093-2209 | one round reads every member that an archive's index matches, each once, and leaves the archives settled |
| `ArchiveLoop.NothingLeft` | peony/src/main.rs:2093-2209 | an archive given up on has nothing left to offer |
| `Gc.GcSections` | peony-layout/src/gc.rs:205-232 | under any mix of serial drains and parallel levels, the live set is the least set that holds the roots and is closed under references, and each live section is traversed once |
| `Gc.GcTraversal.Run` | peony-layout/src/gc.rs:150-170 | from any seeded state, with any number of threads, the worklist terminates in that set |
| `Gc.GcTraversal.DrainSerialStack` | peony-layout/src/gc.rs:172-182 | popping from the stack keeps the marking invariant and empties the frontier |
| `Gc.GcTraversal.DrainParallelLevel` | peony-layout/src/gc.rs:184-200 | workers taking the items in any order keep it too; a level that adds nothing ends the traversal |
| `Gc.LiveIsAPath` | peony-layout/src/gc.rs:205-232 | a section is kept exactly when a chain of sections leads to it from a root, each holding a relocation whose symbol lies in the next |
| `Gc.TargetsExactly` | peony-layout/src/gc.rs:50-75 | the targets collected for a section are exactly those of some relocation of it, whatever stands before it |
| `Gc.ParsedIsExact` | peony-layout/src/gc.rs:205-232 | when roots and targets are parsed sections, the bitmaps have room for all and marking drops nothing |
| `Gc.OneReachableSet` | peony-layout/src/gc.rs:205-232 | there is only one such least set |
| `Gc.WitnessAgrees` | peony-verification/src/gc.rs:65-110 | the set recomputed by the verification crate, closed under the relocations of parsed sections, contains the live set, and equals it exactly when marking dropped no root and no reference |
| `Gc.UnparsedEntryDisagrees` | peony-verification/src/gc.rs:65-110 | an entry symbol in an unparsed section makes the two differ |
| `Addrsig.ReadUleb128` | peony-layout/src/icf.rs:102-117 | reads one number, at most ten bytes, from any position of any bytes |
| `Addrsig.UlebReadsBack` | peony-layout/src/icf.rs:102-117 | every 64-bit number reads back, wherever its encoding lies |
| `Addrsig.ParseAddrsig` | peony-layout/src/icf.rs:139-160 | the first table of an object is decoded in full or not at all |
| `Addrsig.TableReadsBack` | peony-layout/src/icf.rs:139-160 | a table of any symbol indices yields exactly their positions, or nothing when one is unknown |
| `Icf.AddressTaint` | peony-layout/src/icf.rs:123-187 | collects every name and section whose address some relocation takes, and every complete table |
| `Icf.NotSignificantIsUnseen` | peony-layout/src/icf.rs:195-260 | a section not held back has its address taken by no relocation of the link, and its table vouches for its symbols |
| `Icf.ComputeFoldMap` | peony-layout/src/icf.rs:275-338 | every fold leads from a section to an earlier one with the same bytes, flags and normalised relocations, neither address-significant, the representative not folded; without digest collisions exactly the sections with such an earlier twin are folded |
| `IcfMeaning.HeldBackExactly` | peony-layout/src/icf.rs:120-272 | a section is held back exactly when its object has no complete address-significance table, or an address into it is taken somewhere, or a symbol of it is listed, weak, visible by default, or a vtable, type information or type name |
| `IcfMeaning.TwinExactly` | peony-layout/src/icf.rs:120-338 | a section has an earlier twin exactly if an eligible earlier section has its bytes, its flags and, one by one, relocations of the same offset, type, addend and symbol name |
| `IcfMeaning.FoldAll` | peony-layout/src/icf.rs:120-338 | the whole pass folds such sections only, and all of them if no two contents share a digest |
| `Icf.FoldIsComplete` | peony-layout/src/icf.rs:306-338 | a section is folded only if it has an earlier twin, and always then if no digests collide |
| `Icf.SoundFoldsAreOneStep` | peony-layout/src/lib.rs:2075-2084 | no representative is itself folded |
| `Icf.AliasFolds` | peony-layout/src/lib.rs:2075-2084 | whatever order the map is visited in, the addresses come out the same |
| `Icf.AliasMeaning` | peony-layout/src/lib.rs:2075-2084 | every folded section gets its representative's address and every other section keeps its own |
| `Icf.TargetsAgree` | peony-layout/src/icf.rs:275-299 | two folded relocations have the same target in every symbol view exactly when neither target is local, or both are one symbol |
| `Icf.FoldsDifferentTargets` | peony-layout/src/icf.rs:306-338 | two callers of different local functions of one name, of different code, are folded |
| `Tables.WordAt` | peony-layout/src/lib.rs:1345-1353 | serialized words read back at their positions |
| `SysvHash.ElfSysvHash` | peony-layout/src/lib.rs:1057-1068 | the loop computes the recursive 32-bit hash |
| `SysvHash.TopNibbleClear` | peony-layout/src/lib.rs:1057-1068 | no hash uses its top four bits |
| `HashMeaning.StepFolds` | peony-layout/src/lib.rs:1057-1068 | one step is sixteen times the hash plus the byte, with the top four bits folded into bits 4 to 7 and cleared |
| `HashMeaning.KnownHashes` | peony-layout/src/lib.rs:1057-1068 | `exit`, `printf` and `syscall` have the hashes they have everywhere |
| `SysvHash.BuildHash` | peony-layout/src/lib.rs:1327-1353 | following the emitted chain words from any bucket until one is 0, with no other guard, ends after visiting exactly the exports and copy-relocated imports that hash there, in strictly descending order and so no plain import; every chain word is below its own entry and every bucket word is an entry or 0 |
| `SysvHash.PushEntry` | peony-layout/src/lib.rs:1334-1344 | pushing an entry on the front of its bucket puts it there and leaves the other buckets as they were |
| `SysvHash.LoaderReads` | peony-layout/src/lib.rs:1345-1353 | a path through the tables is the visit that a loader makes of the bytes |
| `SysvHash.LookupFindsName` | peony-layout/src/lib.rs:1327-1353 | looking a name up in its own bucket meets an entry of that name exactly when one is exported or copied, and meets findable entries only |
| `HashMeaning.LookupExactly` | peony-layout/src/lib.rs:1311-1353 | whoever looks a name up meets only exports and copied imports, and one of that name exactly when it is exported, or imported and copied |
| `Verneed.AssignVersions` | peony-layout/src/lib.rs:1240-1255 | every distinct (library, version) gets the next index, an entry under its library and a name in the dynamic strings |
| `Verneed.ReqsExactly` | peony-layout/src/lib.rs:1240-1255 | the requirements are exactly those of the imports whose library is needed |
| `Verneed.ReqsDistinct` | peony-layout/src/lib.rs:1240-1255 | and each occurs once |
| `VersionRecords.BuildVerneed` | peony-layout/src/lib.rs:1276-1310 | the record loop writes one record for each library with requirements, in order |
| `VersionRecords.NeedsReadBack` | peony-layout/src/lib.rs:1276-1310 | following `vn_next` and `vna_next` until they are 0 reads exactly the libraries and their version lists |
| `VersionRecords.NeedsReadOnce` | peony-layout/src/lib.rs:1276-1310 | the records can be read in one way only |
| `VersionRecords.SectionReadsBack` | peony-layout/src/lib.rs:1231-1310 | so does the section built for any imports with fewer than 65536 versions |
| `VersionRecords.BuildVersym` | peony-layout/src/lib.rs:1257-1275 | entry j of `.gnu.version` reads back as 0 for the null symbol, the import's index, or 1 for an export |
| `VersionRecords.VersymNamesOneRecord` | peony-layout/src/lib.rs:1231-1310 | a versioned import of a needed library has an index of at least 2 that belongs to one record entry only: that library's, with that version, whose name reads back |
| `VersionMeaning.LoaderBindsVersion` | peony-layout/src/lib.rs:1231-1310 | the index of an import bound to a version of a needed library is at least 2 and listed in `.gnu.version_r` as read record by record, and whatever lists it names that library and that version, by name and by hash |
| `VersionMeaning.BaseVersionExactly` | peony-layout/src/lib.rs:1257-1275 | index 0 is the null symbol's, and index 1 that of exports and of imports without a version, a library, or one that is needed |
| `VersionMeaning.NameNeeded` | peony-layout/src/lib.rs:1160-1169 | the loop over the needed libraries leaves each name readable at its offset |
| `VersionRecords.IndexLimit` | peony-layout/src/lib.rs:1240-1255 | indices are distinct and at least 2 for up to 65534 versions and no more |
| `VersionRecords.LoaderLimit` | peony-layout/src/lib.rs:1240-1255 | with the hidden bit masked, for up to 32766 and no more |
| `DynReloc.CollectDataAndSymbolic` | peony-reloc/src/dynamic.rs:347-438 | the one-pass collector returns, sorted, exactly what the two separate collectors gather |
| `DynReloc.AddSite` | peony-reloc/src/dynamic.rs:355-412 | one lookup sends a site to the lists the separate passes would put it in |
| `DynRelocMeaning.DataExactly` | peony-reloc/src/dynamic.rs:245-438 | a site has a row exactly if it is a 64-bit slot of a placed section against a symbol of the image, with the symbol's address plus the addend, or the resolver's address alone |
| `DynRelocMeaning.SymbolicExactly` | peony-reloc/src/dynamic.rs:245-438 | and a symbolic row exactly if it is such a slot against a library's symbol in `.dynsym`, with that index and its own addend |
| `DynRelocMeaning.GotExactly` | peony-reloc/src/dynamic.rs:245-438 | a GOT slot has a row exactly if its symbol lies in the image, with the symbol's address |
| `DynRelocMeaning.AllDataExactly` | peony-reloc/src/dynamic.rs:245-438 | the collected rows are those of the relocations of allocated sections and of the GOT slots |
| `DynRelocMeaning.AllSymbolicExactly` | peony-reloc/src/dynamic.rs:245-438 | and so are the symbolic ones |
| `DynRelocMeaning.RowIsStoredWord` | peony-reloc/src/dynamic.rs:245-438 | the value of a RELATIVE row is the number that applying the relocation stores in the slot, so a load bias B leaves B + S + A there |
| `DynReloc.OneOrder` | peony-reloc/src/dynamic.rs:433-437 | whatever sort is used, stable or not, the rows come out the same |
| `DynReloc.SortKeeps` | peony-reloc/src/dynamic.rs:433-437 | sorting keeps every row |
| `DynReloc.CountDynamicRelocs` | peony-reloc/src/dynamic.rs:28-99 | the per-object sums are the counts over all relocations and GOT slots |
| `DynReloc.CountsBound` | peony-reloc/src/dynamic.rs:28-99 | when no name gains an address or an importing library after counting, the counts made before layout bound each collected list, and RELATIVE rows alone stay within the total less the IRELATIVE count |
| `DynReloc.CountsBoundExactly` | peony-reloc/src/dynamic.rs:28-99 | the counts are enough for all objects and all GOTs if and only if no name gains anything between the passes |
| `DynReloc.SiteExactly` | peony-reloc/src/dynamic.rs:40-66 | one relocation is collected within its count exactly unless it is a 64-bit slot of a placed section against a name that gained something |
| `DynReloc.SlotExactly` | peony-reloc/src/dynamic.rs:81-94 | and one GOT slot exactly unless its name gained an address |
| `CountsTight.CountsAreLeast` | peony-reloc/src/dynamic.rs:28-99 | nothing is reserved in vain: with every section placed and every import in `.dynsym`, all counted records are collected |
| `DynReloc.LinkerSymbolUncounted` | peony/src/main.rs:455-580 | a name defined by the linker between counting and collecting is collected and not counted |
| `TlsReloc.CollectTlsGot` | peony-reloc/src/tls.rs:57-128 | the loops over the three kinds of reference produce the fills of each, in order |
| `TlsReloc.EveryWordFilledOnce` | peony-reloc/src/tls.rs:57-128 | each placed TLS GOT word gets one relocation or one written value, and nothing else is touched |
| `TlsMeaning.PairMeansVariable` | peony-reloc/src/tls.rs:22-128 | after the loader has done its part, a General-Dynamic pair holds module and offset of its variable |
| `TlsMeaning.DescriptorMeansVariable` | peony-reloc/src/tls.rs:22-128 | a descriptor returns the variable's offset from the thread pointer |
| `TlsMeaning.SlotMeansVariable` | peony-reloc/src/tls.rs:22-128 | an Initial-Exec slot holds it, stored by the linker itself in an executable |
| `TlsMeaning.LocalPairMeansModule` | peony-reloc/src/tls.rs:22-128 | and the Local-Dynamic pair holds this module and offset 0 |
| `TlsMeaning.GotHolds` | peony-reloc/src/tls.rs:22-128 | the whole region holds what its references put there; an executable has Initial-Exec slots only |
| `TlsReloc.TlsCountBounds` | peony-reloc/src/tls.rs:144-169 | the count bounds the collected rows if no General-Dynamic reference counted as defined here turns out unplaced |
| `TlsReloc.TlsCountExactly` | peony-reloc/src/tls.rs:57-169 | in a shared object whose references all have slots, the collected rows and the references given a place after counting are together the count and the unplaced references counted as defined here, so the count is enough if and only if the latter are no more than the former |
| `CountsTight.TlsCountIsRows` | peony-reloc/src/tls.rs:57-169 | where every General-Dynamic variable is in the TLS block or in a library, a shared object's count is the number of its records: two for a library's variable, one for its own |
| `TlsReloc.GdExactly` | peony-reloc/src/tls.rs:64-87 | one General-Dynamic reference is collected within its count exactly unless it has slots, was counted as defined here and is unplaced |
| `TlsReloc.DroppedSectionOverflows` | peony-reloc/src/tls.rs:57-169 | a reference to a thread-local symbol whose section layout left out of the TLS block is counted once and collected twice |
| `RelaDyn.DynTables.AppendAllDynamicRelocs` | peony-layout/src/lib.rs:778-880 | assembles RELATIVE, IRELATIVE, thread-local and symbolic records as far as the reserved size allows, then the stashed suffix, and patches the tags with what was written |
| `RelaDyn.NothingDropped` | peony-layout/src/lib.rs:1725-1735 | lists within the counts all fit the section reserved from the counts, and the RELACOUNT tag is present whenever there is a RELATIVE row |
| `RelaDyn.CollectedRowsFit` | peony-layout/src/lib.rs:778-880 | from counting to assembly: when no name and no thread-local reference gains a record in between, nothing collected is dropped |
| `RelaDyn.UnchangedRowsFit` | peony-layout/src/lib.rs:778-880 | so too when no name changes whether it is defined, imported, copied or an indirect function in between, and no thread-local reference gains a record |
| `RelaDyn.TableIsTrue` | peony-layout/src/lib.rs:778-880 | the assembled table, empty or not, holds every row in order with its site, type, symbol and addend, starts with exactly DT_RELACOUNT RELATIVE records, and DT_RELASZ is its length |
| `RelaMeaning.LoaderReads` | peony-layout/src/lib.rs:778-984 | read in the format of the loader, the table holds the RELATIVE rows as type 8, the IRELATIVE ones as 37, the thread-local ones as 16, 17, 18 or 36 and the symbolic ones as 1, each with its site, symbol and addend |
| `RelaMeaning.ValueExactly` | peony-layout/src/lib.rs:960-984 | the value of a tag is that of its first entry before the terminating one |
| `RelaDyn.PatchedReads` | peony-layout/src/lib.rs:960-984 | patching a tag changes the value read for that tag, if present, and for no other |
| `RelaDyn.RelaAt` | peony-layout/src/lib.rs:778-880 | record i reads back in all three fields, the addend in two's complement |
| `Grouping.GroupSections` | peony-layout/src/lib.rs:1449-1536 | groups every kept section under its output name, in order, aligned and without overlap, or stops at an alignment that is not a power of two |
| `Grouping.OneHome` | peony-layout/src/lib.rs:1449-1536 | a section contributes to a builder if and only if it is kept, and then to one builder, once |
| `SymbolHomes.KeptExactly` | peony-layout/src/lib.rs:1433-1475 | kept are exactly the loaded sections that are live and not folded and have bytes or a symbol |
| `SymbolHomes.NoSymbolLosesItsAddress` | peony-layout/src/lib.rs:1433-1475 | so every symbol defined in a loaded, live, unfolded section has an address, even in an empty one |
| `Grouping.AlignUpLeast` | peony-layout/src/lib.rs:3757-3761 | rounding up gives a multiple less than one step away, and leaves multiples alone |
| `Grouping.AlignedSum` | peony-layout/src/lib.rs:3195-3199 | an aligned offset in a more strictly aligned section is an aligned address |
| `Placement.PlaceBuilders` | peony-layout/src/lib.rs:3175-3238 | places builders one after the other; every contribution has an address and every address comes from a contribution |
| `Placement.PlacedRuns` | peony-layout/src/lib.rs:3175-3238 | placed sections are aligned, disjoint and as far from the file's start as from the base address |
| `Placement.SortRelro` | peony-layout/src/lib.rs:1983-1994 | sorting the writable sections puts the RELRO ones first |
| `Placement.SortByKeeps` | peony-layout/src/lib.rs:1552-1555 | sorting by any order loses nothing and adds nothing |
| `PlanOrder.SortBySorts` | peony-layout/src/lib.rs:1552-1555 | sorting by a strict weak order sorts, and is stable |
| `PlanOrder.ArrangedInOrder` | peony-layout/src/lib.rs:3723-3734 | read-only and executable sections come in script order, listed ones first, the others by name |
| `PlanOrder.WritableInOrder` | peony-layout/src/lib.rs:1976-1986 | writable ones come RELRO first, then by name, and of one name `.tdata` last; the script has no say in it |
| `PlanOrder.ZeroedInOrder` | peony-layout/src/lib.rs:1987-1988 | those without file contents come `.tbss` first and then in script order |
| `PlanOrder.NameLessExactly` | peony-layout/src/lib.rs:1552-1555 | by name is by the smaller byte at the first difference, a proper prefix before the longer name |
| `Segments.PlaceImage` | peony-layout/src/lib.rs:1923-2067 | the placement pass yields that layout of the five parts, with the segment bounds and the end of the file-backed content |
| `Segments.ImageRuns` | peony-layout/src/lib.rs:1923-2067 | all sections are pairwise disjoint in memory, the file-backed ones also in the file, and offset is address less base throughout |
| `Segments.PlaceMeta` | peony-layout/src/lib.rs:2138-2420 | sections without an address follow the file-backed content, aligned and disjoint, before the section header table |
| `Relro.RelroSpan` | peony-layout/src/lib.rs:3010-3058 | the scan takes the adjacent RELRO sections from the first one on |
| `Relro.ScanCovered` | peony-layout/src/lib.rs:3010-3058 | every byte of the span belongs to a RELRO section, and the span is empty only if there is none |
| `Relro.RelroPagesAreOwn` | peony-layout/src/lib.rs:1952-2067 | no page of the span holds a byte of a section without a RELRO name, unless names mix: the executable segment holds a writable section with such a name and some section without, or one with such a name lies in `.bss`, one without lies behind the RELRO sections, and the scan gets there |
| `RelroExact.RelroPagesExactly` | peony-layout/src/lib.rs:1952-2067 | for sections of given names, flags and order, and a page of at least two bytes, the pages of the span are its own for all sizes and alignments if and only if names do not mix |
| `RelroExact.UnscriptedExactly` | peony-layout/src/lib.rs:1952-2067 | when no `.bss` section has a RELRO name, as without a script, this is so if and only if the executable segment does not hold both a writable section with a RELRO name and a section without one |
| `SectionNames.NobitsIsNoRelro` | peony-object/src/section_parse.rs:42-80 | a section that the parser takes to be without file contents gets no RELRO name from the naming without a script |
| `NamesExactly.KindsExactly` | peony-object/src/section_parse.rs:42-88 | each kind has its own condition on name and flags, and no two conditions meet |
| `NamesExactly.ComponentExactly` | peony-layout/src/lib.rs:3736-3751 | the output name of a section is its name up to the first dot after the first character |
| `NamesExactly.RelroListed` | peony-layout/src/lib.rs:1962-1974 | the RELRO names are these six |
| `NamesExactly.DefaultRelroExactly` | peony-layout/src/lib.rs:3736-3751 | without a script exactly `.dynamic`, `.fini_array`, `.got`, `.init_array` and their dotted continuations get a RELRO name |
| `NamesExactly.DataRelRoIsPlainData` | peony-layout/src/lib.rs:3736-3751 | and `.data.rel.ro` becomes part of `.data` |
| `Relro.SegmentsApart` | peony-layout/src/lib.rs:1923-2010 | bytes of different segments, headers included, never share a page |
| `SegmentRights.PagesByPermission` | peony-layout/src/lib.rs:1543-2067 | sections that share a page are all executable or none is, and if none is, all are writable or none is |
| `SegmentRights.HeaderPages` | peony-layout/src/lib.rs:1923-2067 | a page with file headers on it holds no writable and no executable section |
| `SegmentRights.AfterHeaders` | peony-layout/src/lib.rs:1923-2067 | every section lies behind the headers, in memory and in the file |
| `SegmentRights.WritableBacking` | peony-layout/src/lib.rs:1923-2067 | of the writable sections exactly those without file contents lie behind all that the file backs |
| `Relro.InputSectionAddress` | peony-layout/src/lib.rs:3175-3238 | every emitted input section has one address, that of its contribution, aligned as it asks and inside its output section |
| `ImagePlan.ComputeLayout` | peony-layout/src/lib.rs:1449-2067 | from grouping to placement: every kept input section gets one address, that of its contribution, aligned as it asks and inside its output section, or some alignment is no power of two; the maps hold for every contribution its own address and output section; the sections are those of a plan as `RelroExact` takes it, each part with its segment's rights and in its order, and without a script no `.bss` section in it has a RELRO name |
| `ImagePlan.PlanImage` | peony-layout/src/lib.rs:1538-2067 | bucketing by permission, adding the synthetic builders, the script and placement orders and the TLS alignment lose no grouped section and use none twice |
| `TlsBlock.TlsSegment` | peony-layout/src/lib.rs:2530-2565 | the two passes give the address of the first `.tdata` section, or else of the first `.tbss` one, and the largest TLS alignment |
| `TlsBlock.LeadFitsExactly` | peony-layout/src/lib.rs:1989-2015 | after the raising, the section that `PT_TLS` starts at is aligned for every TLS section if and only if it is the raised one and no TLS section outside the writable ones is larger, or it had the largest TLS alignment before |
| `TlsBlock.TlsBlockAligned` | peony-layout/src/lib.rs:1989-2055 | then the address of `PT_TLS` is a multiple of its alignment |
| `TlsBlock.OneTdataLeads` | peony-layout/src/lib.rs:1989-2015 | that is so when all TLS sections are writable and at most one holds thread-local data |
| `StrayTls.FirstTlsMisaligned` | peony-layout/src/lib.rs:1449-2565 | parsed, grouped, bucketed, ordered and placed without a script, `.data`, `.mytls` and a `.tdata` aligned to 64 give a `PT_TLS` whose address is 8 more than a multiple of its alignment |
| `StrayRelro.StrayRelroSharesAPage` | peony-layout/src/lib.rs:1449-2067 | parsed, grouped, bucketed, ordered and placed without a script, a writable and executable `.init_array` before `.text` puts a byte of `.text` on a page of the span |
| `Relocatable.MergeSections` | peony-emit/src/relocatable.rs:117-146 | exactly the kept sections are placed, each in the one output section of its name; parts are aligned, disjoint and inside, with no padding but what alignment needs, and the section has the first part's type, the union of the flags and the largest alignment |
| `Relocatable.MergedExactly` | peony-emit/src/relocatable.rs:32-43 | dropped are nameless sections and null, symbol-table, string-table, relocation, group and extended-index ones |
| `Relocatable.AddPart` | peony-emit/src/relocatable.rs:117-146 | adding a section to an output section moves no part placed before |
| `RelocatableSymbols.StrTab.Intern` | peony-emit/src/relocatable.rs:66-88 | the returned offset reads back as the name, every earlier offset still does, and equal names share one |
| `RelocatableSymbols.MergeSymbols` | peony-emit/src/relocatable.rs:148-232 | each local symbol of a kept section and each resolved name has one entry with its shifted value, and each entry's name reads back |
| `RelocatableSymbols.BuildRela` | peony-emit/src/relocatable.rs:234-276 | every relocation of every part is kept, in order, shifted by its part |
| `RelocatableSymbols.SymbolAddress` | peony-emit/src/relocatable.rs:164-246 | for every base assignment the merged entry of a symbol has the symbol's address |
| `RelocatableSymbols.RelocationMeansTheSame` | peony-emit/src/relocatable.rs:117-276 | for every base assignment a kept relocation with a defined target has the same place, type, addend and target after the merge |
| `Reparsed.DefinitionReparses` | peony-emit/src/relocatable.rs:148-232 | the next link parses a merged definition as one: strong or weak as before, of its type, visibility and size, moved with its section |
| `Reparsed.OthersReparse` | peony-emit/src/relocatable.rs:148-232 | a common as one of the same size and alignment, and what is defined nowhere as undefined, as strong or weak as before |
| `Reparsed.LocalReparses` | peony-emit/src/relocatable.rs:148-232 | and a local symbol as a local one |
| `Reparsed.NextLinkAgrees` | peony-emit/src/relocatable.rs:148-232 | so the next link's table entry is bound as strongly, and defined, common or asked for, as this one's |
| `RelocatableSymbols.SectionIndexWraps` | peony-emit/src/relocatable.rs:146-152 | a local symbol of output section 0xfff0 becomes absolute, of 0xfff1 common, and of 65535 undefined |
| `RelocatableSymbols.SectionIndexExactly` | peony-emit/src/relocatable.rs:146-152 | the entry of a symbol in a kept section has the symbol's address for every base assignment if and only if the section's header index is below the reserved ones |
| `Glob.WildcardMatches` | peony/src/main.rs:2447-2469 | the greedy search answers yes exactly when some split of the name matches the pattern with each star standing for any string |
| `Glob.LeftmostSuffices` | peony/src/main.rs:2447-2469 | taking the leftmost occurrence of a piece never misses a match |
| `Glob.SplitKeepsMeaning` | peony/src/main.rs:2447-2469 | matching the pieces between stars is matching the pattern |

## Left out

- Files, mmap, sockets, processes, thread pools and encodings: images are byte arrays, a request is atomic, and the output is written by incremental links of this linker only.
- Offsets inside the TLS block and its size: `tlsOffset` and `tlsSize` are parameters.
- Parsing of ELF and archives: parsed objects are inputs; `Indexed` says that the parser's maps agree with its lists, `SectionNames.Parsed` that section kinds are those the parser gives.
- Hash quality: digests are arbitrary functions, and `CollisionFree` or fresh fingerprints are hypotheses where a property needs them.
- Weak memory: atomic steps are sequentially consistent.
- Overflow of 64-bit addresses and sizes, except where the code wraps or checks; 32-bit counts and offsets are assumed to fit.
- The byte identity of the planner's red-only emit: coloring covers allocated sections and non-local targets only, so the planner is proved in that scope and byte identity on the changed-objects path.
- `EmitWriteReport`, the profiling counters and the statistics of the traversal beyond the traversed sections.
- Building the layout's synthetic sections and their contents other than those above: the synthetic builders are an input of `ImagePlan.PlanImage`.
- Names of output sections given by a linker script, and its order of names, are parameters, as are GC roots and the symbol-to-section map.
- `.symtab`, `--emit-relocs` and debug pass-through contents, merged GNU property notes, program headers other than the load segments, RELRO and the start of `PT_TLS`.
- Local dynamic symbols, PLT and `.got.plt` contents, and the GNU hash table, which is only emitted empty.
- Script pattern matching, command-line handling, CRT injection and LTO.
- `RelaDyn.CollectedRowsFit`: for one given link the conditions are sufficient; an undercounted list can still fit in room left by another. They are exact over all inputs (`DynReloc.CountsBoundExactly`) and for each reference (`TlsReloc.GdExactly`).
