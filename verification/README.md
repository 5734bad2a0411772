# 2ine: a verified model of its stateful core

2ine loads OS/2 LX and NE programs on Linux and reimplements the OS/2 API. This
project models the parts of it that keep state or transform data in ways that are easy
to get wrong, and proves what they promise. `dafny verify dfyconfig.toml` (Dafny 4.11)
checks the whole of it.

| files | what they model |
|---|---|
| ModuleGraph, ModuleMemory, ModuleWiring, ModuleNames, ModuleTable | the table of loaded modules: recursive loading, what slots hold, reference counts, rollback, forced shutdown (lx_loader.c) |
| ExePack2, PackedPages, Decompressor | the LZ-style page decompressor: the packed form, what its bytes mean, the loops (lx_loader.c) |
| Ldt | the selector table and 16:16 pointers (lx_loader.c) |
| Patches, NeFixup, LxFixup, LxTargets | relocation of 16-bit segments and 32-bit pages (lx_loader.c) |
| EntryTable, EntryFormat | the two passes over entry tables and lookup by ordinal (lx_loader.c) |
| WindowForest, WindowTable | the Presentation Manager's windows (native/pmwin.c) |
| MessageList, MessageQueue | the message queue with its free pool (native/pmwin.c) |
| EventSem, EventHistory, EventTimeouts, EventDelivery | event semaphores under every interleaving (native/doscalls.c) |
| Tls | thread-local slots (native/doscalls.c) |
| PathText, CText, CurrentDir | the current directory and its in-place normaliser (native/doscalls.c) |
| CommandLine, CommandRoundTrip, CommandMemory, Environment, ProcessInfo | printing and splitting command lines and environment blocks (lib2ine.c, native/doscalls.c) |
| MachineTypes, Lists, Options | what several of these share |

Code that changes things in place is a class or works on arrays; the functions its
methods are proved against are plain values, and the lemmas are about those. Pointers
are addresses into an explicit memory, so that freeing can be modelled and every access
is proved to be to something alive. What the code asks of the outside (files, the
kernel, memory, window procedures) is a parameter or an arbitrary choice.

## Results that differ from what one might expect

Each of these is proved, with the exact condition under which the code does what it
should.

- The comment at lx_loader.c:675-681 only presumes that the module list is in order of
  dependency. It is, in every run (`Loader.Terminate`).
- An address in the last 64K of the address space gets a new selector each time, and one
  below 0x10000 a pointer that cannot be converted back (`FindTidyIff`,
  `Ldt.RoundTripIff`).
- A filtered WinGetMsg that takes the last of several messages leaves `tail` behind;
  from then on every post is lost, and the get that takes the last message trips an
  assertion (`Queue.Run`, `NoneLostIff`; an input: `ThirdLost`).
- A window created behind its own handle is linked to itself and to nothing else
  (`Anchor.Create`, `SelfLoop`).
- DosCloseEventSem relies on a field that creation does not set (`CloseTellsIff`).
- A TLS block can run over the last slot, and a request for no slots gets slot 0
  (`FullSizeIff`, `Allocator.Alloc`; an input: `PastEnd`).
- A bare drive name makes the stored directory end in a backslash, until another name follows
  (`ChdirCanonical`, `ChdirsAre`).
- A program started from an empty environment is not told that another one started it
  (`OneMark`).
- Escapes added to a quoted argument are not removed again, and empty arguments and
  quotes do not survive (`CommandRoundTrip.RoundTripIff`).
- A command line with many quotes has more words than its block has pointers
  (`CalcArgv`, `FourQuotes`).
- A NE segment of 64K, whose size is written as 0, has none of its chains followed, and
  its record table is read one byte early (`FollowedIff`, `TableReadIff`; an input:
  `TableMisread`).
- Environment and command line are written past the end of their 64K block if they are too
  long (`InitPib`, `LongArgument`).

## Model

| member | source | states |
|---|---|---|
| ModuleTable.Loader.Free | lx_loader.c:1161-1227 | Giving back one reference keeps the whole invariant: the list is dependency-ordered and doubly linked, and every count equals the edges into the module plus the references from outside. Exactly the owed reference is given up, memory loses exactly the modules that left the list (and an unlisted `m`), the rest of the list keeps its order, and termination code ran once per removed module. The recursion ends and every access is to live memory. |
| ModuleTable.Loader.Destroy | lx_loader.c:1174-1227 | From a count of zero on: the module is taken off the list, its dependencies are let go, and only then its memory is freed; the dependencies are still alive while that happens. |
| ModuleTable.Loader.FreeDependencies | lx_loader.c:1204-1206 | The loop over the slots gives back each dependency with its multiplicity and touches nothing of the module that is being freed. |
| ModuleTable.Loader.LoadByName | lx_loader.c:2552-2590 | On every import graph, cyclic ones included, loading by name ends (depth cap 32). NULL means memory, list, links and all counts are exactly as before; otherwise the result is listed, holds one more reference, and has that name or was made from the file of that name; the list is new modules followed by the old list unchanged, and in every listed module each slot holds what the import name at its place led to. A name that is listed already loads nothing. If malloc never fails, the names listed afterwards, or the failure, are those that `ByName` works out from the names listed before and the files alone. |
| ModuleTable.Loader.LoadFile | lx_loader.c:1620-2022 | One file: a failed load, at whatever point, leaves memory, list, counts and the program pointer as they were; a library ends up listed with one reference, a program unlisted with its dependencies held; it has the name and the imports of its file, and each slot holds what the import name at its place led to. The second format's loader (lines 2131-2448) shares this shape. |
| ModuleTable.Loader.LoadImports | lx_loader.c:1928-1945 | Success means that for every import, in its place, the slot holds the module its name led to; failure is that of the first import that cannot be loaded or, in the LX format, has a name of more than 127 characters. At every import the table of modules is consistent and the half-built module holds exactly the references in its filled slots. The loop of the other format is at lines 2381-2392. |
| ModuleTable.Loader.Rollback | lx_loader.c:2018-2021 | Freeing the half-built module after any partial load restores memory, list head, list and references exactly. |
| ModuleTable.Loader.Complete | lx_loader.c:1999-2016 | Prepending the finished library moves its references into the list and keeps dependency order and exact counts. |
| ModuleTable.Loader.Terminate | lx_loader.c:668-686 | From every valid state shutdown empties the list although it forces counts to 1, frees each listed module exactly once, and runs each module's termination code before that of any module it depends on, which the comment in the source only presumes. |
| ModuleTable.Loader.ForceFree | lx_loader.c:682-686 | One forced free removes at least the head of the list and keeps the invariant. |
| ModuleTable.Loader.Run | lx_loader.c:668-686 | A program is loaded, makes any sequence of opens by name, opens by path and closes, and exits: between calls the invariant holds and every slot, the program's too, holds what its import name led to; at the end no module is left in memory. Without failures of malloc it starts if and only if `ByFile` says so. |
| ModuleTable.Loader.Step | lx_loader.c:2552-2619 | Any open, by name or from a file (which is then loaded even if it is listed already), or close between load and exit keeps memory equal to the program and the listed modules, and the references equal to the program's own and the open handles; a new handle is for the module that was asked for. |
| ModuleTable.Loader.OpenName | lx_loader.c:2592-2607 | Opening by name gives one more handle exactly if `ByName` finds the name loadable, and lists the names it says. |
| ModuleWiring.SweptWired | lx_loader.c:1161-1227 | Freeing a module leaves, in every module that stays listed, each slot with what its import name led to. |
| ModuleWiring.LinkWired | lx_loader.c:2008-2014 | So does putting a finished module in front of the list. |
| ModuleNames.LookupNames | lx_loader.c:2555-2561 | The walk along the list finds a module exactly if its name is among those listed. |
| ModuleNames.OnwardNext | lx_loader.c:1928-1945 | One import more: where the whole import table leads is where the rest of it leads from there, or a failure if that import fails. |
| ModuleMemory.SameNameIff | lx_loader.c:2556 | Two names are taken for the same exactly if they differ at most in the case of letters. |
| ModuleGraph.ListedIffReachable | lx_loader.c:1161-1227 | Reference counting keeps exactly the modules that tracing imports from the outside references would keep: listed if and only if reachable. |
| ModuleGraph.RolledBack | lx_loader.c:2018-2021 | A consistent list that still ends in the old list, with only the old references left, is the old list. |
| ModuleGraph.RemoveSound | lx_loader.c:1174-1207 | Taking an unreferenced module out of the list and taking over its references keeps the list consistent. |
| ModuleGraph.PrependSound | lx_loader.c:2008-2014 | Putting a module whose dependencies are held in front of the list keeps it dependency-ordered and exactly counted. |
| ModuleGraph.Determined | lx_loader.c:1161-1227 | The outside references determine which modules are listed. |
| ModuleMemory.Undone | lx_loader.c:2018-2021 | After a rollback the memory equals, module by module and link by link, the memory before the load. |
| Decompressor.Decompress | lx_loader.c:273-375 | For any source bytes: ends, reads only the source, writes only the destination; succeeds exactly if the token machine does, and then the whole destination is the machine's output followed by zeros. A page packed as runs of equal bytes, or as blocks of bytes, comes out as that page. |
| ExePack2.DecompressesExactly | lx_loader.c:282-375 | The machine yields `r` if and only if the source is the packed form of a list of fitting tokens whose expansion is `r`, up to a full page. |
| ExePack2.RoundTrip | lx_loader.c:288-365 | For every list of in-range tokens that fit the page, unpacking their bit-packed encoding gives exactly their expansion. |
| ExePack2.ReadEncode | lx_loader.c:288-365 | Each of the token encodings is read back to the token it was made from, whatever follows. |
| ExePack2.EncodeRead | lx_loader.c:288-365 | Whatever token is read encodes to exactly the bytes it was read from. |
| PackedPages.SkipForm | lx_loader.c:293-295 | The bytes `00 00` add nothing, and unpacking goes on behind them. |
| PackedPages.FillForm | lx_loader.c:290-299 | The bytes `00 n v` add n bytes v to the page. |
| PackedPages.LiteralForm | lx_loader.c:306-308 | A byte 4n, for n from 1 to 63, adds the n bytes behind it. |
| PackedPages.ShortForm | lx_loader.c:315-331 | The form of two bytes, field by field: up to 3 literal bytes, then 3 to 10 bytes copied from up to 511 bytes back, each the one that distance before it. It fails exactly if that is in front of the page or too long for it. |
| PackedPages.NearForm | lx_loader.c:333-345 | The same for the form that copies 3 to 6 bytes from up to 4095 back. |
| PackedPages.LongForm | lx_loader.c:347-363 | The same for the form of three bytes: up to 15 literal bytes, then up to 63 copied from up to 4095 back. |
| PackedPages.RunsUnpacked | lx_loader.c:290-299 | Any bytes, written as their runs of up to 255 equal bytes, are unpacked to themselves. |
| PackedPages.BlocksUnpacked | lx_loader.c:306-308 | Any bytes, written as blocks of up to 63, are unpacked to themselves. |
| ExePack2.RepeatAt | lx_loader.c:263-270 | A copy that runs into its own output is the periodic extension of the bytes before it; offset 0 copies what the page held before. |
| Decompressor.LinearMove | lx_loader.c:263-270 | The byte-by-byte copy, overlapping or not, appends the periodic extension and changes nothing else. |
| ExePack2.IndependentIffNoZeroOffset | lx_loader.c:273-375 | The result does not depend on the old contents of the page if and only if no copy token has offset 0. |
| Ldt.Table.FindSelector | lx_loader.c:440-517 | The fast lookup, the full scan with its last free slot, and the allocation together compute `Lookup` and `After` on the table; the lemmas below say what those mean. |
| Ldt.FastIsScan | lx_loader.c:452-483 | On a tidy table the tiled fast lookup finds the slot the full scan would. |
| Ldt.FailsIff | lx_loader.c:440-517 | A find fails if and only if the address is below 4096, or no slot covers it and no slot is free or the kernel refuses. |
| Ldt.FoundTile | lx_loader.c:502-517 | The selector found is for the address's own 64K tile and the offset is the rest; in the first tile nothing is stored, because base 0 reads as free. |
| Ldt.FindTidyIff | lx_loader.c:440-517 | A find keeps nonzero entries aligned and pairwise distinct exactly unless it makes a second slot for the last tile, whose end wraps to 0. |
| Ldt.RunsTidyIff | lx_loader.c:440-602 | Over any run of finds, frees, tilings and untilings of stacks, entries stay 64K-aligned and distinct all the time if and only if no find makes a second slot for the last tile and no tiling one for a tile that has a slot elsewhere. |
| Ldt.RunsHome | lx_loader.c:440-602 | Over any run of finds below 512 MB, of frees and of stacks tiled and untiled, each slot is free or holds its own tile, so no tile ever has two slots. |
| Ldt.RunsTidy | lx_loader.c:440-536 | Over every run of finds below 0xFFFF0000, of frees and of stacks untiled, entries stay 64K-aligned and distinct. |
| Ldt.LoaderTidy | lx_loader.c:1806-1838 | The runs the loader makes: in an empty table the one stack is tiled, then come any finds below 0xFFFF0000, frees and the end of the stack. The table is tidy all the time. |
| Ldt.TiledTwice | lx_loader.c:578-602 | A run the loader does not make: from an empty table, two finds, a free and a tiling give one tile two slots. |
| Ldt.TopTwice | lx_loader.c:470 | An address in the last tile gets a new slot every time: the table then has two equal entries. |
| Ldt.RoundTripIff | lx_loader.c:538-564 | A nonzero 16:16 pointer converts back to its address if and only if the address is at least 0x10000; below that it trips the source's assertion. |
| Ldt.ConvertFailsIff | lx_loader.c:551-564 | The conversion gives 0 exactly if the find fails. |
| Ldt.PointerStable | lx_loader.c:538-602 | The pointer keeps converting back after any further finds, frees, tilings and untilings that do not free its selector. |
| Ldt.AskAgain | lx_loader.c:551-564 | Converting the same address again gives the same pointer and changes nothing. |
| Ldt.PackInverse | lx_loader.c:407-410 | Packing a selector and an offset and taking them apart again are inverse. |
| Ldt.Table.Convert32to1616 | lx_loader.c:551-564 | The conversion to 16:16, in terms of the table before and after it. |
| Ldt.Table.Convert1616to32 | lx_loader.c:538-548 | The conversion back, in terms of the table; a free selector trips the assertion. |
| Ldt.Table.StackSegments | lx_loader.c:578-602 | Tiling or untiling the stack changes exactly the home slots of its tiles. |
| Ldt.ShiftedPointer | lx_loader.c:571-577 | On a tiled stack the 16:16 form of an address is the address shifted, which 16-bit callers rely on. |
| Ldt.TiledTidyIff | lx_loader.c:578-602 | Tiling keeps entries distinct if and only if no tile it stores has a slot already. |
| NeFixup.FollowChain | lx_loader.c:2112-2123 | The loop visits exactly the slots that the links lead to, each link read from the segment as the writes so far have left it, overlapping slots and rewritten links included; it writes the target's part for the source type at each of them in turn and nothing else. If the slots are apart, each ends up with the low word and the high word of the target one behind the other (type 3), its high word (type 2), its low word (type 5) or its low byte (type 0). |
| NeFixup.LeadsOne | lx_loader.c:2112-2123 | The bytes of the segment and the bytes written determine the slots the loop visits. |
| NeFixup.SpellsLeads | lx_loader.c:2112-2123 | If the slots of a well-formed chain do not overlap, the loop visits exactly that chain, although each write destroys the link just read. |
| NeFixup.FollowedIff | lx_loader.c:2112 | A chain of the format, in which size 0 stands for 64K (research/neexe.txt:295), is followed if and only if the size is not written as 0 or the chain is empty; for size 0 no slot is visited. |
| NeFixup.ZeroWrites | lx_loader.c:2101-2123 | In a segment of size 0 only additive records change anything. |
| NeFixup.TableReadIff | lx_loader.c:2033-2035 | The record table behind the data is read where it is if and only if the size is not written as 0; otherwise it is read one byte early, its first byte being the last one of the 64K of data that the loader copies (line 2246). |
| NeFixup.TableMisread | lx_loader.c:2033-2035 | In 64K of data that end in a zero byte, a table of one record is taken for one of 256. |
| NeFixup.FixupSegment | lx_loader.c:2025-2127 | A whole segment, its table read where the loader reads it, overlapping places included: each record's patches are those of the segment as the earlier records have left it; without the relocation flag nothing changes. |
| NeFixup.FixedApart | lx_loader.c:2025-2127 | If the places of all records are apart, the table is handled without a loop that does not end, every source gets its value as computed from the segment as loaded, and no other byte changes. |
| Patches.WriteHit | lx_loader.c:2112-2123 | Of patches that are apart, each place ends up with its own bytes. |
| Patches.WriteMissed | lx_loader.c:2112-2123 | Bytes outside all patches keep their value. |
| Patches.WriteSame | lx_loader.c:2037-2124 | The order of the records does not matter when their places are apart. |
| NeFixup.StillSpells | lx_loader.c:2112-2123 | A chain is still well formed when its turn comes, after any patches that are clear of it. |
| NeFixup.SpellsOne | lx_loader.c:2112-2114 | The bytes of the segment determine the chain. |
| NeFixup.Add | lx_loader.c:2102-2110 | An additive source: the words before and after differ by those of the target, each modulo 2^16, without carry into the segment part. |
| NeFixup.FixedRefers | lx_loader.c:2111-2123 | If all places are apart, then after the whole table each place of each chain refers to its record's target in that sense. |
| NeFixup.FixedAdds | lx_loader.c:2102-2110 | And each additive source differs from what the segment was loaded with by the target, word by word modulo 2^16. |
| NeFixup.FarConverts | lx_loader.c:2118-2119 | A far pointer written for a selector and an offset converts, through the selector table, to that place. |
| NeFixup.InternalConverts | lx_loader.c:2047-2061 | So a far pointer to a segment of the module is one to that offset in it. |
| NeFixup.TableRead | lx_loader.c:2033-2042 | Any list of records, written as the format lays them out, is read back from the table record by record. |
| NeFixup.RecordFlags | lx_loader.c:2038-2046 | What the bits of the flags mean: two for the kind of target, the next for an additive source. |
| LxFixup.FixupPage | lx_loader.c:1313-1540 | For the encoding of any list of records (any width flags, source lists, internal, by ordinal, by name, alias, additive) the records are read one after the other and exactly their writes are done, in order, up to the first record that ends the program; there is none if and only if the call succeeds. |
| LxFixup.FixupRecord | lx_loader.c:1326-1538 | One record: its writes and its length; it ends the program, with nothing written, exactly for target type 3, for an alias that exists asked for by a source type that cannot hold it, and for a source of unknown type. An alias that does not exist is only warned about. |
| LxFixup.ReadReference | lx_loader.c:1326-1520 | Decoding the fields gives back the record that was encoded and stops at its source list. |
| LxTargets.InternalRefers | lx_loader.c:1394-1396 | A reference to object n, offset v: what is written for it is the low byte, word or four bytes of object address + v + additive modulo 2^32, for type 6 with the code selector behind them, or for type 8 the distance to there from the byte behind the source. |
| LxTargets.ImportRefers | lx_loader.c:1430-1518 | The same of an import by ordinal or by name: the value the module gives for it plus the additive, 0 plus the additive for a module there is not. |
| LxTargets.AliasRefers | lx_loader.c:1400-1408 | A reference through an alias: offset and selector apart (type 6), the selector above the offset (type 3), or the selector alone (type 2), each with the additive. |
| LxTargets.MissingRefers | lx_loader.c:1398-1399 | If the object has no alias, the additive alone is written. |
| LxTargets.OrIs | lx_loader.c:1404 | For every offset, also of 64K and more, a bit of the 16:16 alias is set exactly if it is in the shifted segment or in the offset. |
| LxTargets.FlagFields | lx_loader.c:1381-1520 | What each bit of the flags byte means for the kind of target and the widths of the fields, all 256 values. |
| LxTargets.SourceFields | lx_loader.c:1337-1376 | The same for the byte of the source type: four bits for the type, one for an alias, one for a list of sources. |
| MachineTypes.FourIs | lx_loader.c:1521-1538 | The number that four bytes written stand for, the low byte first, and the same for two. |
| LxTargets.PageHolds | lx_loader.c:1521-1538 | If the sources of a page are apart, each holds its own record's bytes when the page is done. |
| LxFixup.SelfRelative | lx_loader.c:1521-1538 | A self-relative source satisfies location + 4 + value = target modulo 2^32. |
| LxFixup.AliasConverts | lx_loader.c:1396-1410 | What a 16:16 alias is for: with the object's address in the slot of its selector, the four bytes written, converted back through the selector table, are the address of the place in the object, additive included, for internal and imported targets (lines 1440-1453 and 1486-1499) with an offset below 64K. |
| LxFixup.SelectorConverts | lx_loader.c:1396-1410 | The same for a selector alone, with any offset. |
| EntryTable.LoadExports | lx_loader.c:1846-1915 | The filling pass never writes more exports than the counting pass counted, exactly as many in the 32-bit format, and fails exactly at a bundle of an unknown type. The 16-bit format (lines 2304-2366) is the other case of the same member. |
| EntryTable.Fill | lx_loader.c:1866-1915 | The second pass stores the export list of the bundles. |
| EntryTable.CountedEnough | lx_loader.c:1846-1856 | The first pass counts at least the exports of the second, and in the 32-bit format exactly them. |
| EntryTable.LookupIsScan | lx_loader.c:1235-1245 | Looking an ordinal up in the exports agrees, for every ordinal, with scanning the bundles and indexing the one it falls into, as the format defines it. |
| EntryFormat.ScanReads | lx_loader.c:1846-1915 | In the bytes of any list of bundles, of any type and either format, every ordinal leads to the object, offset and flags that the bundle lists for it. |
| EntryTable.ExportsIncrease | lx_loader.c:1866-1915 | Ordinals of the exports are strictly increasing. |
| EntryTable.Resolve | lx_loader.c:1231-1245 | The lookup loop on a loaded table returns the entry the format gives that ordinal. |
| WindowTable.Anchor.Create | native/pmwin.c:1073-1266 | The new window takes the lowest free handle (doubling a full array) and appears in exactly its parent's list, once, at the top, at the bottom or behind the sibling; on any failure or a cancelled WM_CREATE the forest is unchanged. Exactly when it is told to go behind its own handle among existing children, it ends up its own sibling and in no list. |
| WindowTable.Anchor.Destroy | native/pmwin.c:450-492 | Destroying a window clears exactly its subtree, takes it out of its parent's list, keeps all other lists and their order, and leaves a forest. |
| WindowTable.Anchor.DestroyWindow | native/pmwin.c:1296-1312 | The call succeeds exactly for a live handle or the desktop, and changes nothing in the latter case. |
| WindowTable.Anchor.FromHandle | native/pmwin.c:137-150 | A handle resolves if and only if the window is in the forest or is the desktop. |
| WindowTable.Anchor.Terminate | native/pmwin.c:516-518 | Destroying every slot in turn leaves no window and clears every slot. |
| WindowTable.SelfLoop | native/pmwin.c:1230-1254 | A table in which a window is its own sibling holds no forest at all. |
| WindowTable.Anchor.DestroyLooped | native/pmwin.c:450-492 | Destroying such a window next clears its slot and gives back the very table and forest it was made in. |
| WindowTable.Anchor.Link | native/pmwin.c:1230-1254 | The four ways of linking a new window, against the list with it inserted. |
| WindowTable.PlaceIs | native/pmwin.c:1231-1254 | Behind 3 is the top, behind 4 or a window that is no child is the bottom, behind a child is the place after it. |
| WindowTable.FirstHandle | native/pmwin.c:1104-1111 | Handles count from 10, and the first free one is taken. |
| WindowForest.PrunedForest | native/pmwin.c:450-492 | What is left after a subtree is cleared is a forest again. |
| WindowForest.PeeledLast | native/pmwin.c:463-491 | Destroying the children one by one and then the window removes exactly what is below it. |
| WindowForest.InsertForest | native/pmwin.c:1240-1254 | A new leaf at any place of a list keeps the forest. |
| WindowForest.UnderChild | native/pmwin.c:463-468 | Below a window means being it or below one of its children. |
| MessageQueue.Queue.Post | native/pmwin.c:578-604 | Posting appends, recycling a pool node if there is one; on a queue whose tail is cut off it reports success and the message is not in the queue. |
| MessageQueue.Queue.TryGet | native/pmwin.c:909-941 | A get removes the first message the filter lets through and keeps the order of the rest; the queue keeps working if and only if that was not the last of several. |
| MessageQueue.Queue.Run | native/pmwin.c:898-948 | Any run of posts and gets, of which posts may fail for lack of memory and then change nothing: without those, a working queue does what the list of messages does up to the first get that takes the last of several; from then on, as on a queue severed before, nothing posted is heard and only the gets go on. The run ends in the assertion of the source exactly if a get then takes the only message left, and the queue still works at the end exactly if no get was of that kind. |
| MessageList.Fifo | native/pmwin.c:578-604 | Over any run of posts and unfiltered gets on the list of messages, which by the next rows and `Queue.Run` is what the queue does, messages come out in posting order and none is lost. |
| MessageList.RangePasses | native/pmwin.c:883-896 | What a filter lets through: messages of its window, if it names one, with an identifier in its range, or outside it if the ends are the wrong way round. |
| MessageList.NoneLostIff | native/pmwin.c:578-604 | Of a run on a working queue, delivered and queued messages together are those there were and those posted if and only if nothing is posted after the first get that takes the last of several. |
| MessageList.LostAre | native/pmwin.c:578-604 | The messages lost are exactly those posted after that get. |
| MessageList.HeardAll | native/pmwin.c:909-935 | A run without such a get is heard in full and never ends in the assertion. |
| MessageList.DoneAll | native/pmwin.c:578-604 | If no post fails, nothing is left out of the run. |
| MessageList.ThirdLost | native/pmwin.c:909-941 | A run that loses a message: two posts, a get that takes the second, and a third post. |
| MessageList.UnfilteredMends | native/pmwin.c:909-935 | A run of unfiltered gets never severs the queue. |
| MessageQueue.Queue.Destroy | native/pmwin.c:434-448 | The nodes of both lists are freed, each once. On a working queue those are all nodes; on a severed one a node on neither list is leaked. |
| MessageQueue.Leaked | native/pmwin.c:578-604 | There is such a node: the first message posted after the severing get takes the very node `tail` points to. |
| EventSem.NoLostWakeup | native/doscalls.c:1670-1753 | In every interleaving, nobody sleeps on a posted semaphore while the mutex is free, nor when every call under way sleeps. |
| EventSem.Progress | native/doscalls.c:1645-1753 | The mutex never gets stuck: while a call is under way and not asleep, some such call can take a step. |
| EventSem.SuccessMeansPosted | native/doscalls.c:1692-1753 | A wait returns success only from a step that holds the mutex while the semaphore is posted. |
| EventTimeouts.TimeoutsSlept | native/doscalls.c:1725-1750 | In every interleaving, a blocking wait returns a timeout only if between its beginning and its end its thread was asleep and woke because its deadline passed. |
| EventTimeouts.NoTimeouts | native/doscalls.c:1707-1750 | So in a run in which no deadline passes, every wait returns success. |
| EventTimeouts.DeadlineAnswers | native/doscalls.c:1735-1746 | A thread that has slept until its deadline and is not posted to returns a timeout in four moves of its own, and no longer counts as waiting. |
| EventTimeouts.CloseAnswers | native/doscalls.c:1773-1794 | If `waiting` started at 0, closing answers that the semaphore is busy exactly if a thread is inside a blocking wait. |
| EventHistory.Linearizable | native/doscalls.c:1645-1753 | In every interleaving the answers, in the order they were decided, are a history of an atomic semaphore and leave it as it is. For each thread they are exactly those its calls have returned, in their order, and the one a call under way has decided: every call adds one entry between its beginning and its end and returns that one. Each answer is of a kind the call can give, a wait without a deadline never times out, and a call ends only by returning. |
| EventHistory.RunLog | native/doscalls.c:1645-1753 | The order of the answers respects real time: what was decided before a moment stays in front of what is decided later. |
| EventDelivery.Delivered | native/doscalls.c:1670-1753 | Once the semaphore is posted and nobody is resetting it, the calls under way, sleepers included, can make only a bounded number of moves under any scheduler, none of the waits they decide times out, and when those awake can move no more every call has returned. |
| EventDelivery.Bounded | native/doscalls.c:1670-1753 | Every move of a call under way uses up part of a bound known when the semaphore was posted. |
| EventSem.RunInvariant | native/doscalls.c:1645-1753 | Mutual exclusion, the waiter count, wakefulness and the log hold after every interleaving. |
| EventSem.StepCounted | native/doscalls.c:1709-1740 | `waiting` is its initial value plus the number of threads inside a blocking wait. |
| EventSem.CloseTellsIff | native/doscalls.c:423-457 | The busy test of closing tells whether anybody waits, in every interleaving, if and only if the new semaphore's memory happened to hold 0 in `waiting`, which creation does not set. |
| Tls.Allocator.Alloc | native/doscalls.c:2580-2623 | First fit: the block starts at the lowest place whose bits are clear, the mask gains exactly its bits, and the assertion on the slot holds; a request for 0 slots takes nothing and trips the assertion exactly if slot 0 is in use. |
| Tls.Allocator.Free | native/doscalls.c:2625-2651 | Freeing the start of a block clears exactly its bits; any other pointer changes nothing. |
| Tls.FullSizeIff | native/doscalls.c:2590-2608 | The block found lies wholly in the 32 slots if and only if there is a gap of that size anywhere. |
| Tls.PastEnd | native/doscalls.c:2590-2618 | A state in which it does not: after blocks of 8, 8, 8 and 7 slots, a block of 2 starts at the last slot. |
| Tls.NotFoundIff | native/doscalls.c:2605-2612 | An allocation fails exactly if there is no such gap and the last slot is in use. |
| Tls.TakeSound | native/doscalls.c:2613-2618 | The mask stays the disjoint union of the truncated masks of the live blocks. |
| Tls.TakeGive | native/doscalls.c:2625-2651 | Freeing undoes the matching allocation. |
| Tls.BlocksApart | native/doscalls.c:2605-2618 | A later block starts behind the end of an earlier one. |
| CurrentDir.Strip | native/doscalls.c:2866-2938 | The in-place stripper of `.`, `..` and doubled backslashes computes a fold over path components with a stack that absorbs `..` at the root. |
| CurrentDir.StrippedCanonical | native/doscalls.c:2866-2938 | The result has no empty, `.` or `..` component and no backslash at the end, exactly unless the path ends in a backslash and leads somewhere. |
| CurrentDir.ChdirCanonical | native/doscalls.c:2855-2876 | Whatever directory was stored, after a successful change it is canonical exactly unless the name was a bare drive and the old directory led somewhere; so a later change repairs what a bare drive spoils. |
| CurrentDir.ChdirWalks | native/doscalls.c:2860-2876 | From any stored directory, an absolute name is walked from the root and a relative one from where the old directory leads. |
| CurrentDir.ChdirsAre | native/doscalls.c:2855-2945 | After any number of successful changes from any directory, what is stored is where they lead, with a backslash behind it exactly if the last name was a bare drive and that is not the root. |
| CurrentDir.CanonicalComponents | native/doscalls.c:2866-2938 | A canonical directory is the join of its components. |
| CurrentDir.Drives.SetCurrentDir | native/doscalls.c:2814-2951 | The whole call: error 3 for a name that ends in a backslash, else what the host reports, else 8 if memory is short; those leave every drive's directory alone, and a success stores the stripped path for the drive named. |
| CurrentDir.Drives.DriveNamed | native/doscalls.c:2855-2866 | The drive named is that of the letter, of either case, and the current one without a letter. |
| CurrentDir.Normalised | native/doscalls.c:2867-2938 | Building the path in the buffer and stripping it gives the fold of the combined path. |
| PathText.SplitJoin | native/doscalls.c:2866-2938 | Splitting a joined path gives its components back. |
| PathText.GoesUp | native/doscalls.c:2866-2938 | `..` undoes going down and stays at the root, and `.` and nothing stay. |
| CommandLine.SplitPrint | native/doscalls.c:1417-1501 | For every argument list, splitting the printed command line gives back the arguments before the first one with a quote, but for empty ones, which are dropped, and the backslashes added inside quotes, which stay; then come the words of the rest. |
| CommandRoundTrip.RoundTripIff | native/doscalls.c:1417-1501 | Any list of arguments survives being printed and split if and only if no argument is empty, none holds a quote, and none with blanks holds a backslash or newline. |
| CommandRoundTrip.PrintIs | lib2ine.c:216-246 | Exactly arguments with a blank or a tab are quoted, and one blank goes between two. |
| CommandRoundTrip.EscapedIs | lib2ine.c:216-246 | In quotes, a backslash goes in front of each backslash and each newline, and nowhere else. |
| CommandRoundTrip.SplitWord | native/doscalls.c:1432-1488 | A blank or a tab ends a word, and those in front of a word are skipped. |
| CommandRoundTrip.SplitQuoted | native/doscalls.c:1432-1488 | What is between two quotes is one word, whatever follows. |
| CommandMemory.CalcArgv | native/doscalls.c:1417-1501 | For every command line, the splitter's one block holds exactly the program name and the words, each pointer at its string and NULL behind them, within the sizes computed beforehand, if and only if the excess of the command line is at most 1; otherwise a pointer or NULL is written where the strings are. |
| CommandMemory.SplitExcess | native/doscalls.c:1432-1444 | The number of words is the number of blanks plus the excess, a count over the characters: one more for each quote that opens and for an unquoted word at the end, one less for each blank that does not end an unquoted word. |
| CommandMemory.FourQuotes | native/doscalls.c:1432-1488 | One argument of four quotes is such a command line: it is split into two words and has no blank. |
| CommandMemory.PrintedFits | native/doscalls.c:1417-1444 | A command line printed from arguments without quotes always fits. |
| ProcessInfo.Writer.PutArguments | lib2ine.c:216-246 | The printer writes exactly the printed form of the arguments and a terminator, past the end of the block if they do not fit. |
| Environment.EnvironmentRoundTripIff | lib2ine.c:187-201 | A printed environment block reads back as the list printed if and only if no string in it is empty. |
| Environment.EntriesPrinted | native/doscalls.c:1396-1406 | For all lists of strings, the block reads back as those in front of the first empty one, whatever follows the block. |
| Environment.OneMark | lib2ine.c:187-201 | However many programs start one another, the next one finds exactly one mark of being started, its own; with an empty environment it finds none. |
| Environment.GivenIs | lib2ine.c:187-201 | The search path replaces a string that begins with PATH=, unless another program started this one; strings that begin with IS_2INE= are left out, and any other is kept. |
| Environment.PassedIs | native/doscalls.c:1357-1415 | A program that starts another appends its mark, IS_2INE= and the file, to an environment that is not empty. |
| ProcessInfo.Writer.PutEnvironment | lib2ine.c:187-201 | The printer writes exactly the terminated strings of the environment with the search path replaced and the mark left out, and an empty string, past the end of the block if they do not fit. |
| ProcessInfo.InitPib | lib2ine.c:176-246 | The whole block: environment, program name, and the command line with the name once more. It is written past its 64K if and only if environment, twice the name and the printed arguments are longer than that together; otherwise the block holds exactly this text. |
| ProcessInfo.ReadsBack | lib2ine.c:187-246 | From that text the program reads back the environment up to its first empty string, its name, and at the place of the command line its name and the printed arguments. |
| ProcessInfo.LongArgument | lib2ine.c:176-246 | One argument of 64K is too long for the block, whatever the environment. |
| Environment.CalcEnvp | native/doscalls.c:1357-1415 | The splitter's one block holds the strings of the environment, the new mark and NULL, within the sizes its first pass measured; an empty environment stays empty. |
| Environment.ScanEnv | native/doscalls.c:276-291 | The place returned holds the value of the first variable of that name, and a variable is not found exactly if none has it. |
| Environment.ValueIs | native/doscalls.c:276-291 | The first string that begins with the name and an equals sign gives the value. |

## Left out

- ModuleTable.Loader.LoadFile: what a file holds is a function of the name or path that leads to it, the same for the whole run; of the steps that only read it or talk to the kernel, that function says whether they succeed, because they touch no module but the new one. A failure before the module is allocated returns NULL with no effect, as lx_loader.c:1625-1641 intends.
- ModuleTable.Loader.LoadByName: that the names listed come out as `ByName` says is claimed for runs in which malloc never fails; what a failure leaves behind is claimed for all.
- ModuleTable.Loader.Free: counts are unbounded; a wrap-around at 2^32 references is not modelled.
- ModuleTable: initialisation and termination code of libraries does not call back into the loader; native modules are loaded by the host's own loader.
- ModuleTable: the search for a module's file, and the cut of a file extension off a name.
- WindowTable.Anchor.Create: windows are named by handle, so that growing the array moves nothing; in the source the parent and sibling pointers go stale when `realloc` moves the array. Window procedures are assumed not to create or destroy windows, a table with a window that is its own sibling is followed only to that window's destruction (`DestroyLooped`), and titles, data and host windows are left out.
- WindowTable: one anchor block; the desktop's child list is static in the source and shared between anchor blocks.
- MessageQueue.Queue.TryGet: one turn of the loop of WinGetMsg; waiting for host events between turns is a post like any other.
- EventSem: named and shared semaphores, and what happens to a semaphore after it is closed.
- EventSem.Progress: says that a step can be taken, not that the host's scheduler takes it; `EventDelivery.Delivered` bounds the moves, not the time between them.
- Tls.Allocator.Alloc: the mask is the set of its bits; the page itself and its use by faulting instructions are left out.
- Ldt.Table.FindSelector: whether the descriptor is for code or data is left out, as are the raw descriptors; the stack is tiled below 512 MB, as the assertion in the source demands.
- NeFixup.FixupSegment: requires that each chain's loop ends and stays in the segment, on which the source relies; the selectors of segments and what entry points come to are functions, 0 if there is none.
- LxFixup.FixupPage: requires that records name objects of the module and places in memory, which the source does not check; what an import comes to is a function of the module and the ordinal or name.
- LxFixup.AliasConverts: an offset of 64K or more runs into the bits of the selector; `LxTargets.OrIs` says what is written then, but nothing is claimed about what it converts to.
- EntryTable.LoadExports: requires that the bundles lie inside the file; names of exports are left out.
- CommandMemory.CalcArgv: what the strings and pointers look like after an overrun.
- ProcessInfo.InitPib: what the bytes written past the end of the block overwrite; the length of the search path is cut by its caller, and the block itself is always allocated, as the source ends otherwise.
- CurrentDir.Drives.SetCurrentDir: the search of the directory on the host is a parameter.
- ExePack2: the iterated-page decompressor, which repeats literal strings and would add only easy members.
- Painting, presentation spaces, sound, signals, 16-bit bridge code, exit lists, and the APIs that are thin wrappers around the host's.
