# Go-OS in Dafny

A Dafny model of the storage engine, the ELF loader and the small concurrent kernels of Go-OS, with
proofs of what they are for.

**Storage** (`kernel/src/fat32.rs`). The exFAT engine is modelled from the bytes of a directory entry
set up to whole runs of operations. A `Volume` holds the allocation bitmap, the FAT, the clusters and
the stream cache; the methods are the functions of the source. Beside it stands a layout (which cluster
belongs to which stream, which entry refers to which stream) and a directory tree, which the volume alone
determines (`ExFatOneTree`). Writing, making directories, listing and deleting
(`ExFatOperations`, `ExFatDirectories`, `ExFatListing`, `ExFatDeleting`) are proved against the tree, with
results that are functions of the state, and with what every failure leaves behind (`ExFatTaking`). The
run theorems (`ExFatRuns`) say that every run of requests keeps the volume sound, does to the tree what
the requests and replies say, and loses no cluster and uses none twice, as long as no request stops half
way; `ExFatExamples` has volumes on which one does. The FAT32 file write is modelled on sectors, with all
FAT copies and their reserved bits, for chains of any length, and its outcome is told from the state before
(`Fat32*`). The fragmented copy loop
(`SectorCopy`) and the write-back block cache (`BlockCache`) are proved against plain sector-by-sector
writing.

**ELF loader** (`kernel/src/linux_compat.rs`). Inspection, staging and address lookup (`ElfLoader`),
the pass over relocations with addends (`ElfReloc`), symbol collection over any list of images
(`ElfSymbols`), linking against the collected table, COPY entries included (`ElfLinking`), and the
initial stack, which is read back the way a process reads it (`InitialStack`). `ElfOverlap` has a file
whose segments overlap.

**Small kernels.** The ticket lock and the job ring under it, one memory access at a time
(`TicketLock`, `JobQueue`), heap reservations by compare-and-swap (`HeapReservation`), the scheduler
(`Scheduler`) and the wall clock (`WallClock`). Results hold for every interleaving or every run.

`Bytes`, `Utf8Text` and `Whitespace` hold little-endian integers, buffer overwriting, UTF-8 and trimming.

## What the code does not do

Some expected properties do not hold of the code. The model keeps the code as it is and states exactly
when the property holds.

- A FAT chain of more than 0x100001 clusters cannot be walked, so overwriting or deleting its file loses
  its clusters (`ExFatData.StreamChainIs`, `ExFatRuns.RunsLoseNothing`); a volume of at most that many
  clusters loses none (`ExFatRuns.SmallVolumesLoseNothing`). `ExFatExamples.LongStream` has such a chain.
- A directory that is not the root and not in the stream cache is taken for one cluster
  (`ExFatReading.ReadInFull`); entries behind 1024 clusters are never seen (`ExFatReading.BeyondTheLimit`).
- A listing ends at the length recorded for the directory. It is complete exactly when no set ends behind
  that length (`ExFatListing.ListedInFull`); a directory all of whose sets do passes for empty
  (`ExFatDeleting.WhenEmpty`) and is deleted (`ExFatExamples.DeletesNonEmpty`).
- Growing a directory fails after its cluster has been linked exactly when the parent's entry is not found
  or one more cluster is too small for the set (`ExFatGrowth.ExtendDirectory`,
  `ExFatInstall.InstallEntrySet`); an unwritten cluster then stays linked (`ExFatExamples.TooDeepToGrow`,
  `ExFatExamples.RootTooFull`).
- The last progress callback of a write is asked after the write is complete; a refusal there, and only
  there, reports an error although the file is in place (`ExFatOperations.CanceledLate`,
  `ExFatExamples.LateCancel`; on FAT32 `Fat32Files.WriteFile`).
- Replacing a FAT32 file of more than 1024 clusters by one of at least 1024 leaves the clusters behind the
  first 1024 in use and out of reach; otherwise the count of used clusters is exact
  (`Fat32Streams.UsedExactly`, `Fat32Streams.TailIsLost`, `Fat32Examples.LeakingRun`).
- A full FAT32 directory of more than 1024 clusters is cut when a file is to be added: its 1024th cluster is
  linked to a new one before the write fails, and the clusters behind stay in use and out of reach
  (`Fat32Files.WriteFile`, `Fat32Outcomes.DirectoryTailIsLost`).
- A FAT32 FAT may have entries behind those of the volume's clusters. The search for a free cluster takes
  them for clusters too: it stays inside from every hint exactly when none of them is zero
  (`Fat32Alloc.FreeClusterInside`, `Fat32Examples.SlackIsGiven`).
- A FAT32 file reads back exactly when its length fits 32 bits and its chain 262144 clusters
  (`Fat32Files.ReadsBack`, `Fat32Examples.TooLargeToReadBack`). An emptied file whose last call is refused keeps its entry, with its clusters
  already free (`Fat32Storing.StoreNothing`).
- The relocation pass adds the addend to GLOB_DAT and JUMP_SLOT too, so it agrees with the System V AMD64
  ABI, section 4.4.1, exactly when that addend is zero (`ElfReloc.AppliedAsInAbi`, `ElfReloc.AddendIsAdded`).
- A COPY takes the bytes of the first image that exports the name. The program is collected first and
  normally defines the symbol itself, at the place of the copy; the entry is then copied onto itself and the
  library's value never arrives (`ElfLinking.CopyOntoItself`).
- The stack pointer is a multiple of 16 exactly when the buffer's address is, which a byte vector does not
  ask for (`InitialStack.AlignedIffBase`).
- Where file parts of segments overlap, address lookup takes the first and the image the last segment: they
  agree exactly where both have the same byte (`ElfLoader.ByteBehind`, `ElfOverlap.OverlapDisagrees`).
- An argument with a zero character is cut there by a C reader (`InitialStack.SeenExactly`).
- A wrap of the 64-bit tick counter turns the clock back; no other tick and no rate change does
  (`WallClock.BackwardsIffWrap`, `WallClock.WrapTurnsBack`).

## Preconditions

- Volumes start sound: chains well formed, links inside the FAT. The exFAT bitmap and FAT are one array
  each with one entry per cluster; the cluster count is below the maximum of the exFAT specification.
- No two sets of an exFAT directory have names that are equal up to ASCII case. The engine reads every
  character outside ASCII as a question mark, so this also shuts out volumes with names that differ only
  there, which the engine confuses.
- No set of an exFAT directory is named `.` or `..`, and no exFAT directory, that of the operation or any
  other, has more than 1024 clusters.
- The directory of an exFAT operation is the root, remembered, or one cluster long, and has room for the
  set within 1024 clusters.
- The part of a FAT32 directory that is read, its first 1024 clusters, lies on the device. A file and the
  directory it is in share no cluster.
- The copy's destination sectors are distinct and, on the same device, apart from the source's.
- Relocation entry sizes do not carry the cursor past 64 bits.
- The stack buffer is not at address zero and lies within the address space.
- Task periods are positive.

## Model

| member | source | states |
|---|---|---|
| `ExFatEntrySet.EntrySetChecksum` | kernel/src/fat32.rs:3078-3088 | The loop computes the set checksum of the exFAT specification, section 6.3.3: every byte of the set in order, rotated and added, the two stored checksum bytes left out. What one step does to the sum is pinned by `StepIsUndone`, what the whole sum sees by `SumSeesByte`. |
| `ExFatEntrySet.StepIsUndone` | kernel/src/fat32.rs:3072-3083 | One step of checksum and hash is undone by taking the byte off again and rotating the 16 bits to the left: it rotates right by one and adds. |
| `ExFatEntrySet.SumSeesByte` | kernel/src/fat32.rs:3078-3088 | Of two sets that differ in one byte the sums differ exactly when that byte is among those summed so far and is not one of the two stored checksum bytes. |
| `ExFatEntrySet.OneByteIsDetected` | kernel/src/fat32.rs:3078-3100 | A set with the right checksum no longer has it once any one of its bytes, the stored checksum included, is changed. |
| `ExFatEntrySet.ChecksumIgnoresItself` | kernel/src/fat32.rs:3078-3100 | The checksum depends on the bytes of the set and on nothing else, and not on bytes 2 and 3 of the file entry, so storing it does not change it. |
| `ExFatEntrySet.NameHashFromUnits` | kernel/src/fat32.rs:3063-3076 | The loop over name units computes the name hash of the exFAT specification, section 7.6.4, for the up-cased name: low byte, then high byte of each unit. |
| `ExFatEntrySet.HashIgnoresCase` | kernel/src/fat32.rs:3055-3076 | Names that are equal up to ASCII case have equal hashes. |
| `ExFatEntrySet.HashOfA` | kernel/src/fat32.rs:3063-3076 | The hash of `A`, and of `a`, is 0x8020. |
| `ExFatEntrySet.HashSeesLetter` | kernel/src/fat32.rs:3063-3076 | Names that differ in one letter, whatever its case, have different hashes. |
| `ExFatEntrySet.UpperMeans` | kernel/src/fat32.rs:3066-3070 | Two bytes count as the same letter exactly when they are equal or the small and capital form of one ASCII letter. |
| `ExFatEntrySet.BuildEntrySet` | kernel/src/fat32.rs:3114-3164 | For every name of 1 to 255 bytes a whole set is built: file entry, stream extension and as many name entries as needed, each byte as specified, the checksum being that of the finished set; no set for an empty or longer name. `ExFatParse.BuiltSetLayout` reads the bytes off. |
| `ExFatEntrySet.BuiltSetChecksumOk` | kernel/src/fat32.rs:3114-3164 | A built set carries the checksum of its own bytes. |
| `ExFatParse.DecodeNamePart` | kernel/src/fat32.rs:2815-2831 | The loop returns the units of a name entry up to the first zero unit. |
| `ExFatParse.DecodedPart` | kernel/src/fat32.rs:2815-2831 | A name part ends at the first zero unit or after fifteen; each unit before is the letter itself, or a question mark outside ASCII. |
| `ExFatParse.ParseEntrySetAt` | kernel/src/fat32.rs:3166-3225 | The parsing loop returns exactly what the reference parse defines: a file entry with enough entries behind it, the last stream extension among its secondaries, and the parts of the name joined. |
| `ExFatParse.EntrySetRoundTrip` | kernel/src/fat32.rs:3114-3225 | A built set, copied anywhere into a directory, parses to the name, type, lengths and first cluster it was built from, with the no-FAT-chain flag set only when the first cluster is at least 2. |
| `ExFatParse.BuiltSetLayout` | kernel/src/fat32.rs:3114-3164 | In a built set the types, secondary count, attributes, name length, hash, the two flag bits and every name unit stand where sections 7.4, 7.6 and 7.7 of the exFAT specification put them. |
| `ExFatParse.DirectoryBit` | kernel/src/fat32.rs:3181-3182 | A set is a directory exactly by bit 4 of its attributes, whatever the other bits are. |
| `ExFatParse.NoFatChainBit` | kernel/src/fat32.rs:3196-3197 | Clusters lie in a row exactly by bit 1 of the flags, whatever the other bits are. |
| `ExFatParse.RoomToReplace` | kernel/src/fat32.rs:3667-3754 | A parsed set has at least as many entries as a set built for any name equal to its own up to case, so a replacement always fits in place. |
| `ExFatParse.RefreshEntrySetChecksum` | kernel/src/fat32.rs:3090-3100 | The method stores the recomputed checksum and changes nothing else; `ChecksumRefreshed` and `OneByteIsDetected` say what the stored value is worth. |
| `ExFatParse.ChecksumRefreshed` | kernel/src/fat32.rs:3090-3100 | After a refresh the stored checksum is right, and at most bytes 2 and 3 of the file entry differ. |
| `ExFatParse.RefreshedParses` | kernel/src/fat32.rs:3846-3858 | After a metadata refresh a set parses with the new lengths and chain flag, everything else as before, and a right checksum. |
| `ExFatScan.FindIsLookup` | kernel/src/fat32.rs:3227-3248 | Searching a well-formed directory returns a live set with that name up to case, and fails only when there is none. |
| `ExFatScan.FirstFitReached` | kernel/src/fat32.rs:3250-3273 | The first run of free entries starts where a walk over the directory arrives, never inside a live set. |
| `ExFatScan.Exchange` | kernel/src/fat32.rs:3667-3754 | Overwriting a live set by another set, or by nothing, exchanges exactly these two; every other set stays, the directory stays well formed, no early end marker appears. |
| `ExFatScan.Insertion` | kernel/src/fat32.rs:3667-3754 | Writing a set into the first run of free entries adds exactly that set. |
| `ExFatDirectory.FindEntrySetByName` | kernel/src/fat32.rs:3227-3248 | The search loop returns the first set of that name a walk of the directory meets. |
| `ExFatDirectory.FindFreeEntryRun` | kernel/src/fat32.rs:3250-3273 | The one-pass search finds the first window of that many free entries, and fails only when there is none. |
| `ExFatDirectory.MarkEntrySetInactive` | kernel/src/fat32.rs:3275-3284 | The loop clears the in-use bit of exactly the entries of the set. |
| `ExFatDirectory.RemovalEdit` | kernel/src/fat32.rs:3275-3284 | Marking a live set inactive removes that set from the directory and no other, and keeps checksums and well-formedness. |
| `ExFatDirectory.InsertEdit` | kernel/src/fat32.rs:3667-3754 | Copying a built set into the first free run adds exactly its parsed form to the live sets. |
| `ExFatDirectory.ReplaceEdit` | kernel/src/fat32.rs:3667-3754 | Copying a built set over a live one and taking the rest of the old one out of use exchanges the two. |
| `ExFatDirectory.RefreshEdit` | kernel/src/fat32.rs:3846-3858 | Refreshing a live set changes its lengths and flag and no other set. |
| `ExFatDirectory.GrowEdit` | kernel/src/fat32.rs:3756-3796 | Zeroed entries appended to a directory add no set and keep it well formed. |
| `ExFatChains.WalkFollows` | kernel/src/fat32.rs:2686-2713 | Walking the FAT along a finished chain within the guard gives exactly the chain. |
| `ExFatChains.WalkGivesUp` | kernel/src/fat32.rs:2686-2713 | On a longer chain the walk reports a loop, whatever limit was asked for. |
| `ExFatChains.FlatWalkFollows` | kernel/src/fat32.rs:2715-2733 | Listing a contiguous stream of the right length gives exactly its clusters. |
| `ExFatChains.WrittenIsRead` | kernel/src/fat32.rs:3348-3372 | What is written to a chain of distinct clusters is what the chain then holds. |
| `ExFatChains.OthersKept` | kernel/src/fat32.rs:3348-3372 | Writing a chain changes no cluster outside it. |
| `ExFatChains.Remembered` | kernel/src/fat32.rs:2620-2638 | After remembering a stream the cache holds it once, and of other streams only what it held before. |
| `ExFatChains.ForgetsOnlyOldest` | kernel/src/fat32.rs:2620-2638 | Remembering a stream forgets another exactly when that is the oldest of 512 and the stream was not remembered before. |
| `ExFatAllocator.Volume.FindFreeCluster` | kernel/src/fat32.rs:3489-3517 | The scan from the hint, wrapping at the end, returns the first free cluster it meets and moves the hint past it; it fails exactly when no cluster is free. |
| `ExFatAllocator.Volume.FreeClusterList` | kernel/src/fat32.rs:3519-3528 | Exactly the valid clusters of the list are unmarked and unlinked. |
| `ExFatAllocator.Volume.AllocateChain` | kernel/src/fat32.rs:3530-3565 | It succeeds exactly when enough clusters are free; then it returns that many distinct clusters that were free, now marked and linked so that the FAT walk gives exactly them, all else unchanged; otherwise the bitmap is restored exactly. |
| `ExFatAllocator.FreedRollsBack` | kernel/src/fat32.rs:3530-3565 | Freeing what had been collected restores the bitmap bit by bit. |
| `ExFatLayout.StreamsDisjoint` | kernel/src/fat32.rs:3519-3606 | On a sound volume no cluster lies in two streams or twice in one. |
| `ExFatLayout.OneReference` | kernel/src/fat32.rs:3667-3754 | No two directory entries refer to the same stream. |
| `ExFatLayout.TakenSound` | kernel/src/fat32.rs:3530-3565 | Free clusters linked into a chain become a stream of their own; soundness is kept. |
| `ExFatLayout.ReleasedSound` | kernel/src/fat32.rs:3587-3606 | Freeing a stream nobody refers to leaves no trace of it. |
| `ExFatLayout.InstalledSound` | kernel/src/fat32.rs:3667-3754 | Installing an entry puts its stream under exactly one reference and hands back the replaced streams. |
| `ExFatLayout.RemovedSound` | kernel/src/fat32.rs:4204-4244 | Removing the entry of a file or of an empty directory keeps the volume sound and hands back its stream. |
| `ExFatLayout.GrownSound` | kernel/src/fat32.rs:3756-3796 | A directory grown by a free cluster, with its entry in the parent refreshed, is sound. |
| `ExFatInvariant.InstalledMatches` | kernel/src/fat32.rs:3667-3754 | The bytes after installing match the new layout: bitmap, links, directories and cache. |
| `ExFatInvariant.RemovedMatches` | kernel/src/fat32.rs:4204-4244 | The bytes after removing match the new layout. |
| `ExFatInvariant.GrownMatches` | kernel/src/fat32.rs:3756-3860 | The bytes after growing a directory match the new layout, the grown directory itself being still in memory. |
| `ExFatReading.ReadInFull` | kernel/src/fat32.rs:2640-2657 | A directory is read in full exactly when it is the root, is remembered in the stream cache, or has one cluster; a miss is taken for one contiguous cluster. |
| `ExFatReading.BeyondTheLimit` | kernel/src/fat32.rs:3286-3346 | Of a longer root directory, or a longer remembered one, contiguous or not, exactly the first 1024 clusters are read. |
| `ExFatReading.PrefixLive` | kernel/src/fat32.rs:3286-3346 | A walk over the first entries of a directory finds exactly the sets that end there. |
| `ExFatStreams.ReadFatChain` | kernel/src/fat32.rs:2686-2713 | The loop computes the reference walk, with its guard and its loop error. |
| `ExFatStreams.ContiguousChain` | kernel/src/fat32.rs:2715-2733 | The loop lists the clusters the length asks for, within the volume and the limit. |
| `ExFatStreams.ReadDir` | kernel/src/fat32.rs:3286-3346 | Reading a directory returns its entries cluster by cluster along the chain the engine takes for it. |
| `ExFatStreams.WriteDir` | kernel/src/fat32.rs:3348-3372 | Writing back stores the entries in the clusters of the chain and nowhere else. |
| `ExFatTree.ScanForDirectory` | kernel/src/fat32.rs:3820-3900 | The scan finds the entry of the wanted directory if it is here, else the subdirectories to descend into. |
| `ExFatTree.UpdateInTree` | kernel/src/fat32.rs:3820-3900 | The recursive search refreshes the one entry of the target directory in its parent, or changes nothing; it succeeds exactly when the target lies at most nine levels below the root and the entry of every directory on the way lies in the clusters that are read of its parent. |
| `ExFatGrowth.LinkBehind` | kernel/src/fat32.rs:3756-3796 | The new cluster is linked behind the chain; a contiguous chain is first written out as FAT links. |
| `ExFatGrowth.ExtendDirectory` | kernel/src/fat32.rs:3756-3796 | A directory gets one more cluster: allocation, linking, cache and parent entry together keep the invariant. It fails exactly when no cluster is free, leaving everything as it was, or when the search for the parent's entry fails; then the cluster is marked, linked and remembered, but the parent does not count it and nobody has written it. |
| `ExFatInstall.FreshRoom` | kernel/src/fat32.rs:3667-3754 | A cluster of zeros makes room for a set exactly when it and the free entries before it are enough. |
| `ExFatInstall.InstallEntrySet` | kernel/src/fat32.rs:3667-3754 | Insert or replace: in place, in free entries, or after growing the directory; the result matches the new layout and data clusters are untouched. How it ends is a function of the directory, the free clusters and the way to the parent, and each failure leaves exactly what is stated of a half-finished growth. |
| `ExFatTaking.NotInstalled` | kernel/src/fat32.rs:3902-3967 | However installing failed, the clusters taken for the new stream are free again, and what is left is the volume as it was or exactly the half-grown directory. |
| `ExFatTaking.EndsAsBefore` | kernel/src/fat32.rs:3667-3754 | Taking the clusters of the new stream first changes nothing about how installing ends but the number of clusters that are free. |
| `ExFatNames.ValidateName` | kernel/src/fat32.rs:3034-3053 | Exactly the texts that trim to 1 to 255 printable ASCII characters other than the nine reserved ones, and not "." or "..", are accepted, as their trimmed characters. An empty or dot name, more than 255 UTF-8 bytes, and the first bad character being reserved or not ASCII have each their own error. |
| `ExFatView.InstalledView` | kernel/src/fat32.rs:3667-3754 | Installing puts the node under its name in the directory tree and changes nothing else in the tree. |
| `ExFatView.RemovedView` | kernel/src/fat32.rs:4204-4244 | Removing takes the name, and the empty directory it stood for, out of the tree and changes nothing else. |
| `ExFatData.ContentIsRead` | kernel/src/fat32.rs:3608-3647 | Content written in entries of 32 bytes with zero fill reads back as the content. |
| `ExFatData.PaddedWithZeros` | kernel/src/fat32.rs:3608-3647 | Every byte stored for a file is that of the content, or zero behind its end. |
| `ExFatData.WriteContent` | kernel/src/fat32.rs:3608-3647 | On success the chain holds the content followed by zeros; no other cluster is written even when it is cancelled. |
| `ExFatData.StreamChainIs` | kernel/src/fat32.rs:3567-3585 | The clusters the engine takes for a stream are exactly its clusters, unless its FAT chain is longer than the walk allows. |
| `ExFatData.FreeStream` | kernel/src/fat32.rs:3587-3606 | Exactly the clusters found for the stream are freed. |
| `ExFatOperations.WriteFile` | kernel/src/fat32.rs:3902-3967 | The result is a function of the directory, the free clusters and the callback. When the entry has been put in place the volume is sound, its tree is the old tree with the content under the name, and the directory lists the name as spelt with data length and valid length both that of the content, its clusters chained; only chains too long to walk are lost. Otherwise the tree is as it was, or exactly the half-grown directory is left. A cancelled write has put the file in place exactly when only the last call was refused; a refused name changes nothing. |
| `ExFatOperations.CanceledLate` | kernel/src/fat32.rs:3902-3967 | If a write is cancelled, its entry is in place exactly when the callback let every call pass but the last. |
| `ExFatOperations.DirectoryInTheWay` | kernel/src/fat32.rs:3667-3754 | A write is refused for a directory of the name exactly when the directory has one. |
| `ExFatListing.ListDirectory` | kernel/src/fat32.rs:2770-2935 | Listing returns exactly the live sets that end within the length known of the directory, 1024 clusters at most, and remembers their streams. |
| `ExFatListing.ReadListing` | kernel/src/fat32.rs:2770-2813 | The clusters are walked along the chain and cut at the length, entry by entry; errors as in the source. |
| `ExFatListing.ListedInFull` | kernel/src/fat32.rs:2833-2935 | The whole directory is listed exactly when no live set ends behind that length. |
| `ExFatListing.FullLength` | kernel/src/fat32.rs:2833-2935 | A directory whose known length fills its clusters is read to the end. |
| `ExFatListing.DirectoryIsEmpty` | kernel/src/fat32.rs:5547-5559 | A directory passes for empty exactly when no live set ends within the length known of it. |
| `ExFatDeleting.DeleteEntry` | kernel/src/fat32.rs:4204-4244 | Each error has its exact reason and leaves the tree as it was. Otherwise the entry is gone: for a file or an empty directory the volume is sound and the tree is the old one without the name, a chain too long to walk being lost and reported; for a directory that only passes for empty, its clusters are freed and everything else stays, so that what was in it cannot be reached. |
| `ExFatDeleting.DeleteErrors` | kernel/src/fat32.rs:4204-4244 | Not found, wrong type and not empty, each exactly when the live sets of the directory say so. |
| `ExFatDeleting.WhenEmpty` | kernel/src/fat32.rs:5547-5559 | A directory that is not empty passes for empty exactly when all its sets end behind its known length. |
| `ExFatDirectories.EnsureSubdirectory` | kernel/src/fat32.rs:4164-4202 | It returns the directory of that name and changes nothing, refuses a file of that name, or makes an empty directory, puts it into the tree and lists it with both lengths one cluster; failures have their exact reasons and leave the tree as it was or exactly the half-grown parent. |
| `ExFatOneTree.TreeExists` | kernel/src/fat32.rs:2833-2935 | Every sound volume stands for a directory tree. |
| `ExFatOneTree.TreeUnique` | kernel/src/fat32.rs:2833-2935 | The volume alone determines the tree: whatever sound account of its clusters is given, the tree is the same. |
| `ExFatOneTree.LookupInTree` | kernel/src/fat32.rs:3227-3248 | Searching the bytes of a directory for a name is looking the name up in the tree. |
| `ExFatRuns.Perform` | kernel/src/fat32.rs:3902-4244 | A request is carried out by the operation it names, and what the operation promises about a sound state that admits it holds of the step. |
| `ExFatRuns.StepKeeps` | kernel/src/fat32.rs:3902-4244 | A request that does not stop half way takes a sound state that stands for a tree to one that stands for what the request and the reply make of that tree. |
| `ExFatRuns.RunsFollowTheTree` | kernel/src/fat32.rs:3902-4244 | By induction over the requests: every state of every run is sound and stands for what the requests and replies so far make of the tree at the beginning, if every state met admits the request made of it and lets it finish. |
| `ExFatRuns.PerformAll` | kernel/src/fat32.rs:3902-4244 | Carrying out the requests one after the other is such a run, with soundness and the tree as loop invariants. |
| `ExFatRuns.RootRunsArePrudent` | kernel/src/fat32.rs:3902-4244 | Told from the volume and the requests alone: on a volume of fewer than 1024 clusters with at least 19 entries in each, requests of the root directory that delete files only are admitted and finish, whatever the states met. |
| `ExFatRuns.RootRunsFollowTheTree` | kernel/src/fat32.rs:3902-4244 | So every run of such requests ends in a sound state that stands for what they make of the tree, and loses no cluster. |
| `ExFatRuns.RunsLoseNothing` | kernel/src/fat32.rs:3519-3606 | A run on which no chain exceeds the walk limit loses no cluster. |
| `ExFatRuns.SmallVolumesLoseNothing` | kernel/src/fat32.rs:3519-3606 | On a volume of at most 0x100001 clusters no run loses a cluster. |
| `ExFatRuns.ClusterHasOnePlace` | kernel/src/fat32.rs:3399-3565 | In every sound state a bitmap bit is set exactly when the cluster is a system cluster or one position of one stream. |
| `ExFatRuns.StreamHasOneEntry` | kernel/src/fat32.rs:3667-3754 | With nothing lost, every stream but the root directory has exactly one entry that refers to it. |
| `ExFatExamples.LateCancel` | kernel/src/fat32.rs:3902-3967 | On a concrete volume a callback that refuses its third call gets an error, and the empty file is in the tree. |
| `ExFatExamples.RootTooFull` | kernel/src/fat32.rs:3667-3754 | On a concrete volume with a full root a name of 211 characters is refused after the root has been grown in vain. |
| `ExFatExamples.TooDeepToGrow` | kernel/src/fat32.rs:3756-3900 | On a concrete volume a full directory ten levels down is linked to a new cluster and then its entry is not found. |
| `ExFatExamples.DeletesNonEmpty` | kernel/src/fat32.rs:4204-4244 | On a concrete volume a directory with a file in it is deleted, because its recorded length ends before the file's set. |
| `ExFatExamples.LongStream` | kernel/src/fat32.rs:2686-2713 | An input: a sound volume with a stream of 1048578 clusters or more, of which no cluster is found. |
| `SectorCopy.NextContiguousRun` | kernel/src/fat32.rs:4707-4754 | The run returned is the longest stretch of consecutive sectors from the position on, within the limit, and the cursor moves past it; `None` exactly at the end or for a zero limit. |
| `SectorCopy.AllRuns` | kernel/src/fat32.rs:4707-4754 | Asking for run after run gives runs that concatenate to the chain's sector list, for any limit. |
| `SectorCopy.SectorsDistinct` | kernel/src/fat32.rs:341-346 | Distinct clusters have distinct sectors. |
| `SectorCopy.NotAmong` | kernel/src/fat32.rs:341-346 | A sector of a cluster outside the chain is not among the chain's sectors. |
| `SectorCopy.CopyStream` | kernel/src/fat32.rs:4060-4162 | For any fragmentation of both chains and any chunk size the destination sectors hold the source's bytes up to the length and zeros behind it, no sector outside the destination is written even on failure, and it fails exactly when the source is too short. It is cancelled only by the first call that is refused; every call before was granted. |
| `SectorCopy.CopiedStream` | kernel/src/fat32.rs:4060-4162 | Byte for byte: the destination stream is the first bytes of the source stream, then zeros. |
| `BlockCache.SectorInBlock` | kernel/src/fat32.rs:2385-2535 | Block number and offset computed from byte addresses are those of the sector number, for blocks of 512 to 4096 bytes. |
| `BlockCache.SupportedExactly` | kernel/src/fat32.rs:2385-2535 | A device is written through the cache exactly when its blocks are one to eight whole sectors. |
| `BlockCache.CutSector` | kernel/src/fat32.rs:2385-2535 | The next sector of the content, filled up with zeros, and how many bytes of content it took. |
| `BlockCache.WriteThroughCache` | kernel/src/fat32.rs:2385-2535 | When the cached writer succeeds the device holds what writing sector by sector leaves behind; whatever happens, sectors outside the chain are unchanged; unsupported block sizes are refused untouched. It is cancelled only if one of its calls, one for each sector, is refused, and done only if none is. |
| `BlockCache.WriteSectorBySector` | kernel/src/fat32.rs:5169-5195 | The plain loop leaves behind the reference result, sector after sector, each through a read-modify-write of its block, with the same calls. |
| `BlockCache.WrittenStream` | kernel/src/fat32.rs:2385-2535 | The written stream reads back as the content followed by zeros. |
| `BlockCache.SameResult` | kernel/src/fat32.rs:2385-2535 | The cached and the plain writer leave the same device behind. |
| `Fat32Table.FatDisk.ReadEntry` | kernel/src/fat32.rs:4429-4442 | The low 28 bits of the entry in the first FAT copy. |
| `Fat32Table.FatDisk.WriteEntry` | kernel/src/fat32.rs:4444-4467 | In every copy the entry gets the low 28 bits of the value and keeps its top four; no other entry and no other sector changes. |
| `Fat32Table.CopiesStand` | kernel/src/fat32.rs:4444-4467 | The copies of the FAT stand one behind the other, as many as the volume says and at least one. |
| `Fat32Table.LinksAfter` | kernel/src/fat32.rs:4429-4467 | After writing an entry exactly one link reads differently. |
| `Fat32Table.ReadClusterChain` | kernel/src/fat32.rs:1796-1848 | The walk that keeps the last FAT sector in memory finds exactly what reading every entry from disk finds. |
| `Fat32Table.FreeClusterChain` | kernel/src/fat32.rs:4469-4489 | On any table with links inside, cyclic ones included, the loop ends; the freed entries are zero in every copy with their top bits kept, nothing else changes. |
| `Fat32Table.FreesTheChain` | kernel/src/fat32.rs:4469-4489 | A chain within the guard is freed entirely and without error; of a longer one the beginning is freed and an error reported. |
| `Fat32Alloc.Fat32.FindFreeCluster` | kernel/src/fat32.rs:4491-4523 | The scan returns the first zero entry from the hint on, wrapping at the end of the FAT, and moves the hint past it; it fails exactly when no entry is zero. |
| `Fat32Alloc.FreeClusterInside` | kernel/src/fat32.rs:4491-4523 | From every hint the cluster found lies in the volume exactly when no FAT entry behind those of its clusters is zero. |
| `Fat32Examples.SlackIsGiven` | kernel/src/fat32.rs:4491-4523 | An input: with a FAT of one sector and 98 clusters all in use the search gives cluster 100. |
| `Fat32Alloc.Fat32.ExtendChain` | kernel/src/fat32.rs:5125-5138 | Free clusters, those the search gives one after the other, are linked behind the chain until it has the wanted length; links of all other clusters stay. Whether it stops early, and why, is a function of the number of free clusters and the answers of the callback; what was linked stays linked. |
| `Fat32Alloc.Fat32.TrimChain` | kernel/src/fat32.rs:5143-5150 | The first clusters stay a chain and the others are freed, links of all other clusters stay; it fails exactly when more than 0x10001 are to be freed. |
| `Fat32Streams.FitChain` | kernel/src/fat32.rs:5108-5153 | For an old chain of any length the file gets a chain of exactly the wanted length, made of the beginning of the old one and of the clusters the search gives; links outside the old chain and of clusters in use never change. Whether it fails, and why, is a function of the number of free clusters, the length of the old chain and the answers to the calls that are made. |
| `Fat32Streams.ExtendAsked` | kernel/src/fat32.rs:5124-5137 | When a chain is made longer the callback is asked at every sixteenth step of the whole operation and at no other. |
| `Fat32Streams.UsedExactly` | kernel/src/fat32.rs:5108-5153 | The number of clusters in use comes out right exactly when the old chain has at most 1024 clusters or the new one has fewer. |
| `Fat32Streams.TailIsLost` | kernel/src/fat32.rs:5108-5153 | Otherwise every old cluster behind the first 1024 stays in use, and nothing leads to the first of them any more that led there through the file. |
| `Fat32Examples.LeakingRun` | kernel/src/fat32.rs:5108-5153 | An input: on a volume whose FAT has nine sectors the chain of a file of 1025 clusters is fitted to 1024; the number of clusters in use is the same as before, and the last cluster of the old chain stays in use. |
| `Fat32Streams.WriteStream` | kernel/src/fat32.rs:5169-5195 | The sectors written, in order, hold the content and then zeros, no other sector changes; it stops at the first sector off the device or after the first refused call, as the sectors and the answers have it. |
| `Fat32Streams.WritesAll` | kernel/src/fat32.rs:5169-5195 | All sectors are written exactly when they are on the device and the callback never refuses. |
| `Fat32Streams.ReadFileSized` | kernel/src/fat32.rs:2059-2134 | Reading returns the first bytes of the stream along the chain, as many as asked for and stored; it fails exactly when the chain cannot be walked, is empty, or a sector needed is off the device. |
| `Fat32Streams.ReadMaxMeans` | kernel/src/fat32.rs:2090-2097 | Of a chain one cluster more than the bytes need is read, at least eight and at most 262144. |
| `Fat32Streams.WalkPrefix` | kernel/src/fat32.rs:1796-1848 | Of a whole chain the walk gives as much as it is asked for. |
| `Fat32Streams.PrefixIsContent` | kernel/src/fat32.rs:2059-2134 | The bytes of a written stream are the content. |
| `Fat32Directory.ScanMeans` | kernel/src/fat32.rs:4964-5022 | What each outcome of the directory scan says: the first entry of that name, a file or a directory, or the first free slot when no entry of that name stands before the end. |
| `Fat32Directory.DirectoryBit` | kernel/src/fat32.rs:5011-5012 | An entry is a directory exactly by bit 4 of its attribute byte, whatever the other bits are. |
| `Fat32Directory.SkippedBit` | kernel/src/fat32.rs:5001-5005 | An entry is passed over exactly by bit 3 of its attribute byte, which volume labels and parts of long names have. |
| `Fat32Directory.ClusterHalves` | kernel/src/fat32.rs:4698-4700 | The first cluster of an entry is put together from the halves at bytes 20 and 26. |
| `Fat32Directory.NamedDecides` | kernel/src/fat32.rs:4964-5022 | The first entry in use, with bit 3 clear and of that name, decides the scan: bit 4 makes it a directory in the way, and otherwise it is the file itself or, for a made-up short name, another file in the way. |
| `Fat32Directory.UnnamedDecides` | kernel/src/fat32.rs:4964-5022 | Without such an entry the scan gives a free slot; it gives none exactly when the first byte of every entry is neither 0 nor 0xE5. |
| `Fat32Directory.ScanDirectory` | kernel/src/fat32.rs:4964-5022 | The three nested loops over clusters, sectors and entries compute the scan, which `NamedDecides` and `UnnamedDecides` tell from the bytes of the entries. It is interrupted exactly when the callback, asked before every 32nd sector that is read up to the end mark or the entry, refuses. |
| `Fat32Directory.ScanFinds` | kernel/src/fat32.rs:4964-5022 | An entry of the name is found when no other of the name and no end mark stands before it. |
| `Fat32Storing.EntryReads` | kernel/src/fat32.rs:5074-5102 | A directory entry made for a file reads back with its name, first cluster and size. |
| `Fat32Files.GrowDirectory` | kernel/src/fat32.rs:5029-5053 | The directory gets one more cluster of empty entries and nothing else changes; without a free cluster nothing changes at all, and after any other failure the cluster stays linked. The error, or none, is a function of the state before. |
| `Fat32Storing.StoreContent` | kernel/src/fat32.rs:5096-5195 | For an old chain of any length the file's chain is fitted to the content and holds it; whatever the outcome, links and data of all other clusters in use stay. The error, or none, is a function of the state before: free clusters and where the search starts, old chain, device, and the answers to the calls that are made. |
| `Fat32Files.WriteFile` | kernel/src/fat32.rs:4925-5209 | A write that is stored leaves a chain of exactly the clusters the content needs, the content in it, and the entry made from the old one in the slot the scan of the directory chose; other entries stay. It is stored exactly when a function of the state before and of the answers to the calls that are made says so, and that function names the error otherwise; a refusal at the last call reports an error although the file is stored. A directory that could not be read again has been cut behind its 1024th cluster. A name that is taken, a scan that is refused and a refusal at the first call leave every sector as it was. |
| `Fat32Files.ZeroAsked` | kernel/src/fat32.rs:5038-5049 | When a new directory cluster is zeroed the callback is asked at every 32nd step of the whole operation and at no other. |
| `Fat32Outcomes.WritesExactlyWhen` | kernel/src/fat32.rs:4925-5209 | With a callback that never refuses and every cluster of the FAT on the device, a file is stored exactly when its name is not taken by a directory or another file and there is room: a slot in the directory, free clusters for what the content needs beyond the old chain, and not more to give back than is freed at a time; or, in a full directory of fewer than 1024 clusters, one free cluster more than the content needs. Whether the name is taken, and whether the directory is full, is told from the bytes of the entries. |
| `Fat32Outcomes.TakenExactlyWhen` | kernel/src/fat32.rs:5008-5020 | Once the scan is let through, the write ends with "is a directory" exactly when the first entry of the name has bit 4 set, and with "exists" exactly when it has not and the short name was made up; such a write is one that changes no sector. |
| `Fat32Outcomes.DirectoryTailIsLost` | kernel/src/fat32.rs:5029-5053 | A full directory of more than 1024 clusters is cut before the error is reported: its clusters behind the 1024th stay in use, and nothing leads to the first of them any more that led there through the directory. |
| `Fat32Files.UsedClusters` | kernel/src/fat32.rs:4925-5209 | The number of clusters in use changes by new length minus old length, plus one if the directory grew, exactly when the old chain has at most 1024 clusters or the new one has fewer. |
| `Fat32Files.OtherChainsKept` | kernel/src/fat32.rs:4925-5209 | Whatever the outcome of a write, every chain apart from the old file and the directory keeps its links and its data. |
| `Fat32Files.ReadsBack` | kernel/src/fat32.rs:2059-2134 | Reading what the entry refers to, as long as the entry says, returns the content exactly when its length fits 32 bits and its chain has at most 262144 clusters. |
| `Fat32Examples.TooLargeToReadBack` | kernel/src/fat32.rs:4925-5209 | An input: on a volume made from a blank device a file of 2^32 bytes is written without an error; its entry says that it is empty, and so does reading it. |
| `Fat32Files.FoundAgain` | kernel/src/fat32.rs:4964-5102 | After the write a scan for the name finds the entry, which names the first cluster and the length modulo 2^32. |
| `ElfLoader.HeaderRoundTrip` | kernel/src/linux_compat.rs:439-447 | A program header in the ELF64 layout reads back as it was encoded. |
| `ElfLoader.FileHeaderRoundTrip` | kernel/src/linux_compat.rs:394-404 | Of an accepted file the report and the program header table say what the 64 bytes of the file header encode: type, machine, entry, and offset, entry size and count of the table. |
| `ElfLoader.HeaderAccepted` | kernel/src/linux_compat.rs:449-481 | A program header is in order exactly when its file part is not larger than its memory, a loadable segment (1) and the interpreter (3) lie in the file, and the segment ends below 2^64. |
| `ElfLoader.CheckIdentification` | kernel/src/linux_compat.rs:373-398 | Exactly the little-endian ELF64 files of version 1 and of 64 bytes to 256 MiB pass; an error names a condition that fails. |
| `ElfLoader.CheckHeaders` | kernel/src/linux_compat.rs:399-492 | All program headers are in order exactly when the method says so; it lists the loadable segments with their lowest address and highest end, and the kinds seen. |
| `ElfLoader.Inspect` | kernel/src/linux_compat.rs:373-525 | Exactly the files that meet all conditions are accepted, with the report their headers define; an error names a condition that fails. |
| `ElfLoader.ReportKinds` | kernel/src/linux_compat.rs:453-469 | The report has an interpreter, a dynamic section or thread-local storage exactly when some program header is of type 3, 2 or 7. |
| `ElfLoader.SpanCovers` | kernel/src/linux_compat.rs:423-525 | Every segment lies between the lowest address and the highest end. |
| `ElfLoader.ReportSegments` | kernel/src/linux_compat.rs:423-525 | Every segment of a report lies in the file and in the page-aligned span. |
| `ElfLoader.Stage` | kernel/src/linux_compat.rs:1766-1811 | Once a file is accepted staging fails only for machine, type or size, never for a segment; the image is the segments' file bytes, later ones over earlier ones, zeros elsewhere. |
| `ElfLoader.StagedExactlyWhen` | kernel/src/linux_compat.rs:1768-1787 | An accepted file is staged exactly when it is of type 3, for machine 62, and spans at most 256 MiB. |
| `ElfLoader.VaddrToFileOffset` | kernel/src/linux_compat.rs:274-289 | The loop computes the first-match lookup. |
| `ElfLoader.LookupMeans` | kernel/src/linux_compat.rs:274-289 | The lookup gives the offset in the first segment whose file part covers the address, and nothing only where none covers it or a sum overflows. |
| `ElfLoader.LastCovererWins` | kernel/src/linux_compat.rs:1793-1811 | The staged byte is that of the last segment covering the address. |
| `ElfLoader.ByteBehind` | kernel/src/linux_compat.rs:274-289 | For an accepted file the byte the lookup names is the image byte at that address exactly when the first and the last segment covering it have the same byte there, as they always have when file parts do not overlap; where it names none the image holds zero. |
| `ElfOverlap.OverlapDisagrees` | kernel/src/linux_compat.rs:274-289 | An accepted file of 176 bytes with two overlapping segments for which the two differ. |
| `ElfReloc.EntryRoundTrip` | kernel/src/linux_compat.rs:1238-1267 | A relocation in the ELF64 layout, type and symbol packed into one word and the addend in two's complement, reads back as it was encoded. |
| `ElfReloc.SymbolRoundTrip` | kernel/src/linux_compat.rs:982-1007 | A symbol in the 24-byte ELF64 layout, anywhere in a symbol table, reads back as it was encoded. |
| `ElfReloc.RelativeExactly` | kernel/src/linux_compat.rs:1262-1325 | A RELATIVE entry stores bias and addend exactly when its slot lies in the image and the sum in 64 bits, and is an error otherwise. |
| `ElfReloc.SymbolicExactly` | kernel/src/linux_compat.rs:1282-1325 | A 64, GLOB_DAT or JUMP_SLOT entry stores the symbol's address and the addend exactly when the symbol can be read, is defined, both sums fit 64 bits and the slot lies in the image; otherwise it is unsupported or, for the slot, an error. |
| `ElfReloc.OtherKindsExactly` | kernel/src/linux_compat.rs:1278-1308 | A COPY entry is passed over and every other kind is unsupported, unless its address lies before the image. |
| `ElfReloc.AppliedAsInAbi` | kernel/src/linux_compat.rs:1262-1308 | An applied relocation stores the value of the System V AMD64 ABI, section 4.4.1, exactly when its kind is RELATIVE or 64 or its addend is zero: the code adds the addend to GLOB_DAT and JUMP_SLOT as well. |
| `ElfReloc.AddendIsAdded` | kernel/src/linux_compat.rs:1262-1308 | An input: a GLOB_DAT with addend 1 stores one more than the symbol's address. |
| `ElfReloc.EveryByteByLastWriter` | kernel/src/linux_compat.rs:1210-1326 | After the pass every byte is what the last applied relocation covering it wrote, or what it was. |
| `ElfReloc.PassIsIdempotent` | kernel/src/linux_compat.rs:1210-1326 | A second pass over the same table changes nothing. |
| `ElfReloc.PassesCompose` | kernel/src/linux_compat.rs:1931-1965 | Two tables one after the other act as their concatenation. |
| `ElfReloc.EveryEntryCounted` | kernel/src/linux_compat.rs:1238-1326 | Entries are applied, unsupported, in error or copies: each exactly one of them. |
| `ElfReloc.WriteWord` | kernel/src/linux_compat.rs:961-971 | Eight bytes are written exactly when they fit, and nothing else changes. |
| `ElfReloc.ApplyRela` | kernel/src/linux_compat.rs:1210-1326 | The loop writes what the verdicts on the table's entries say, in order, and counts them, each counter held at its largest 32-bit value; a missing or unusable table changes nothing but the error count. The verdicts are told kind by kind by `RelativeExactly`, `SymbolicExactly` and `OtherKindsExactly`. |
| `ElfReloc.VerdictAt` | kernel/src/linux_compat.rs:1237-1325 | Verdict number i is that on the entry i entry sizes into the table, and there are as many as there are whole entries. |
| `ElfReloc.SlotAfterPass` | kernel/src/linux_compat.rs:1210-1326 | After the pass the slot of an applied entry holds bias and addend, and the symbol's value for the kinds by symbol, unless a later entry stores over it. |
| `ElfReloc.WorkOut` | kernel/src/linux_compat.rs:1255-1318 | The value to be stored is worked out kind by kind, as in the source. |
| `ElfSymbols.ReadDynamicString` | kernel/src/linux_compat.rs:291-323 | The string up to the first zero byte inside the string table, and `None` without one. |
| `ElfSymbols.StringExactly` | kernel/src/linux_compat.rs:291-323 | A string is read exactly when its offset lies in the string table, the rest of the table in the file, and a zero byte there ends it; it is the bytes up to that zero. |
| `ElfSymbols.CountExactly` | kernel/src/linux_compat.rs:1033-1048 | The number of symbols is the second word of the hash table, unless that is zero or above a million. |
| `ElfSymbols.GuessExactly` | kernel/src/linux_compat.rs:1050-1074 | Without a hash table the number is that of whole entries between symbol and string table, and 4096 if that is zero, above 262144 or cannot be told. |
| `ElfSymbols.ListedIffExported` | kernel/src/linux_compat.rs:1137-1194 | The exports of an image are exactly the defined, non-local, named symbols with an address that fits, before the first unreadable index. |
| `ElfSymbols.ExportsExactly` | kernel/src/linux_compat.rs:1137-1194 | An image without symbol and string table exports nothing; of others, symbol zero and those from the guessed number on are not exported. |
| `ElfSymbols.ExportsAscend` | kernel/src/linux_compat.rs:1137-1194 | They are listed by ascending symbol index. |
| `ElfSymbols.SymbolTable.Collect` | kernel/src/linux_compat.rs:1131-1196 | Collecting an image adds its exports one by one, each only if its name is new. |
| `ElfSymbols.SymbolTable.CollectEach` | kernel/src/linux_compat.rs:2293-2313 | The images are collected in order: program, interpreter, dependencies. |
| `ElfSymbols.LookupGlobal` | kernel/src/linux_compat.rs:1198-1208 | The loop returns the first entry with the name. |
| `ElfSymbols.NamesStayUnique` | kernel/src/linux_compat.rs:1131-1196 | Whatever images are collected, no name is in the table twice. |
| `ElfSymbols.FirstProviderWins` | kernel/src/linux_compat.rs:1131-1208 | A lookup gives the definition of the earliest image that exports the name, and of its lowest symbol index. |
| `ElfSymbols.UnexportedIsUnknown` | kernel/src/linux_compat.rs:1131-1208 | A name no image exports is not found. |
| `ElfLinking.LinkTable` | kernel/src/linux_compat.rs:1448-1556 | The pass for symbols the image does not define writes what the outcomes on the entries of the table say, COPY entries included, each on the image the ones before have left, and counts them; entries that are not by symbol or whose symbol is defined are passed over. |
| `ElfLinking.OnePassWrites` | kernel/src/linux_compat.rs:1282-1308 | An entry by symbol is written by the image's own pass or by the linking pass, never by both. |
| `ElfLinking.SlotHoldsFirstProvider` | kernel/src/linux_compat.rs:1448-1556 | After the pass over a table with the symbols collected from all images, the slot of an imported symbol holds the value of the first image in loading order that exports the name, plus the addend, unless a later entry writes there. |
| `ElfLinking.CopyHoldsFirstProvider` | kernel/src/linux_compat.rs:1092-1107 | After the same pass, the place of a COPY holds the bytes the first image that exports the name had for the symbol when the entry was met, unless a later entry writes there. |
| `ElfLinking.CopyOntoItself` | kernel/src/linux_compat.rs:2288-2306 | When the first image that exports the name has it at the place the COPY goes to, as the program, which is collected first, normally does, the entry counts as applied and changes no byte. |
| `ElfLinking.EntryIs` | kernel/src/linux_compat.rs:1448-1556 | Entry `i` of a table of that entry size stands at the start plus `i` times the size, and there are as many as fit. |
| `InitialStack.KeptMeans` | kernel/src/linux_compat.rs:2145-2166 | Exactly the default environment items whose key no non-blank extra item has are kept. |
| `InitialStack.OverridesMeans` | kernel/src/linux_compat.rs:2146-2158 | A default `key=value` is overridden exactly by an item that, trimmed, is the key or begins with the key and an equals sign. |
| `Utf8Text.TextRoundTrip` | kernel/src/linux_compat.rs:2064-2072 | Decoding the UTF-8 bytes of a text gives the text. |
| `Whitespace.TrimMeans` | kernel/src/linux_compat.rs:2113-2116 | What trimming takes off is white space by the Unicode list, and what it leaves neither begins nor ends with it. |
| `InitialStack.IsOverridden` | kernel/src/linux_compat.rs:2148-2159 | The search finds whether an extra item has the key. |
| `InitialStack.Stack.PlaceText` | kernel/src/linux_compat.rs:2064-2076 | A C string goes directly below what is there and disturbs nothing; it fails exactly when there is no room. |
| `InitialStack.Stack.PlaceAligned` | kernel/src/linux_compat.rs:2078-2097 | Bytes go below what is there at an offset that is a multiple of 16. |
| `InitialStack.Stack.PlaceStrings` | kernel/src/linux_compat.rs:2110-2191 | Program name, environment and arguments are placed in order, or there was no room for them together. |
| `InitialStack.Stack.WriteWords` | kernel/src/linux_compat.rs:2258-2265 | The word table is written below the strings and disturbs none. |
| `InitialStack.PairsRead` | kernel/src/linux_compat.rs:2212-2244 | The auxiliary vector reads back up to its null entry. |
| `InitialStack.StackRead` | kernel/src/linux_compat.rs:2229-2265 | Count, pointers, null pointers, auxiliary vector and the strings behind the pointers read back as they were written. |
| `InitialStack.Build` | kernel/src/linux_compat.rs:2099-2271 | It succeeds exactly when everything fits; then a process reading from the stack pointer finds the trimmed non-blank arguments, the environment without overridden defaults and the auxiliary vector, strings and seed lie apart from each other and above the table, whose offset is a multiple of 16. `AuxReadBack` says what is under which key. |
| `InitialStack.AuxReadBack` | kernel/src/linux_compat.rs:2212-2227 | Of the auxiliary vector a process reads back: program headers, their size and number, the page size, the interpreter's bias under AT_BASE and the program's entry under AT_ENTRY, zeros for flags and identity, and under AT_RANDOM and AT_EXECFN the addresses where the seed and the program's name stand; 14 entries, no key twice. |
| `InitialStack.TextsComeBack` | kernel/src/linux_compat.rs:2064-2076 | The bytes a process finds for an argument or environment item without a zero character decode, as UTF-8, to the text that was put in. |
| `InitialStack.NameMeans` | kernel/src/linux_compat.rs:2110-2122 | The program's name is the one given, trimmed; if blank, the first argument, trimmed; if that is blank or missing, `/app`. |
| `InitialStack.AlignedIffBase` | kernel/src/linux_compat.rs:2246-2271 | The stack pointer and the seed's address are multiples of 16 exactly when the address of the stack buffer is. |
| `InitialStack.SeenExactly` | kernel/src/linux_compat.rs:2064-2076 | The strings read back are the texts themselves exactly when none of them holds a zero character. |
| `TicketLock.StepKeepsInv` | kernel/src/spinlock.rs:37-109 | Every atomic access of every caller keeps the invariant: tickets out are distinct and within the counters, only the served ticket holds, grants are in order. |
| `TicketLock.MutualExclusionAndOrder` | kernel/src/spinlock.rs:37-109 | In every interleaving of any number of callers at most one guard exists at a time and guards are granted in ticket order, even with stale reads in `try_lock`. |
| `TicketLock.AtMostOneGuard` | kernel/src/spinlock.rs:37-80 | Two callers that hold a guard are the same caller. |
| `TicketLock.WaitersCanProgress` | kernel/src/spinlock.rs:37-56 | Whenever somebody waits, some caller can enter or drop. |
| `TicketLock.NobodyOvertakes` | kernel/src/spinlock.rs:37-109 | No step moves a waiting caller back; each drop brings it one nearer, and it enters only at the front. |
| `JobQueue.Queue.Push` | kernel/src/per_core.rs:145-151 | The ring appends the job, and refuses exactly when full. |
| `JobQueue.Queue.Pop` | kernel/src/per_core.rs:153-159 | The ring gives its oldest job, and `None` exactly when empty. |
| `JobQueue.AccessOnTrack` | kernel/src/per_core.rs:145-159 | Each single access of a push or pop keeps the ring a queue with a half-made change. |
| `JobQueue.TurnedAwayExactly` | kernel/src/per_core.rs:145-159 | In every interleaving a push is turned away exactly when the global ring is full, and a pop exactly when it is empty; otherwise it takes the oldest job. |
| `JobQueue.RunsStaySound` | kernel/src/per_core.rs:240-289 | In every interleaving the ring is a queue whenever nobody is inside, and else one with a half-made change of the one caller inside. |
| `JobQueue.JobsLeaveInOrder` | kernel/src/per_core.rs:240-289 | In every interleaving the jobs that left are a beginning of the jobs accepted, and accepted jobs are those that left plus those in the ring. |
| `HeapReservation.StepKeepsInv` | kernel/src/allocator.rs:61-110 | Every attempt, failed exchange and drop keeps the counter equal to the sum of live reservations and within the heap. |
| `HeapReservation.CounterIsExact` | kernel/src/allocator.rs:20-110 | In every interleaving the counter is the sum of live reservations and never exceeds the heap. |
| `HeapReservation.HeadroomRespected` | kernel/src/allocator.rs:80-110 | Whenever a request succeeds, in any interleaving, the live reservations together leave the caller's headroom of the heap free. |
| `HeapReservation.ReservesExactlyWhen` | kernel/src/allocator.rs:80-110 | A request for some bytes that nobody interferes with succeeds exactly when bytes and headroom fit what is free, and is refused otherwise. |
| `HeapReservation.RefusedRightly` | kernel/src/allocator.rs:95-100 | A request gives up only when what it read of the counter leaves too little for its bytes and headroom. |
| `HeapReservation.ReleaseIsExact` | kernel/src/allocator.rs:61-78 | The saturating subtraction of a release never saturates. |
| `HeapReservation.AllGivenBack` | kernel/src/allocator.rs:20-78 | When every reservation has been given back the counter is zero. |
| `Scheduler.TaskScheduler.Add` | kernel/src/scheduler.rs:109-114 | A task is appended, and dropped when there are eight. |
| `Scheduler.TaskScheduler.OnTick` | kernel/src/scheduler.rs:116-149 | The loop of a tick computes the reference tick. |
| `Scheduler.TickRunsOne` | kernel/src/scheduler.rs:116-149 | At most one task runs in a tick; its run count and the dispatch count go up by one, all others stay; no task that has runs left is retired, and none is revived. |
| `Scheduler.TickRunsFirstReady` | kernel/src/scheduler.rs:122-148 | What runs is the first ready task from the cursor on, and none runs exactly when none is ready. |
| `Scheduler.CountersAreExact` | kernel/src/scheduler.rs:116-149 | In every run each run count and the dispatch count are the exact numbers, held at the largest 64-bit value. |
| `Scheduler.DispatchesAreRuns` | kernel/src/scheduler.rs:140-141 | Dispatches are the sum of the tasks' runs as long as they fit 64 bits. |
| `Scheduler.LimitsHold` | kernel/src/scheduler.rs:135-145 | In every run no task exceeds a limit other than zero. |
| `Scheduler.ExhaustedRetire` | kernel/src/scheduler.rs:127-145 | In every run an active task has runs left: it is retired with its last one and never comes back. |
| `Scheduler.ActiveExactly` | kernel/src/scheduler.rs:127-145 | After any run a task is active exactly if it was at the start and has no limit or fewer runs than its limit. |
| `Scheduler.RunsWithinOneRound` | kernel/src/scheduler.rs:116-149 | From any point of any run an active unlimited task of period 1 runs at least once in the next `task_count` ticks. |
| `WallClock.Clock.UnixMillis` | kernel/src/timer.rs:79-83 | As long as nothing is out of range, the time is the base and the whole milliseconds of the microseconds passed since, never ahead of them and behind by less than one; with a base in range it is never below the base nor beyond the largest time. |
| `WallClock.Clock.InitPolling` | kernel/src/timer.rs:24-34 | A change of the polling period makes a tick that many milliseconds long, at least one, and keeps the time shown. |
| `WallClock.Clock.SetIrqTickHz` | kernel/src/timer.rs:62-67 | A change of the tick rate, brought into 18 to 1000, makes a tick as many whole microseconds long as the rate allows in a second, and keeps the time shown. |
| `WallClock.Clock.SetUnixMillis` | kernel/src/timer.rs:89-93 | Setting the clock is exact at that moment. |
| `WallClock.NeverBackwards` | kernel/src/timer.rs:18-42 | Over any run in which the 64-bit tick counter does not wrap and the clock is not set, it never goes back. |
| `WallClock.BackwardsIffWrap` | kernel/src/timer.rs:36-42 | A tick or a rate change turns the clock back exactly when the counter wraps while milliseconds have been counted that the clock shows. |
| `WallClock.WrapTurnsBack` | kernel/src/timer.rs:36-42 | An input: the tick that wraps the counter of a clock as it is at boot takes it back to its base. |
| `WallClock.LagsLessThanResets` | kernel/src/timer.rs:18-83 | Over any run with k rate changes and no clock set, the clock never leads the exact sum of ticks times tick length and lags it by less than k + 1 milliseconds, while nothing saturates. |

## Left out

- Device and firmware access: a device is an array of sectors or blocks; single reads and writes of sectors on it do not fail, and those off it do.
- The location of the exFAT bitmap and FAT on disk, and their copies: only their contents are modelled.
- Progress callbacks answer yes or no to each call; what they are told is not modelled.
- `recommended_copy_io_bytes`: the chunk size of the copy is any positive number of sectors.
- exFAT rename and move, FAT32 rename, move, delete and subdirectories, and the FAT32 copy wrappers around the copy loop.
- FAT long names and the making of short names: FAT32 names are given as 11 bytes.
- Byte counters and 64-bit overflow of file lengths beyond what memory can hold.
- Fat32Files.WriteFile: a failed write has no rollback in the code; the contract says why it failed and that other files are untouched, not how far the replaced file got.
- REL relocations (with implicit addends), symbol traces, thread-local storage layout, the dynamic section and the program-header address.
- ElfLinking.LinkTable: the memory a COPY reads is any function of address and image, and the bytes are those before the copy; the source asks that the two places do not overlap, which is not so for a program that defines the symbol itself.
- ElfSymbols.SymbolTable.Collect: making text of symbol bytes is any function, so `from_utf8_lossy` itself is not modelled.
- The seed bytes of the initial stack are any 16 bytes; the generator behind them is not modelled.
- The texts of stack errors: `InitialStack.Build` says only that it fails.
- Weak memory: accesses are interleaved one at a time; the stale read of `try_lock` is allowed.
- TicketLock.MutualExclusionAndOrder: tickets are unbounded; 32-bit wrap-around is not modelled.
- Interrupt flags saved and restored around the lock.
- Local queues are used by their owner only; the job counters and idle ticks of the cores are not modelled.
- Heap initialisation and the allocator behind the reservations; the heap size is fixed.
- Time zone offsets; a tick interrupt between the stores of a rate change.
- Paging, graphics, network, audio, shell, boot manager and host tools.
