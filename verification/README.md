# A verified model of the radar daemon, its overlay and its release tools

The repository holds an iOS daemon that reads another process's memory and publishes a frame of records
through a shared file, an overlay that reads that file and drives a simulated touch, and two Python tools
that patch and package the binaries. This project models the algorithms in them that have a crisp
specification and proves that specification.

| files | what they model |
|---|---|
| `Wrappers`, `Bytes`, `Decimal` | result types, bytes and C strings, decimal numerals |
| `RemoteMemory` | whole-or-nothing remote reads and the chunked string reader |
| `ByteLayout`, `NameBytes`, `InstanceBytes`, `InitBytes`, `PathBytes`, `LevelNames` | the layouts of the target's memory byte by byte, and what names, searches, initialisation, paths and actor lists come to in those terms |
| `PatternScan` | the chunked masked-pattern scanner against a naive leftmost search |
| `NameCache`, `ObjectWalk`, `ReflectionInit`, `ObjectPath`, `Reflection` | name resolution with its two caches, the resumable object search with its batch and memo, initialisation and its scan for the metaclass, path names; `Reflection.Context` is the context struct, updated in place |
| `SampleMemory`, `ObjectSites`, `LongNameSites`, `FlagSites` | concrete memories: one with flagged objects, and those on which the search or the caches go wrong though `ue4r_init` makes a ready context of them, and the exact conditions they complete |
| `Seqlock`, `SeqlockReads`, `SeqlockWrap` | the shared-memory sequence lock as interleaved steps with crashes, when a read accepts and how often it tries, and the one run the lock cannot survive |
| `MetadataCache`, `TeamRule` | the player and item caches as bounded maps, and the rule about teammates built on them |
| `LevelScan`, `LevelKinds`, `LevelReader` | memoised classification and the chunked actor scan against an unmemoised filter, and what the memo does where class names do not resolve |
| `Gesture` | the simulated-touch state machine |
| `SchemaText`, `SchemaWriter`, `JsonGrammar`, `SchemaReading`, `SchemaRoundTrip` | the two schema writers, a JSON reader written from RFC 8259 sections 2 to 7, and the round trip |
| `SdkDump` | the write-temporary-then-rename publication of a dump |
| `ArArchive`, `MachOPatch` | the `ar` container builder with a reader, and the in-place load-command patcher |

Remote memory is a finite map from addresses to bytes, so an address outside it is unmapped. Code that works
in place is an imperative method over arrays and fields, proved against a function of the old state; the
theorems are lemmas about those functions and about runs of them.

## Assumptions

- Sequence lock: one writer process and one reader; each atomic access and each copied byte is one step, the
  steps are sequentially consistent, and either `memcpy` may move its bytes in any order.
- The target's memory does not change during the calls a lemma speaks of, and reads depend on nothing else.
- How opens, writes, flushes, renames, Mach port calls and the class walk come out are inputs: a file takes any
  set of the bytes offered to it, and a call with a byte it does not take fails.
- Doubles and floats are reals; the chosen target, its distance and the step vector are arbitrary inputs.
- In texts (JSON, `ar`, decimal numerals) one `char` stands for one byte. JSON strings have no UTF-8 validity
  imposed on them.
- Buffers are not null and a resolver context exists; the null checks at the head of functions are not shown.

## Where the code and its own documentation disagree

- `rm_read` returns `bool`, but `pat_scan` keeps the result as a byte count. Both readings are modelled, and
  `PatternScan.ExactlyWhenRight` says for every request when the answer is the promised one. As typed, a byte at
  any place but the first of a 4096-byte chunk is missed (`PatternScan.FlagMisses`).
- The comments in `pat_scan` say the overlap zone has no phantom matches on data never read. That holds for the
  first chunk of a row of readable chunks only. From the second on the whole zone is searched, and with more than
  4097 bytes of pattern it still begins with zeros, which are taken for bytes in front of the row. With byte counts
  the promise holds of all regions exactly for patterns of at most 4097 bytes and those whose first byte is
  neither zero nor masked (`PatternScan.ExactlySafePatterns`, which also covers patterns above 256 MiB).
- The header of `rm_validate_ptr` mentions an alignment check; there is none. The header of `rm_read_string`
  says it returns true if a byte was read; a one-byte buffer gets true without a read.
- A change of target is commented as a one-frame pause. The pause counter is set and decremented in the same
  tick, so the old stroke is lifted and the new one begun without a tick between
  (`Gesture.SwitchingDoesNotPause`).
- The "critical invariant" that teammates are never bots is re-established for fresh records only. A cached
  record made under another local team, or before the team was known, is copied as it is; the exact
  condition is `TeamRule.CleanExactlyWhileTheTeamStays`.
- Turning the object search to another name clears the memo's keys but not its answers. A match left in slot 0
  makes the next run deliver objects without a class, up to the first object asked about whose class belongs in
  slot 0. So that run is wrong exactly when the new name's class exists and, of the readable non-default objects
  whose class belongs in slot 0, one without a class comes first (`ObjectWalk.TurnedRunIsRight`). It does happen in
  a context that `ue4r_init` makes ready, on a memory of five objects with the metaclass at index 0, from the caches
  initialisation leaves (`ObjectSites.StaleMatch`).
- Cached names are cut to 59 bytes, so a longer name reads differently on a hit (`NameCache.AskedTwice`). For names
  of 59 to 63 bytes the first object search of a new context is misled on some ready sites, where the scan for the
  metaclass has stored the front of another class's name (`LongNameSites.ExactlyBelow59`). A name of 64 bytes or more
  restarts every call, because the stored copy is cut to 63, and with a metaclass at index 0 of 1000 entries the
  cursor never becomes -1 (`ObjectSites.RunsEndExactlyForShortNames`).
- A name entry cut off by unmapped memory resolves for a small buffer and not for a large one. Once the small
  lookup was made, the large one succeeds as well (`NameCache.CutOffEntryShows`, `LongNameSites.CutOffShows`).
  `NameCache.ExactlyTransparent` has all the cases in which caches can show.
- A class whose name does not resolve is judged by the first actor met and keeps that kind for all others. While no
  list is full, a first scan of fewer than 4096 actors sorts each by its own name exactly when the actors of each
  class agree (`LevelKinds.FirstScanDecides`).
- The header of `find_uclass_class` speaks of the first few hundred entries; the limit is 8192.
- The second attempt in `get_objects_info` repeats the reads of the first; the result is the same without it.
- `ue4j_write` ignores the stream's error flag, so its 0 vouches for the file only if no unchecked `fprintf`
  failed. The streaming writer checks the flag when it closes.

## Model

| member | source | states |
|---|---|---|
| RemoteMemory.Read | source/daemon/remote_memory.c:59-80 | a read delivers the whole range or nothing, and nothing for an empty range |
| RemoteMemory.ReachIsTheStop | source/daemon/remote_memory.c:158-192 | the chunked reads get to one place only: the end, or the start of the first 64-byte chunk with an unmapped byte |
| RemoteMemory.WholeStrings | source/daemon/remote_memory.c:134-140 | a string that fits and is mapped up to the end of its last chunk is delivered exactly |
| RemoteMemory.CopyUntilNul | source/daemon/remote_memory.c:178-186 | the scan of one chunk copies the bytes before its first NUL behind what was copied already, and the NUL |
| RemoteMemory.TakeChunk | source/daemon/remote_memory.c:158-187 | one turn of the loop keeps a NUL-free copy of the remote bytes, and ends it with a NUL at a remote NUL or an unreadable chunk |
| RemoteMemory.ReadString | source/daemon/remote_memory.c:141-192 | for every size, the buffer is NUL-terminated within it and holds the remote bytes up to the first NUL, the size, or the first unreadable chunk; failure exactly when nothing could be read, with an empty string left |
| PatternScan.FirstIn | source/daemon/pattern_scan.c:140-162 | the search window's lowest match, or none in it |
| PatternScan.PatScanFindsFirstHit | source/daemon/pattern_scan.c:52-170 | for every request, whatever the pattern's length and the reading of the read result, the answer is the address of the lowest match of what the buffer shows, zeros in front of a row of readable chunks included, or 0 |
| PatternScan.ExactlyWhenRight | source/daemon/pattern_scan.c:52-170 | for every request the promise holds if and only if the first occurrence is the first such match, or nothing occurs and nothing matches, with the two coincidences at address 0 spelled out |
| PatternScan.PatScanCorrect | source/daemon/pattern_scan.h:13-16 | with byte counts and patterns up to 4097 bytes, the answer is the lowest address at which the masked pattern lies wholly in readable chunks, across chunk borders and after skipped chunks, or 0 |
| PatternScan.AsTyped | source/daemon/pattern_scan.c:108-140 | with the result as typed and patterns up to 4097 bytes (longer ones: `ExactlyWhenRight`), the promise holds if and only if the first occurrence, if any, ends on the first byte of a chunk, or is at address 0 while no occurrence ends so |
| PatternScan.FlagMisses | source/daemon/pattern_scan.c:109-140 | as typed, a one-byte pattern at the second byte of a readable chunk is missed |
| PatternScan.LongPatternMissed | source/daemon/pattern_scan.c:102-105 | for every length above 4097 there is a request on which the promise fails |
| PatternScan.ExactlyUpToAPageAndAByte | source/daemon/pattern_scan.c:68-105 | the promise holds of all requests of a pattern length if and only if the length is at most 4097 |
| PatternScan.ExactlySafePatterns | source/daemon/pattern_scan.c:86-140 | with byte counts, the promise holds of all regions for a pattern if and only if it has at most 4097 bytes or a byte among its first ones (one byte, up to 256 MiB) is neither zero nor masked |
| PatternScan.MatchAtInPlace | source/daemon/pattern_scan.c:36-46 | the comparison loop decides a masked match at a buffer position |
| PatternScan.SearchWindow | source/daemon/pattern_scan.c:140-162 | the inclusive search loop returns the lowest match of the window |
| PatternScan.LoadChunk | source/daemon/pattern_scan.c:102-119 | the in-place shift, read and clearing leave the previous tail in front of the new chunk, or zeros when it is unreadable |
| PatternScan.TakeTurn | source/daemon/pattern_scan.c:95-166 | the loop body finds, continues or skips as its specification says, address arithmetic modulo 2^64 included |
| PatternScan.Scan | source/daemon/pattern_scan.c:52-170 | the method returns the specified address for every request, 0 for an empty pattern, and the promised address for every safe pattern |
| NameCache.FirstLookupIsUncached | source/daemon/ue4_reflection.c:679-681 | the uncached resolver is what a new context answers first, for any request |
| NameCache.SuffixLength | source/daemon/ue4_reflection.c:270-278 | an instance suffix has 2 to 11 characters, so it fits its buffer |
| NameBytes.BaseReads | source/daemon/ue4_reflection.c:161-258 | the name of an entry, byte by byte: narrow or wide text in the first of four tables of chunks that has the entry, or else a block entry |
| NameBytes.NameIs | source/daemon/ue4_reflection.c:132-282 | after any lookups into buffers of 60 bytes or more, a name of at most 59 bytes is that entry's text and, for an instance number, an underscore and the numeral of the number less one without a leading zero; a first lookup answers longer names so too |
| NameCache.StoredPart | source/daemon/ue4_reflection.c:246-267 | the 59 bytes a slot keeps are the same for all buffers large enough, and a larger buffer never resolves what a smaller one cannot |
| NameCache.WarmIsRight | source/daemon/ue4_reflection.c:168-195 | a cached chunk pointer gives the answer a fresh read of the table would |
| NameCache.LookupHonest | source/daemon/ue4_reflection.c:150-282 | every call, whatever it looks up, keeps both caches in agreement with memory |
| NameCache.ShortNamesAlike | source/daemon/ue4_reflection.c:234-258 | a resolved name of at most 59 bytes is the same for all buffers of at least 60 bytes |
| NameCache.LookupTransparent | source/daemon/ue4_reflection.c:150-159 | from any honest caches a name of at most 59 bytes is answered as without caches, suffix included; a failure too, unless a smaller buffer can read the entry |
| NameCache.CachesTransparent | source/daemon/ue4_reflection.c:132-282 | the same after any sequence of earlier lookups into buffers of at least 60 bytes, collisions and evictions included |
| NameCache.ExactlyTransparent | source/daemon/ue4_reflection.c:132-282 | no history of earlier lookups makes a lookup differ from an uncached one if and only if the name has at most 59 bytes, or the buffer at most 60, or the text past the stored part is the suffix's own; or the name does not resolve and a smaller buffer finds nothing either |
| NameCache.CutOffEntryShows | source/daemon/ue4_reflection.c:247-253 | an entry only a smaller buffer can read makes the lookup succeed after the smaller one, where it fails before |
| LongNameSites.CutOffShows | source/daemon/ue4_reflection.c:247-253 | a memory on which that happens with buffers of 60 and 256 bytes |
| NameCache.HonestForLarger | source/daemon/ue4_reflection.c:246-267 | caches filled for smaller buffers serve larger ones when no entry is cut off by unmapped memory |
| NameCache.ExactlyShortNames | source/daemon/ue4_reflection.c:262-280 | hit and miss agree on all names of a length if and only if it is at most 59 or the buffer at most 60 |
| NameCache.AskedTwice | source/daemon/ue4_reflection.c:150-159 | two lookups of an unnumbered name in a row agree if and only if the name has at most 59 bytes or the buffer at most 60 |
| NameCache.CandidateMatches | source/daemon/ue4_reflection.c:774-779 | for a wanted name below 59 bytes, comparing the cached text decides what comparing the uncached one would |
| NameCache.ExactlyTheseNames | source/daemon/ue4_reflection.c:774-779 | that holds for all stored names if and only if the wanted name is below 59 bytes or does not fit the buffer |
| ObjectWalk.Search | source/daemon/ue4_reflection.c:756-793 | the loop never exceeds its budget, and any turn it takes moves the cursor on or settles the class |
| ObjectWalk.BatchItem | source/daemon/ue4_reflection.c:757-769 | an item of the batched read is what a single read of that entry gives |
| ObjectWalk.RememberSound | source/daemon/ue4_reflection.c:779-787 | the ancestor memo answers as the 32-link super chain does for every key, but for the null class while slot 0 holds a match left by another name |
| ObjectWalk.VisitKeeps | source/daemon/ue4_reflection.c:763-790 | one turn hands out the next due object or none, and leaves exactly the rest due; the name's length and the caches matter only until the class is known |
| ObjectWalk.SearchKeeps | source/daemon/ue4_reflection.c:756-793 | the same of a whole call, for any budget |
| ObjectWalk.CallAdvances | source/daemon/ue4_reflection.c:747-794 | every call ends the run, turns to the name, finds the class or moves the cursor on: runs terminate |
| ObjectWalk.RunDelivers | source/daemon/ue4_reflection.c:747-794 | from any state with a sound memo, a run delivers what is due in that state; with the class known, for every name below 64 bytes and whatever the name caches hold |
| ObjectWalk.FindsExactlyTheInstances | source/daemon/ue4_reflection.c:747-794 | from a new context, the run delivers in index order and once per index exactly the readable, non-default objects whose super chain meets the first class object of the name within 32 links; none if there is no such class |
| InstanceBytes.ReachesIsDescends | source/daemon/ue4_reflection.c:781-785 | the walk of the super chain decides whether a chain of at most 32 pointers at 0x30 leads to the class |
| InstanceBytes.DeliversByBytes | source/daemon/ue4_reflection.c:747-794 | in bytes: the run delivers, in index order, the objects of exactly the indices that hold a mapped object descending from the first class of the name and with bit 4 of the byte at 8 clear, its other bits whatever they are |
| FlagSites.DefaultsAreSkipped | source/daemon/ue4_reflection.c:779 | on a ready site with an object of flags 0x10 and one of 0x20, the search hands out the second alone |
| InitBytes.TooManyObjects | source/daemon/ue4_reflection.c:751 | an array of more than 500000 objects is not searched, and the run ends |
| LongNameSites.ExactlyBelow59 | source/daemon/ue4_reflection.c:770-779 | of the names below 64 bytes, those the first search of a new context is exact for on all ready sites are the ones below 59 |
| ObjectWalk.RunTakesTwoPasses | source/daemon/ue4_reflection.c:756-793 | a call looks at no more than 512 entries, a run at no more than twice the array |
| ObjectWalk.UnfinishedCall | source/daemon/ue4_reflection.c:756-793 | a call that neither delivers nor reaches the end has looked at exactly 512 entries |
| ObjectWalk.TurnedRunIsRight | source/daemon/ue4_reflection.c:752-790 | turned to another name, a run delivers exactly that name's instances if and only if slot 0 held no match, or there is no such class, or the first object asked about whose class belongs in slot 0, if any, has a class |
| ObjectSites.StaleMatch | source/daemon/ue4_reflection.c:752-790 | on a concrete site that initialisation makes ready, from the caches it leaves: after the search for one name, the run for another delivers an object without a class where nothing is to be delivered |
| ObjectWalk.LongNamesStartOver | source/daemon/ue4_reflection.c:752-755 | with a name of 64 bytes or more, a call's outcome does not depend on the cursor it is given |
| ObjectSites.RunsEndExactlyForShortNames | source/daemon/ue4_reflection.c:747-794 | handing the cursor back until it is -1 comes to an end in a new context on every ready site if and only if the name has fewer than 64 bytes; for those it does from every state of the context |
| ReflectionInit.MetaclassIsFirst | source/daemon/ue4_reflection.c:631-661 | the scan settles on what the first of the first 8192 objects leads to that is named "Class" and is its own class or has one of that name, by uncached names, or on none; the caches it leaves agree with memory |
| ReflectionInit.ReadyMetaclass | source/daemon/ue4_reflection.c:725-745 | the metaclass of a ready context is an object named "Class" |
| InitBytes.PoolIs | source/daemon/ue4_reflection.c:703-720 | the chunk table is what (word - 100) / 3 steps from the second pointer of the pool, or the first, lead to; no context from a word of 151 on |
| InitBytes.ArrayIs | source/daemon/ue4_reflection.c:578-618 | in bytes, where the object array and its count are found |
| ObjectPath.CutsDoNotShow | source/daemon/ue4_reflection.c:312-356 | for buffers up to 512 bytes the nested 512-byte cuts yield the front of the uncut path, which joins at most 11 names on any memory |
| ObjectPath.LargerBuffersShowIt | source/daemon/ue4_reflection.c:335-347 | for a buffer above 512 bytes, which no caller passes, the result is the front of the uncut path if and only if the outer's path has at most 511 bytes or is followed by the very bytes that move up in its place |
| ObjectPath.NamesAreUncached | source/daemon/ue4_reflection.c:327-330 | with names of at most 59 bytes, the path is made of each object's uncached name |
| ObjectPath.EndlessChains | source/daemon/ue4_reflection.c:318-321 | an outer chain without end, a cycle for one, is cut off after exactly 11 names |
| PathBytes.PathIs | source/daemon/ue4_reflection.c:327-355 | along outer pointers at 0x20, the package's name behind one slash, then a dot and a name for every object inside it, cut to the buffer |
| PathBytes.NoPath | source/daemon/ue4_reflection.c:322-325 | what is no pointer has the path <null> |
| PathBytes.EndlessPath | source/daemon/ue4_reflection.c:318-321 | the path of an endless chain begins with three dots |
| Reflection.Start | source/daemon/ue4_reflection.c:663-737 | a context with the specified addresses, metaclass and caches, or none when the indirection count is out of range |
| Reflection.Context.FindUClassClass | source/daemon/ue4_reflection.c:631-661 | the loop returns the specified metaclass and leaves the specified caches |
| Reflection.Context.TryMetaclass | source/daemon/ue4_reflection.c:643-657 | one object of the scan, in place |
| Reflection.Context.constructor | source/daemon/ue4_reflection.c:669-681 | a new context has empty caches, an empty memo, no class and no metaclass |
| Reflection.Context.ResolveName | source/daemon/ue4_reflection.c:132-282 | the method leaves the specified text and the specified caches, in place |
| Reflection.Context.KnownTable | source/daemon/ue4_reflection.c:164-195 | the first strategy fills the chunk cache and answers through it as specified |
| Reflection.ReadEntry | source/daemon/ue4_reflection.c:176-192 | narrow and wide entries give the bytes before the first zero unit |
| Reflection.OtherTables | source/daemon/ue4_reflection.c:197-231 | the loop over the three other tables returns the first non-empty name |
| Reflection.Context.Derives | source/daemon/ue4_reflection.c:779-788 | the memo slot is recomputed exactly when its key differs |
| Reflection.SuperChain | source/daemon/ue4_reflection.c:782-785 | the walk of the super chain decides whether it meets the class within 32 links |
| Reflection.BatchedObject | source/daemon/ue4_reflection.c:764-768 | batch and fallback together give the object a single read of the entry gives |
| Reflection.GetObjectsInfo | source/daemon/ue4_reflection.c:578-618 | the four attempts in order and the default count give what the first, third and fourth give, so the second is redundant |
| Reflection.Context.VisitObject | source/daemon/ue4_reflection.c:763-790 | one turn of the loop on the context's arrays is the specified turn |
| Reflection.Context.Scan | source/daemon/ue4_reflection.c:756-791 | the loop with its batched read is the search that reads every entry singly |
| Reflection.Context.TurnTo | source/daemon/ue4_reflection.c:752-755 | the name is cut to 63 bytes, the class and the keys are cleared, the answers are not |
| Reflection.Context.FindInstance | source/daemon/ue4_reflection.c:747-794 | a call returns the specified object, cursor and state |
| Reflection.Context.BuildPathName | source/daemon/ue4_reflection.c:312-356 | the recursion over stack buffers returns the specified path and caches |
| Seqlock.InvStep | source/daemon/radar_reader.c:499-512 | every step of writer, reader, crash and restart keeps the invariant while the sequence does not go all the way round |
| Seqlock.NothingMoved | source/overlay/radar_overlay.m:1073-1080 | an unchanged even sequence means no publish moved in between, and the copy is the file |
| Seqlock.SnapshotsAreWhole | source/overlay/radar_overlay.m:1068-1093 | in every run, every accepted snapshot is, outside the sequence word, one frame a single publish finished writing, and successive snapshots never go back |
| Seqlock.SnapshotIsCurrent | source/overlay/radar_overlay.m:1068-1093 | a snapshot is the newest finished frame at the moment it is accepted |
| SeqlockReads.WholeReadDecides | source/overlay/radar_overlay.m:1068-1093 | a try that finds an even word and copies the file while nothing moves ends the call: it accepts what the file holds if and only if the header has the letters RADR, version 4 and at most 100 players |
| SeqlockReads.PublishThenRead | source/overlay/radar_overlay.m:1081-1090 | from an idle writer and a resting reader there is a run that publishes a frame and reads it, accepting it if and only if the word at byte 12 is at most 100 |
| SeqlockReads.ThreeTries | source/overlay/radar_overlay.m:1072-1080 | whatever the writer does, a try that meets an odd or moved word accepts nothing and is made again, three times in all and no more |
| SeqlockWrap.PublishOnce | source/daemon/radar_reader.c:499-512 | a publish without interruption leads to the new frame and a sequence larger by two |
| SeqlockWrap.TornAfterFullTurn | source/overlay/radar_overlay.m:1073-1080 | there is a run in which the 32-bit sequence goes all the way round during one read and a frame nobody published is accepted |
| MetadataCache.RunAgrees | source/daemon/radar_reader.c:66-151 | over any run of stores and resets exactly the first actors, up to the capacity, are held, each with what was stored last since the reset, name cut to 31 bytes |
| MetadataCache.NothingLost | source/daemon/radar_reader.c:99-107 | with no more actors than rows, a find returns the last store for every actor |
| MetadataCache.Cache.Find | source/daemon/radar_reader.c:79-86 | the linear search is a map lookup |
| MetadataCache.Cache.Store | source/daemon/radar_reader.c:88-108 | a store is a bounded map update in place, and the actors in use stay distinct |
| MetadataCache.Cache.Clear | source/daemon/radar_reader.c:558-565 | a reset leaves the empty map |
| TeamRule.Fresh | source/daemon/radar_reader.c:829-858 | a fresh record never shows a teammate as a bot |
| TeamRule.PublishedAs | source/daemon/radar_reader.c:823-860 | a character met first is published with its own team, 31 bytes of its name and its own bot flag unless a teammate; one with a cached record as that record |
| TeamRule.TeamsAre | source/daemon/radar_reader.c:755-765 | a frame's local team is the one read at that tick, else the last one |
| TeamRule.PublishClean | source/daemon/radar_reader.c:823-860 | a tick whose local team no cached record offends publishes no teammate as a bot and keeps it that way |
| TeamRule.CleanExactlyWhileTheTeamStays | source/daemon/radar_reader.c:743-765 | over the ticks since a reset, no world of actors at valid addresses, at most 100 records a tick, makes the daemon publish a teammate as a bot if and only if the frame's local team is the same in all of them |
| TeamRule.WitnessIsNotClean | source/daemon/radar_reader.c:823-828 | a bot of the later team seen on both sides of a change is published as a bot teammate |
| TeamRule.PublishPlayers | source/daemon/radar_reader.c:823-860 | the loop over the cache array publishes the specified records and leaves the specified cache |
| LevelScan.ClassifyIsKindOf | source/daemon/radar_reader.c:440-497 | with a class name that resolves, and stored parts of it and of the super class's name that tell the kind, memo and caches do not show in a classification and stay right |
| LevelScan.ShortNamesResolve | source/daemon/radar_reader.c:446-474 | names of at most 59 bytes always meet that condition |
| LevelNames.OwnKindReads | source/daemon/radar_reader.c:452-470 | what a class's own name says, by the words it contains and whatever their order: player, vehicle, item, ignored, or nothing |
| LevelNames.SuperKindReads | source/daemon/radar_reader.c:471-488 | the same of a super class's name, with its fewer words |
| LevelNames.PickUpWithUnderscore | source/daemon/radar_reader.c:458-468 | a name with "PickUp_" contains "PickUp" and is a vehicle's, not an item's |
| LevelNames.ListsByName | source/daemon/radar_reader.c:636-667 | in bytes and words: a first scan's lists hold, in array order and up to 512, 64 and 256, exactly the actors whose class name, or super class's name where that says nothing, belongs to the list |
| LevelNames.InItsListOnly | source/daemon/radar_reader.c:650-657 | an actor is in the list it belongs to, unless that is full, and in no other; any other actor is in none |
| LevelNames.LevelIs | source/daemon/radar_reader.c:613-627 | in bytes, the first of six places in the level with a plausible array of 5 to 8192 actors |
| LevelScan.ScanIsFilter | source/daemon/radar_reader.c:636-667 | the three lists are those of an unmemoised filter over the readable chunks, in array order, cut at 512, 64 and 256 |
| LevelScan.JudgedOnce | source/daemon/radar_reader.c:442-449 | a class judged once keeps its kind, even when it was judged by another actor's name |
| LevelKinds.JudgeIsActorKind | source/daemon/radar_reader.c:446-474 | from honest caches an actor is judged by its class's uncached name, or by its own where the class has none |
| LevelKinds.ScanIsListed | source/daemon/radar_reader.c:636-667 | resolved or not, the lists are those by the memo the scan ends with, cut at 512, 64 and 256; the memo holds for each class what an earlier scan or the first actor of it decided, and every class met unless it is full |
| LevelKinds.SameListsExactlyWhen | source/daemon/radar_reader.c:650-657 | two memos sort the actors into the same three lists if and only if they give each actor the same kind |
| LevelKinds.FirstActorDecides | source/daemon/radar_reader.c:636-667 | while no list is full, a scan's lists are those by each actor's own name if and only if every actor of a remembered class is of the kind decided for it |
| LevelKinds.FirstScanDecides | source/daemon/radar_reader.c:440-497 | of a first scan of fewer than 4096 actors: if and only if the actors of each class are of one kind |
| LevelScan.UnreadableChunk | source/daemon/radar_reader.c:641-643 | an unreadable chunk contributes nothing |
| LevelScan.ChunkItem | source/daemon/radar_reader.c:641-646 | an item of a chunk is what a single read of that entry gives |
| LevelReader.Radar.ClassifyClass | source/daemon/radar_reader.c:440-497 | the method returns the specified kind and leaves the specified memo and caches |
| LevelReader.Radar.Remembered | source/daemon/radar_reader.c:442-444 | the linear search returns the first memo entry for the class |
| LevelReader.Radar.ScanChunk | source/daemon/radar_reader.c:644-658 | the inner loop is the specified scan of its entries |
| LevelReader.Radar.ScanPersistentLevel | source/daemon/radar_reader.c:613-668 | the nested loops leave the specified lists, or touch none of them on failure |
| LevelReader.SearchOffsets | source/daemon/radar_reader.c:617-627 | the first candidate offset with a plausible array of at least five entries wins |
| Gesture.StepInv | source/overlay/radar_overlay.m:2700-2810 | every tick and release keeps: touching means a locked target, no pause and at most 19 frames |
| Gesture.MovesInBox | source/overlay/radar_overlay.m:2766-2781 | every Move lies in the box of the zone set at that tick, and clamping does not displace it |
| Gesture.ZonesAre | source/overlay/radar_overlay.m:2700-2705 | the box of each zone in numbers |
| Gesture.DownsAtBase | source/overlay/radar_overlay.m:2700-2701 | every Down is at the one base point of its zone, which lies in the zone's box |
| Gesture.UpsWhere | source/overlay/radar_overlay.m:2251-2277 | the finger is lifted where it is, at the base once aiming is off, at the button on release |
| Gesture.SwitchingDoesNotPause | source/overlay/radar_overlay.m:2707-2737 | a change of target lifts and touches down within one tick |
| Gesture.MovesExactlyWhile | source/overlay/radar_overlay.m:2741-2791 | a tick with a finger down sends one Move by the step if and only if the target is the locked one, off centre, fewer than 19 Moves were made and the next point is in the box; otherwise it lifts |
| Gesture.TouchesExactlyWhen | source/overlay/radar_overlay.m:2729-2764 | a tick with no finger down sends one Down at the zone's base if and only if there is a target that is new, off centre or awaited after a pause; otherwise nothing |
| Gesture.StrokeAddsUp | source/overlay/radar_overlay.m:2766-2781 | over any inputs that do not lift, each is a tick with one Move, the finger is displaced by the sum of the steps, and at most 19 Moves are made in all |
| Gesture.LegalInStep | source/overlay/radar_overlay.m:2700-2810 | what a step sends continues the strokes sent so far |
| Gesture.Lifecycle | source/overlay/radar_overlay.m:2251-2277 | over every run of ticks, setting changes and releases, the calls are strokes of a Down, at most 19 Moves and an Up, the last possibly open, which it is exactly while touching |
| Gesture.EveryMoveInItsBox | source/overlay/radar_overlay.m:2700-2705 | the Moves each input of a run adds lie in the box of its zone |
| Gesture.DownIsLifted | source/overlay/radar_overlay.m:2770-2776 | whatever follows, a Down is lifted within the next 20 ticks |
| Gesture.Finger.HidTouchEvent | source/overlay/radar_overlay.m:401-448 | the position is clamped, the touch flag set and the event sent |
| Gesture.Finger.TimerTick | source/overlay/radar_overlay.m:2620-2810 | the gesture part of a tick is the specified step |
| Gesture.Finger.SteerFinger | source/overlay/radar_overlay.m:2718-2791 | the branch with a target is the specified one |
| Gesture.Finger.AimReleased | source/overlay/radar_overlay.m:2251-2277 | a release lifts an open stroke and forgets the target |
| SchemaReading.StringReads | source/daemon/ue4_json.c:22-51 | every escaped string is read back by the RFC 8259 string grammar, whatever follows it |
| SchemaReading.NumberReads | source/daemon/ue4_json.c:70-72 | every printed integer is read back by the number grammar |
| SchemaReading.PropertyReads | source/daemon/ue4_json.c:57-76 | a property record is read back as its object |
| SchemaReading.FunctionReads | source/daemon/ue4_json.c:78-93 | a function record is read back as its object |
| SchemaRoundTrip.ClassReads | source/daemon/ue4_json.c:95-130 | a class record is read back as its object |
| SchemaRoundTrip.BatchParses | source/daemon/ue4_json.c:136-175 | the batch writer's text is a JSON text that denotes the schema |
| SchemaRoundTrip.StreamParses | source/daemon/ue4_json.c:188-248 | the streaming writer's text, with its commas on lines of their own, denotes the same value |
| SchemaRoundTrip.RoundTrip | source/daemon/ue4_json.c:22-249 | for every list of classes, reading either text gives back exactly that list |
| SchemaText.StreamClassesSnoc | source/daemon/ue4_json.c:220-233 | adding a class extends the streamed list by a comma, unless it is the first, and that class |
| SchemaWriter.WriteEscaped | source/daemon/ue4_json.c:22-51 | on success the quoted string was written, and every failure is on the stream's error flag |
| SchemaWriter.WriteProperty | source/daemon/ue4_json.c:57-76 | the same for a property |
| SchemaWriter.WriteFunction | source/daemon/ue4_json.c:78-93 | the same for a function |
| SchemaWriter.WriteClass | source/daemon/ue4_json.c:95-130 | the same for a class with its two lists |
| SchemaWriter.WriteHeader | source/daemon/ue4_json.c:149-153 | the three header lines |
| SchemaWriter.WriteSchema | source/daemon/ue4_json.c:136-175 | when 0 is returned the whole batch text was handed to the stream; 0 with the error flag clear if and only if the file takes all of it and the flush succeeds, and then it holds it |
| SchemaWriter.Writer.constructor | source/daemon/ue4_json.c:188-218 | a new writer has its header on the stream and no class |
| SchemaWriter.Writer.Add | source/daemon/ue4_json.c:220-233 | a class counts exactly when all of its text was handed to the stream |
| SchemaWriter.Writer.Close | source/daemon/ue4_json.c:235-248 | a count if and only if no write failed and flush and close succeed, and then the file holds the whole text of exactly the classes added; else -1 |
| SdkDump.StreamWalk | source/daemon/ue4_sdk.c:114-116 | the writer holds every class the iteration yielded, unless a byte of their text was not taken |
| SdkDump.WritePending | source/daemon/ue4_sdk.c:167-178 | the close returns the number of yielded classes if and only if all of their text is taken, flushed and closed, and then the temporary file holds it; else -1 |
| SdkDump.DumpClasses | source/daemon/ue4_sdk.c:167-189 | 0 if and only if open, text, flush, close and rename succeed and the count is positive and that of the classes yielded; the output changes then only, and the temporary file is gone if it can be removed |
| SdkDump.Generate | source/daemon/ue4_sdk.c:118-203 | for every outcome of every call: 0 if and only if all of them succeed and the count is positive and that of the classes yielded; exactly then the output is replaced, by a dump that reads back as what was yielded; the Mach port is given back exactly if it was acquired |
| ArArchive.Build | tools/package_release.py:107-111 | the loop builds the specified archive text |
| ArArchive.HeaderIs | tools/package_release.py:107-109 | the mark of an archive and the fields of a header in characters: name and slash, time, owner and group 0, mode 100644, size, end mark |
| ArArchive.EntryReads | tools/package_release.py:109-111 | a storable entry is read back, and the reader stands at the next header |
| ArArchive.EntryMisread | tools/package_release.py:109 | an entry with a longer name, a slash in it or an eleventh size digit is refused or read as another member |
| ArArchive.RoundTrip | tools/package_release.py:106-111 | reading the built archive gives back its members if and only if every name has at most 15 characters and no slash and every size is below 10^10 |
| ArArchive.HeadersAligned | tools/package_release.py:111 | every header of such an archive stands at an even offset |
| MachOPatch.Verdict | tools/build_local.py:29-30 | after the walk, the final check accepts exactly the files whose load commands tile the declared area with one large enough build-version command |
| MachOPatch.WalkedStep | tools/build_local.py:17-28 | one command further the walk still knows the unpatched rest, although it writes while it walks |
| MachOPatch.PatchIos | tools/build_local.py:11-31 | success exactly on those files; then only the twelve bytes of that command change, and a rejected file is not written |
| MachOPatch.PackInto | tools/build_local.py:26 | the three little-endian words are packed in place |
| MachOPatch.CommandsKept | tools/build_local.py:20-28 | the patch moves no command and changes no command number or size |
| MachOPatch.MagicBytes | tools/build_local.py:13 | the eight bytes an acceptable file begins with |
| MachOPatch.PatchedBytes | tools/build_local.py:25-26 | behind the bytes of command 0x32 and its size stand those of platform 2 and twice 13.0, and nothing else changes |
| MachOPatch.SamplePatched | tools/build_local.py:11-31 | a file of 56 bytes that is accepted, and what becomes of it |
| MachOPatch.PatchIsStable | tools/build_local.py:11-31 | the patched file has the same length and commands, is acceptable again, and patching it changes nothing |
| MachOPatch.PatchIsUnique | tools/build_local.py:29-30 | there is only one command the patch can concern |
| MachOPatch.PatchTwice | tools/build_local.py:11-31 | two runs of the patcher agree in their verdict, and the second writes what it read |

## Left out

- ObjectWalk.FindsExactlyTheInstances: names of 59 bytes or more are not covered, because the property is false of them; `LongNameSites.ExactlyBelow59` and `ObjectSites.RunsEndExactlyForShortNames` prove it.
- ObjectWalk.RunDelivers: while the class is still to be found, names of 59 bytes or more are not covered, for the same reason; the same holds of `VisitKeeps` and `SearchKeeps`.
- InstanceBytes.DeliversByBytes: names of 59 bytes or more are not covered, for that reason either.
- NameBytes.NameIs: speaks of entries whose text is mapped to the end of its last 64-byte chunk; cut-off and unreadable entries are left to `NameCache.Base`.
- LevelNames.ListsByName: speaks of a first scan of classes that have a name, of at most 59 bytes as their super classes'; others are in `LevelKinds`.
- LevelKinds.FirstActorDecides: asks that the stored 59 bytes of the names concerned tell the kind, and says nothing of full lists, whose cut can hide a misplaced actor.
- LevelScan.ScanIsFilter: classes whose name does not resolve, or whose kind shows only past the 59 stored bytes of a name, are not covered, because their kind then depends on the first actor met (`LevelKinds.FirstActorDecides`) or on what the name cache holds.
- SchemaWriter.WriteSchema: says nothing about the file when an unchecked write failed and 0 is still returned.
- TeamRule.CleanExactlyWhileTheTeamStays: speaks of the ticks since a cache reset; whether the caches are fresh after a world was lost and found again is not claimed.
- PatternScan.Scan: a failed or overflowing allocation of the buffer, on which the source returns 0, is not modelled.
- Addresses are unbounded: an address sum past 2^64 is unmapped, where the source would wrap to the unmapped first page. The scanner's result is reduced modulo 2^64.
- Weak memory and the C11 rules for data races; remapping by inode, descriptors and Mach ports.
- Target selection, steering, lead prediction, jitter, projection and skeleton arithmetic.
- Delivery of touch events by the accessibility server or IOKit.
- Item, weapon and vehicle name tables; player-name decoding and its fallbacks.
- `read_properties`, `read_functions` and the class iteration, which may settle the metaclass where initialisation did not.
- `pat_scan_segment`, `aslr_get_slide`, `config_runtime_address` and the search for the two global addresses, which are arbitrary here.
- The directory list of `tar_bytes`, the tar and gzip formats and the package index.
- Configuration parsing, logging, ownership changes and launch scripts.
