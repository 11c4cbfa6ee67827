# NewsCache: the persistent heap, its containers, and the loops above it

A Dafny model of the caching news server NewsCache, with proofs of what its data structures and
algorithms are for. `dafny verify dfyconfig.toml` checks all of it.

## The parts

**The container file.** `NVcontainer` is a first-fit allocator whose circular, address-ordered free
list lives in the memory-mapped file it manages. `FreeList.dfy` gives the allocator on values;
`NVcontainer.dfy` gives the class over one `array<int>` of 8-byte words, header fields, in-place
`{next, size}` headers and size words included, and proves that each method's writes take the words
from one allocator state to the next and change no word of another live block. Growth replaces the
array by a longer one with the same prefix: offsets stay valid.

**What is built on it.** `NVHash.dfy` (circular lists held by their tail, and the bucket table),
`HashIter.dfy` (both iterators), `ActiveDB.dfy` and `NVActiveDB.dfy` (the active database refines a
finite map from group name to record; a dump reads back), `NVArray.dfy` (the sliding-window table),
`Spool.dfy` and `NVNewsgroup.dfy` (the article store refines a window of entries and a directory of
spill files), with `GroupInfo.dfy`, `Readline.dfy`, `Bytes.dfy`, `Blocks.dfy` and `Wrappers.dfy` for
records, text and words.

**Several processes.** `LockProtocol.dfy` models the lock stack with an upgrade as two steps,
`HashOpen.dfy` the double-checked creation of the bucket table, `ActiveRefresh.dfy` the
double-checked download of the active database, `ArticleFetch.dfy` the unchecked download of an
article; each is a state machine over its steps, and the theorems are about all runs.

**Matching.** `MatchGroup.dfy` (one pass over a rule list is "first longest rule"),
`FilterAlgebra.dfy` and `NewsgroupFilter.dfy` (`&=` and `|=` are intersection and union),
`Wildmat.dfy` (the ABORT return loses no match and bounds the calls), `MPList.dfy` (the per-server
filters agree with the choice of server and partition the groups).

**Loops with strong specifications.** `MD5.dfy`, `Overview.dfy`, `CacheClean.dfy`, `Article.dfy`.

## How the model reads

An object that the source updates in place is a class with those fields; a ghost value (`view`, `t`,
`db`, `a`, `s`) names what its words mean, and each method is proved against a function of that
value. Theorems about those functions are lemmas. Text that reaches a container is a sequence of
bytes; text that is only matched is a string.

Where code and comments disagree the code is followed. These results say that the code falls short
of its intent and exactly when:

- `NVHash::open` re-checks for a table after taking the lock, but through a mapping made without a
  lock and refreshed only when the file size has changed; and the file gets its new size
  (NVHash.cc:69) before it gets the table's offset (NVHash.cc:72), and that before the number of
  buckets (NVHash.cc:74). For every table size two processes can create a table each
  (`HashOpen.CreatedTwice`); a run creates a second one exactly when the lock goes to a process that
  saw none through a mapping of the present size (`TablesCreated`). A process that finds a table gets
  a wrong number of buckets exactly when it looks before that number is stored (`LookIsRight`,
  `StaleBuckets`). If nobody maps the file between growth and the last of the three, all goes right if
  and only if the table outgrows the first page (`CreatedOnceIff`); opens that callers serialize are
  always right (`SerialOnce`).
- `getarticle` asks the server under the shared lock and `setarticle` does not look again, so any
  number of processes can fetch the same article (`ArticleFetch.AllAsk`); a second one does exactly
  when it looks before the first answer is stored (`ArticleFetch.AskedTwiceIff`).
- A spilled article reads back unchanged if and only if its text is in the normal form of
  `Readline.ReadsBack` (`Spool.LongTextLost` is not); articles that came from a news server always are.
- A group reads back from its line if and only if its name and flag hold no white space and the flag
  is not NUL (`GroupInfos.PrintParseIff`, `GroupInfos.SpacedName`).
- `Article::setfield` skips line ends as white space, so it replaces exactly the field if and only
  if the field's last line is not blank (`Articles.SetAt`, `Articles.BlankSwallowsNext`). What is set
  is what `getfield` gives unless the name is "bytes:" (`Articles.SetThenGet`,
  `Articles.BytesIsLength`).
- `Article::write` sends a part of the article as its body if and only if no bare newline ends the
  head (`Articles.BodyInText`, `Articles.BareNewlineBody`).
- `sUpdateOverview` keeps a withdrawn record if and only if a number it asks for lies at most seven
  below (`Overview.CNewsgroup.SUpdateOverview`, `Overview.WithdrawnStays`).
- A rule list judges a group by its rules if and only if the group has no comma
  (`MatchGroup.ScanIsVerdictIff`).
- The cleaner leaves no article without the database beside it if and only if no database of time 0
  lies beside an article of its window and none of time 1, beside which no article is listed, beside
  any article (`CacheClean.DbOutlivesArts`, `CacheClean.ZeroDbEvicted`, `CacheClean.OneDbEvicted`).
- `find_field` looks for the name it is given if and only if that has fewer than 512 characters
  (`Articles.CutIff`, `Articles.LongNameFound`).

Parameters stand for what the model cannot see: the clock, the news server's answers (`reply`), the
overview format (`fmt`), whether an unlink succeeds, and the MD5 transform.

## Model

| member | source | states |
|---|---|---|
| `FreeList.RunInv` | NVClasses-0.9.1/NVcontainer.cc:203-548 | In every state of every run of nvalloc, nvfree and resize, live and free blocks tile [hlen, size) exactly, the free list is strictly address-ordered with a gap between neighbours (so fully coalesced), its tail exists and ends at the file size, and the free bytes plus the live sizes are size - hlen |
| `FreeList.AllocInv` | NVClasses-0.9.1/NVcontainer.cc:251-380 | nvalloc keeps that invariant; its block is new, holds the request with its size word rounded up to 16 bytes, and every other live block stays live with its size |
| `FreeList.AllocPlace` | NVClasses-0.9.1/NVcontainer.cc:251-342 | nvalloc takes the first free block that the request fits into, else the last one; it wastes fewer than 32 bytes, and the file grows exactly when the last block has no room for the request and a header |
| `FreeList.FreeInv` | NVClasses-0.9.1/NVcontainer.cc:382-548 | nvfree keeps the invariant in all four cases of touching neighbours |
| `FreeList.GrowInv` | NVClasses-0.9.1/NVcontainer.cc:203-234 | resize past the end keeps the invariant, never shrinks the file and makes it less than a page of 8-byte words larger than asked for; a smaller size is ignored |
| `FreeList.Canonical` | NVClasses-0.9.1/NVcontainer.cc:464-515 | The free list is determined by the live blocks and the file size alone |
| `FreeList.RunsAgree` | NVClasses-0.9.1/NVcontainer.cc:307-341 | Two runs that end with the same live blocks and file size end with the same file layout, however they got there |
| `FreeList.FreeOrder` | NVClasses-0.9.1/NVcontainer.cc:382-548 | Freeing a set of blocks in any order gives the same list |
| `FreeList.AllFree` | NVClasses-0.9.1/NVcontainer.cc:464-515 | When everything is freed one block [hlen, size) is left |
| `FreeList.AllocThenFree` | NVClasses-0.9.1/NVcontainer.cc:251-548 | Freeing the block just allocated restores the free list, up to the growth of the file |
| `Container.NVcontainer.constructor` | NVClasses-0.9.1/NVcontainer.cc:640-698 | The layout written into an empty file is the invariant's initial state |
| `Container.NVcontainer.Resize` | NVClasses-0.9.1/NVcontainer.cc:203-234 | The mapping is replaced by a longer one; the words in place are those of the grown layout and no word of a live block differs |
| `Container.NVcontainer.Search` | NVClasses-0.9.1/NVcontainer.cc:263-275 | The loop over the in-place circular list stops at the first block large enough, else at the tail, with the block that links to it |
| `Container.NVcontainer.Nvalloc` | NVClasses-0.9.1/NVcontainer.cc:251-380 | The words afterwards represent exactly the allocator's next state, also when the file grows in mid-call; no word of another live block changes; the first word handed out still holds the size of the free block it came from |
| `Container.NVcontainer.Walk` | NVClasses-0.9.1/NVcontainer.cc:443-455 | The search loop of nvfree finds the neighbours of the freed block in the circular list |
| `Container.NVcontainer.Nvfree` | NVClasses-0.9.1/NVcontainer.cc:382-548 | The words afterwards represent exactly the state without the block; no word of a remaining live block changes |
| `Container.NVcontainer.Split` | NVClasses-0.9.1/NVcontainer.cc:318-341 | The words written when a block is split are those of the list with the remainder in its place |
| `Container.NVcontainer.Take` | NVClasses-0.9.1/NVcontainer.cc:305-342 | Unlinking or splitting the chosen block yields the next list, tail offset and free count |
| `Container.NVcontainer.JoinLeft` | NVClasses-0.9.1/NVcontainer.cc:464-484 | A block that touches the free block before it extends that one, and swallows the one after when it touches that too |
| `Container.NVcontainer.JoinRight` | NVClasses-0.9.1/NVcontainer.cc:485-515 | Otherwise it becomes a free block of its own, linked in before the next |
| `Container.NVcontainer.JoinNext` | NVClasses-0.9.1/NVcontainer.cc:485-507 | or takes over the next one, which may be the only or the last |
| `Container.NVcontainer.SetData` | NVClasses-0.9.1/NVcontainer.cc:246-249 | One header word changes, and the layout stands |
| `Container.NVcontainer.SetMtime` | NVClasses-0.9.1/NVcontainer.cc:739-746 | Without force the modification time never goes back |
| `LockProtocol.HeldIsStrongest` | NVClasses-0.9.1/NVcontainer.cc:550-601 | In every run of any number of processes taking blocking locks, with a release-acquire gap in every upgrade, a process outside nvflock holds an exclusive lock iff one of the requests it has made and not taken back is exclusive, else a shared one iff it has any, with a current mapping and window; the requests are read off the steps of the run |
| `LockProtocol.WantsAre` | NVClasses-0.9.1/NVcontainer.cc:557-583 | Every request is stacked, also for the mode already held, and every release takes one off: what is outstanding is what the steps say |
| `LockProtocol.AnyNesting` | NVClasses-0.9.1/NVcontainer.cc:569-583 | A process can nest shared and exclusive requests in any order up to the depth of the stack |
| `LockProtocol.RunInv` | NVClasses-0.9.1/NVcontainer.cc:70-84 | Every step keeps mutual exclusion and the per-process lock-stack invariant |
| `LockProtocol.NoUpgradeDeadlock` | NVClasses-0.9.1/NVcontainer.cc:70-84 | Because an upgrade drops the old lock first, what keeps a process waiting is exactly some other process that holds a conflicting lock, is not waiting and can go on |
| `LockProtocol.NoDeadlock` | NVClasses-0.9.1/NVcontainer.cc:70-84 | Every run can be continued by granted locks, remappings and releases alone until no process holds or waits for a lock |
| `LockProtocol.UpgradeGap` | NVClasses-0.9.1/NVcontainer.cc:70-84 | The gap is real: a run in which a reader that upgrades finds the file resized and its window moved |
| `LockProtocol.LockStack.Lock` | NVClasses-0.9.1/NVcontainer.cc:550-601 | The downward-growing stack of one process makes exactly the step of the state machine: an accepted request puts one entry on top of the old ones, a release takes exactly one off, overflow and underflow throw and change nothing; nvflock is called exactly when the OS lock has to change |
| `LockProtocol.LockStack.GetLock` | NVClasses-0.9.1/NVcontainer.cc:603-607 | The mode on top |
| `HashOpen.CreatedOnce` | NVClasses-0.9.1/NVHash.cc:10-26 | With a table larger than a new file, and no process mapping the file between another one's growth and its storing of the bucket count, at most one table is created over all interleavings; everyone who has opened the file has its offset, and the right bucket count unless its mapping is out of date, in which case the next lock brings both |
| `HashOpen.CreatedTwice` | NVClasses-0.9.1/NVHash.cc:62-87 | For every table size: a process that maps the file between the other's growth (line 69) and setdata (line 72) sees the new size and no table, finds its mapping current under the lock, and creates a second table; the first process goes on with the table that the file no longer refers to |
| `HashOpen.TablesCreated` | NVClasses-0.9.1/NVHash.cc:62-87 | For every table size and every interleaving: the number of tables created is one more than the number of times the lock went to a process that had seen no table through a mapping of the present size, so exactly such a lock makes a second table |
| `HashOpen.QuietTwice` | NVClasses-0.9.1/NVHash.cc:62-87 | With a table that fits the first page two processes create one each although neither maps the file in the gap: the file never changes its size |
| `HashOpen.SerialOnce` | NVClasses-0.9.1/NVHash.cc:62-87 | When no process starts to open the file while another is at it, one table is created, of any size, and all use it with the right bucket count |
| `HashOpen.LookIsRight` | NVClasses-0.9.1/NVHash.cc:17-25 | In every run, of any table size: a process that finds a table without the lock gets the right bucket count if and only if nobody is between setdata and the storing of that count |
| `HashOpen.StaleBuckets` | NVClasses-0.9.1/NVHash.cc:72-75 | For every table size: a process that maps the file after setdata (line 72) and looks before the count is stored (line 74) takes the size of the old free block for the number of buckets, and as its mapping is current does not look again |
| `HashOpen.ActiveStale` | NServer-0.9.1/NVActiveDB.h:24-30 | The active database's 15013 buckets are then taken for 131024 |
| `HashOpen.CreatedOnceIff` | NVClasses-0.9.1/NVHash.cc:62-87 | Over the runs in which no process maps the file between growth and the storing of the count, one table and the right count for all hold if and only if the table outgrows the first page |
| `HashOpen.ActiveTable` | NServer-0.9.1/NVActiveDB.h:24-30 | The active database's table of 15013 buckets can be created twice, but not when nobody maps the file in the gap; for the default of 97 buckets not even that helps |
| `ActiveRefresh.NoEarlyDownload` | NServer-0.9.1/NServer.cc:1200-1236 | Over any interleaving, forced invalidations included: once a download has stamped the database at t no process starts another before t + TTL, unless one invalidates it in between |
| `ActiveRefresh.Refreshes` | NServer-0.9.1/NServer.cc:1200-1236 | From the end of any run in which the database has expired, nobody is in the lock and a process is idle, that process alone gets it downloaded once, stamped with the present time, and leaves |
| `ActiveRefresh.LookDecides` | NServer-0.9.1/NServer.cc:1211-1217 | Either look at the database sends a process away if and only if the last refresh is less than a TTL ago |
| `ActiveRefresh.RecheckDecides` | NServer-0.9.1/NServer.cc:1216-1218 | After the look under the lock the next thing a process does is to start the download, if and only if the last refresh lay a TTL back |
| `ActiveRefresh.MtimeIs` | NVClasses-0.9.1/NVcontainer.cc:739-746 | In every state of every run the modification time is the latest stamp since the last invalidation, else 0 after one and the time at the start without one |
| `ActiveRefresh.OneDownload` | NServer-0.9.1/NServer.cc:1213-1220 | At most one process downloads at a time |
| `ActiveRefresh.RunInv` | NServer-0.9.1/NServer.cc:1200-1236 | Every step keeps: one process in the lock, an expiry seen under the lock still stands, no stamp since the last invalidation is later than the modification time |
| `HashTable.NVHash.constructor` | NVClasses-0.9.1/NVHash.cc:62-87 | Opening a new file leaves a table of empty buckets as the only live block |
| `HashTable.NVHash.Sadd` | NVClasses-0.9.1/NVlist.cc:11-26 | Prepends one record, in a new block, to one circular list held by its tail: all other records stay where they are, and of the words that were live only the root of that list and the link of its last record change, also when the file grows |
| `HashTable.NVHash.Sappend` | NVClasses-0.9.1/NVlist.cc:28-43 | The same at the end of the list, with the root moved to the new tail |
| `HashTable.NVHash.LinkFront` | NVClasses-0.9.1/NVlist.cc:19-25 | The links written for a record at the head |
| `HashTable.NVHash.LinkBack` | NVClasses-0.9.1/NVlist.cc:36-42 | The links written for a record at the tail |
| `HashTable.NVHash.CutHead` | NVClasses-0.9.1/NVlist.cc:47-54 | The one word written to unlink the head, the last record included |
| `HashTable.NVHash.Sremove` | NVClasses-0.9.1/NVlist.cc:45-56 | Unlinks the head and frees exactly its block |
| `HashTable.NVHash.SclearBucket` | NVClasses-0.9.1/NVlist.cc:58-62 | Removes records until the list is empty, and terminates |
| `HashTable.NVHash.Sclear` | NVClasses-0.9.1/NVHash.cc:28-33 | Afterwards every list is empty and the table is the only live block |
| `HashTable.NVHash.SisEmpty` | NVClasses-0.9.1/NVHash.cc:35-42 | True iff no bucket has a record |
| `HashTable.NVHash.Overwrite` | NServer-0.9.1/NVActiveDB.cc:55-66 | Overwriting a record in place changes that record's data and nothing else |
| `HashTable.NVHash.SetMtime` | NVClasses-0.9.1/NVcontainer.cc:739-746 | The modification time moves without touching the table |
| `HashTable.InsertRep` | NVClasses-0.9.1/NVlist.cc:11-43 | The few words written by sprepend and sappend turn the old structure into the one with the record inserted, front or back |
| `HashTable.CutRep` | NVClasses-0.9.1/NVlist.cc:45-56 | The one word written by sremove turns the structure into the one without the head |
| `HashIterators.FlatOnce` | NVClasses-0.9.1/NVHash.h:95-131 | The order the iterators follow lists every record exactly once |
| `HashIterators.NVHashIter.First` | NVClasses-0.9.1/NVHash.h:95-106 | Stands on the first record, skipping empty buckets |
| `HashIterators.NVHashIter.Next` | NVClasses-0.9.1/NVHash.h:110-131 | Moves to the next record in that order, and stays at the end |
| `HashIterators.Traverse` | NVClasses-0.9.1/NVHash.h:95-131 | first, valid and next visit every record once and then end |
| `HashIterators.TraverseActive` | NServer-0.9.1/NVActiveDB.h:143-219 | begin, end, next and the comparison visit every record once, in the same order, and then end |
| `HashIterators.NVActiveDB_Iter.constructor` | NServer-0.9.1/NVActiveDB.h:166-188 | begin stands on the first record, end past the last |
| `HashIterators.NVActiveDB_Iter.Next` | NServer-0.9.1/NVActiveDB.h:199-211 | Moves to the next record |
| `HashIterators.NVActiveDB_Iter.EqualIffSameCount` | NServer-0.9.1/NVActiveDB.h:213-219 | Two iterators are equal iff they have visited the same number of records |
| `GroupInfos.RawRoundTrip` | NServer-0.9.1/GroupInfo.h:38-52 | setraw of getraw gives the same record, name included |
| `GroupInfos.RawLayout` | NServer-0.9.1/GroupInfo.h:15-20 | The place of each field in the raw form, low-order bytes first |
| `GroupInfos.PrintParse` | NServer-0.9.1/GroupInfo.h:54-87 | The printed line parses to the same name, first, last and flag, with the count recomputed from the numbers and 0 for an empty group |
| `GroupInfos.PrintParseIff` | NServer-0.9.1/GroupInfo.h:54-87 | It does so if and only if the name has no tab, newline, vertical tab, form feed, carriage return or blank, and the flag is none of these and not NUL |
| `GroupInfos.ParseLine` | NServer-0.9.1/GroupInfo.h:54-87 | Any line: a name, two numbers, maybe with zeros in front, and the flag, if there is one, after as much white space as it likes, give those fields and the count |
| `GroupInfos.StrtolIs` | NServer-0.9.1/GroupInfo.h:67-68 | After white space and a sign any digits give the number they stand for, kept within 64 bits |
| `GroupInfos.SpacedName` | NServer-0.9.1/GroupInfo.h:54-87 | A group whose name holds a space: its line reads back, without an error, as another group |
| `GroupInfos.GroupInfo.Set` | NServer-0.9.1/GroupInfo.h:54-87 | The scanning parser computes the line's fields, with strtol's skipping, sign and saturation, or fails for a name too long or a missing number |
| `GroupInfos.ReadLong` | NServer-0.9.1/GroupInfo.h:67-68 | strtol: value and end position |
| `GroupInfos.GroupInfo.Setraw` | NServer-0.9.1/GroupInfo.h:38-45 | Refuses a buffer larger than the object and leaves the object alone; what getraw wrote for a group becomes that group again |
| `ActiveDB.HashRange` | NServer-0.9.1/NVActiveDB.cc:18-29 | The hash of any name is a bucket number, signed characters and unsigned wrap-around included |
| `ActiveDB.HashAppend` | NServer-0.9.1/NVActiveDB.cc:18-29 | From the end of the name: the hash starts at 1, and each two characters more multiply it by the first and add the second, as signed characters modulo 2^64 and then 15013 |
| `ActiveDB.HashOf` | NServer-0.9.1/NVActiveDB.cc:18-29 | The two-characters-a-step loop computes that hash |
| `ActiveDB.SsetKeeps` | NServer-0.9.1/NVActiveDB.cc:31-87 | sset drops and changes no other group, stores the group as it is but for the creation time, which a known one keeps and a new one gets from the clock, and adds a group only without update_only |
| `ActiveDB.StoredAdd` | NServer-0.9.1/NVActiveDB.cc:70-86 | Prepending a new group to its bucket stores the map with that group, each name still once |
| `ActiveDB.StoredUpdate` | NServer-0.9.1/NVActiveDB.cc:53-66 | Overwriting a group's record stores the updated map, in a record of the same size |
| `ActiveDB.FlatEnumerates` | NServer-0.9.1/NVActiveDB.cc:199-215 | The bucket order lists every group of the map exactly once |
| `ActiveDB.DumpLines` | NServer-0.9.1/NVActiveDB.cc:199-227 | A dump in either mode is the lines of the groups that are newer than the given time and picked, in order |
| `ActiveDB.TimesLine` | NServer-0.9.1/NVActiveDB.cc:218-219 | A line of the list of creation times: the name, the creation time as strtol reads it, and " news" |
| `ActiveDB.ReadLines` | NServer-0.9.1/NVActiveDB.cc:179-192 | read() stores printed lines one by one and goes on with whatever follows them |
| `ActiveDB.ReadRefused` | NServer-0.9.1/NVActiveDB.cc:179-192 | A line that set() refuses ends read(), and what was stored before it stays |
| `ActiveDB.ReadPrintable` | NServer-0.9.1/NVActiveDB.cc:167-197 | Whatever list read() gets, and wherever it stops, every name and flag it stores is free of white space |
| `ActiveDB.ReadDumpRead` | NServer-0.9.1/NVActiveDB.cc:167-227 | So a dump of a database filled by read() reads back with no condition on its names at all |
| `ActiveDB.DumpThenRead` | NServer-0.9.1/NVActiveDB.cc:167-227 | A dump of the groups that are newer than a time and picked, closed by a dot and followed by anything, is read into an empty database: it gives exactly those of them that the filter takes, with the same first and last number, the count, the flag or n when read-only, and times from the clock, and leaves in the stream what follows the dot (section 7.6.1 of draft-ietf-nntpext-base-22) |
| `NVActiveDBs.NVActiveDB.constructor` | NServer-0.9.1/NVActiveDB.h:60-62 | A new database holds no group |
| `NVActiveDBs.NVActiveDB.Find` | NServer-0.9.1/NVActiveDB.cc:105-125 | The walk over the circular list ends with the one record of that name, or with none if and only if the map has no such group |
| `NVActiveDBs.NVActiveDB.SetGroup` | NServer-0.9.1/NVActiveDB.cc:31-87 | Refines the map update: a known group is overwritten in place with its creation time kept and no block allocated, a new one is prepended |
| `NVActiveDBs.NVActiveDB.Get` | NServer-0.9.1/NVActiveDB.cc:98-131 | 0 and the group's record, or -1 and the argument untouched |
| `NVActiveDBs.NVActiveDB.HasGroup` | NServer-0.9.1/NVActiveDB.cc:133-165 | True iff the map has the group |
| `NVActiveDBs.NVActiveDB.Clear` | NVClasses-0.9.1/NVHash.cc:89-94 | The map is empty and only the bucket table is live |
| `NVActiveDBs.NVActiveDB.Read` | NServer-0.9.1/NVActiveDB.cc:167-197 | Storing the lines of a list is the fold of the map updates over its lines up to the dot or the first line set() refuses; the modification time moves forward to the end of a list that was read to its dot, and stays when a line was refused; what follows the dot stays in the stream |
| `NVActiveDBs.NVActiveDB.Write` | NServer-0.9.1/NVActiveDB.cc:199-227 | The text written is the chosen groups' lines in bucket order |
| `Readline.Nlreadline` | NServer-0.9.1/readline.cc:10-37 | One line without its trailing CRs and newlines, and the stream behind it |
| `Readline.Readtext` | NServer-0.9.1/readline.cc:39-62 | The text up to a lone dot, with the stream left behind the dot; a last line no newline ends is dropped. From a text in normal form, a dot line and anything else it returns that text and leaves the rest |
| `Readline.ReadsBack` | NServer-0.9.1/readline.cc:39-62 | A text written to a file reads back unchanged if and only if each line ends in exactly one CR before its newline and none is a lone dot |
| `Readline.ReadsToDot` | NServer-0.9.1/readline.cc:10-62 | From any lines that are no lone dot, each with any number of carriage returns, a dot line and anything else: the lines with one CRLF each, and the rest stays in the stream |
| `Readline.DotEnds` | NServer-0.9.1/readline.cc:46-59 | A text in normal form followed by a dot line comes back as it was sent, whatever follows |
| `Readline.ReadIsNormal` | NServer-0.9.1/readline.cc:39-62 | Whatever the stream held, the text read has that form |
| `NVArrays.NVArray.Sget` | NVClasses-0.9.1/NVArray.cc:83-92 | The record of a number in the window, or none |
| `NVArrays.NVArray.FreeSlot` | NServer-0.9.1/NVNewsgroup.cc:110-123 | Frees exactly that slot's block |
| `NVArrays.NVArray.PutSlot` | NServer-0.9.1/NVNewsgroup.cc:224-244 | A record in a new block that it fits into; no other record changes, also when the file grows |
| `NVArrays.NVArray.Rewrite` | NServer-0.9.1/NVNewsgroup.cc:247-270 | New data of the same size in place |
| `NVArrays.NVArray.Ssetsize` | NVClasses-0.9.1/NVArray.cc:147-177 | The new table holds the slots of the numbers in both windows, and the old table is freed |
| `NVArrays.NVArray.FillTable` | NVClasses-0.9.1/NVArray.cc:153-174 | Every word of the new table, for windows that overlap or not, and its offset in the file header |
| `NVArrays.ResizeRep` | NVClasses-0.9.1/NVArray.cc:147-177 | The copied table represents the moved window, disjoint windows included |
| `ArticleFetch.RunInv` | NServer-0.9.1/NVNewsgroup.cc:153-279 | In every state of every run nobody changes the newsgroup while another process reads it, and what a process found missing stays missing until it has the server's answer |
| `ArticleFetch.AskedTwiceIff` | NServer-0.9.1/NVNewsgroup.cc:163-214 | In every run in which the article is not taken away and the server has it: the server is asked twice if and only if a process looks for the article before the answer to another is stored |
| `ArticleFetch.AnswerStays` | NServer-0.9.1/NVNewsgroup.cc:203-217 | When all processes are done, an article that was asked for is there, although each of them gave up its lock before it stored it |
| `ArticleFetch.AllEnd` | NServer-0.9.1/NVNewsgroup.cc:163-217 | Every run can be continued by the processes that have begun until all are done |
| `ArticleFetch.AllAsk` | NServer-0.9.1/NVNewsgroup.cc:163-196 | For any number of processes a run in which each of them asks the server for the same article |
| `Spool.StoreThenRead` | NServer-0.9.1/NVNewsgroup.cc:203-279 | A stored article reads back: always up to 15360 bytes, above that if and only if the text has the normal form |
| `Spool.OverThenRead` | NServer-0.9.1/NVNewsgroup.cc:361-393 | An overview line is kept for a number of the window that has nothing yet, and only then |
| `Spool.StoreKeepsOver` | NServer-0.9.1/NVNewsgroup.cc:223-269 | The overview record of a stored article is made from its text, unless a long article finds one that is there already |
| `Spool.OthersStay` | NServer-0.9.1/NVNewsgroup.cc:153-393 | What is done with one number changes no other entry, file or bound, and outside the window it does nothing |
| `Spool.LongTextLost` | NServer-0.9.1/NVNewsgroup.cc:168-185 | A text of 15361 bytes without a newline is stored and reads back as nothing |
| `Spool.FetchThenRead` | NServer-0.9.1/NServer.cc:830-831 | Every article the news server sends reads back, whatever its length |
| `Spool.ReadStays` | NServer-0.9.1/NVNewsgroup.cc:153-393 | An article that can be read stays the same under every operation on other numbers, overview lines, repeated fetches and moves of the window that keep it |
| `Spool.StaysLocal` | NServer-0.9.1/NVNewsgroup.cc:153-393 | Once an article can be read it can be read after any operation but a move of the window past it and the removal of its file |
| `Spool.SizeKeeps` | NServer-0.9.1/NVNewsgroup.cc:90-151 | Moving the window keeps the entries of the numbers in both windows, leaves new ones empty, and removes exactly the files of dropped spilled articles |
| `Spool.FetchedOnce` | NServer-0.9.1/NVNewsgroup.cc:153-201 | In one process: over any run in which the window keeps its number and nobody removes its file, an article is fetched at most once, and never if it was there, whatever else is stored, setarticle on the same number included |
| `NVNewsgroups.NVNewsgroup.constructor` | NServer-0.9.1/NVNewsgroup.h:48-58 | A new database has an empty window |
| `NVNewsgroups.NVNewsgroup.LiveBlocks` | NServer-0.9.1/NVNewsgroup.cc:90-151 | At any time the live blocks are the table and one block for each occupied slot |
| `NVNewsgroups.NVNewsgroup.SetSize` | NServer-0.9.1/NVNewsgroup.cc:90-151 | Refines the move of the window: both freeing loops together drop exactly the records outside it, each once |
| `NVNewsgroups.NVNewsgroup.SetArticle` | NServer-0.9.1/NVNewsgroup.cc:203-279 | Refines the store's update: record, or file and overview record, with the old overview kept where the source keeps it |
| `NVNewsgroups.NVNewsgroup.SetSmall` | NServer-0.9.1/NVNewsgroup.cc:223-241 | Replaces whatever record the slot had by the article |
| `NVNewsgroups.NVNewsgroup.SetBig` | NServer-0.9.1/NVNewsgroup.cc:242-270 | The file and the overview record of a long article, the old overview kept where there is one |
| `NVNewsgroups.NVNewsgroup.DropSlot` | NServer-0.9.1/NVNewsgroup.cc:109-123 | One slot of the freeing loops: its block and, for a spilled article, its file |
| `NVNewsgroups.NVNewsgroup.GetArticle` | NServer-0.9.1/NVNewsgroup.cc:153-201 | Returns the article that is here, from record or file; otherwise asks the news server and stores its answer |
| `NVNewsgroups.NVNewsgroup.SetOver` | NServer-0.9.1/NVNewsgroup.cc:362-393 | Stores an overview line under its own number, and never over an occupied slot |
| `NVNewsgroups.AtoiIs` | NServer-0.9.1/NVNewsgroup.cc:368 | The number of an overview line is the one it starts with; a negative one becomes a number from 2^63 on |
| `NVNewsgroups.NVNewsgroup.GetOver` | NServer-0.9.1/NVNewsgroup.cc:319-360 | The overview line, made from the article when that is what is stored |
| `NVNewsgroups.NVNewsgroup.HasRecord` | NVClasses-0.9.1/NVArray.cc:76-81 | True iff the number has a record |
| `MatchGroup.VerdictIsFirstLongest` | NServer-0.9.1/util.cc:69-118 | The verdict is that of the first of the longest matching rules between the commas |
| `MatchGroup.OneRule` | NServer-0.9.1/util.cc:69-118 | For every group and a list of one rule: a name matches itself and any line that goes on with white space, a name with a star all that starts with it, each with one more than the number of characters, negative for a reject rule |
| `MatchGroup.ScanIsVerdictIff` | NServer-0.9.1/util.cc:69-118 | Every list judges a group by the rules between its commas if and only if the group has no comma; with one the scan runs from a rule into the next |
| `MatchGroup.Matchgroup` | NServer-0.9.1/util.cc:69-118 | The one pass over the pattern computes the verdict of the scan for any group, and so that of the rules between the commas when the group has none; for a single name it is its length and one more if the group is that name or a line that starts with it and goes on with a blank, tab, newline, carriage return, vertical tab or form feed, and else 0 |
| `FilterAlgebra.AndIsConjunction` | NServer-0.9.1/NewsgroupFilter.h:319-358 | The combined list accepts exactly the groups both filters accept |
| `FilterAlgebra.OrIsDisjunction` | NServer-0.9.1/NewsgroupFilter.h:270-309 | The combined list accepts exactly the groups either filter accepts |
| `FilterAlgebra.CombineDistinct` | NServer-0.9.1/NewsgroupFilter.h:270-358 | The result has distinct stems again, so the operators chain |
| `NewsgroupFilters.AddRuleToRulelist` | NServer-0.9.1/NewsgroupFilter.h:94-112 | Appends the rule unless an entry equals it |
| `NewsgroupFilters.RuleIterator.Next` | NServer-0.9.1/NewsgroupFilter.h:26-86 | Steps through the rules between the commas |
| `NewsgroupFilters.FilterMeaning` | NServer-0.9.1/NewsgroupFilter.h:203-260 | matches() on a filter's text is positive iff the longest rule accepts |
| `NewsgroupFilters.NewsgroupFilter.Matches` | NServer-0.9.1/NewsgroupFilter.h:203-260 | The verdict of the scan for any group, or what wildmat says of a group not rejected |
| `NewsgroupFilters.NewsgroupFilter.CopyLeft` | NServer-0.9.1/NewsgroupFilter.h:276-285 | The rules that the first loop copies are those the algebra keeps of this filter |
| `NewsgroupFilters.NewsgroupFilter.CopyRight` | NServer-0.9.1/NewsgroupFilter.h:287-300 | The second loop adds those it keeps of the other filter |
| `NewsgroupFilters.NewsgroupFilter.AndAssign` | NServer-0.9.1/NewsgroupFilter.h:319-358 | The new text accepts exactly the intersection, and is a filter of distinct stems unless empty |
| `NewsgroupFilters.NewsgroupFilter.OrAssign` | NServer-0.9.1/NewsgroupFilter.h:270-309 | The new text accepts exactly the union, and is a filter of distinct stems unless empty |
| `Wildmat.OneCharacter` | NServer-0.9.1/wildmat.c:61-97 | On text: an empty pattern, a star, a question mark, a backslash and an ordinary character in front of any pattern |
| `Wildmat.OneOf` | NServer-0.9.1/wildmat.c:98-117 | A class of single characters in front of any pattern, with a caret or without, a bracket that comes first included |
| `Wildmat.OneRange` | NServer-0.9.1/wildmat.c:105-112 | A range takes all characters between its ends, and its first one in any case |
| `Wildmat.DoMatch` | NServer-0.9.1/wildmat.c:61-121 | TRUE iff the text matches the pattern's declarative meaning; ABORT only if no suffix of the text does; FALSE only from a call that entered no star loop; at most one call per character and one more |
| `Wildmat.StarLoop` | NServer-0.9.1/wildmat.c:84-95 | The pruned loop over suffixes loses no match |
| `Wildmat.ScanClass` | NServer-0.9.1/wildmat.c:99-115 | The class scan decides membership, ranges and leading bracket or dash included |
| `Wildmat.Match` | NServer-0.9.1/wildmat.c:128-143 | Exact, with at most |text| + 1 calls of DoMatch whatever the number of stars |
| `ServerList.NoTie` | NServer-0.9.1/MPList.cc:33-39 | Entries that share no stem never tie on a group that one of them matches |
| `ServerList.FilterIsServer` | NServer-0.9.1/MPList.h:102-125 | The filter made for a server accepts a group iff that server is the unique best for it |
| `ServerList.FiltersPartition` | NServer-0.9.1/MPList.h:102-125 | The per-server filters partition the groups that any server matches |
| `ServerList.MPList.AppendNegated` | NServer-0.9.1/MPList.h:113-123 | Every rule of another entry is appended with an exclamation mark |
| `ServerList.MPList.MakeFilter` | NServer-0.9.1/MPList.h:102-125 | The loops build that filter's text |
| `ServerList.FilterAgreesWithServer` | NServer-0.9.1/MPList.h:102-125 | makeFilter agrees with server(): the filter for an entry accepts exactly the groups that server() reads from that entry |
| `ServerList.MPList.Server` | NServer-0.9.1/MPList.cc:27-43 | For any group the first entry with the best positive verdict, reject rules included; none if there is no such entry or that one stands for no server |
| `ServerList.MPList.Postserver` | NServer-0.9.1/MPList.cc:9-25 | The same over the lists of groups to post |
| `ServerList.ChosenOnce` | NServer-0.9.1/MPList.cc:9-43 | What server() and postserver() give is determined by the lists: no two results meet what is stated of them |
| `MD5.PaddedShape` | md5lib/md5.cc:112-146 | Padding of section 3.1 of RFC 1321: the message, the byte 128, and fewer than 64 zeros leave 8 bytes to a block |
| `MD5.PaddedCount` | md5lib/md5.cc:141-146 | Section 3.2: the last 8 bytes are the number of bits modulo 2^64, low-order byte first |
| `MD5.Carry` | md5lib/md5.cc:68-74 | The two 32-bit words hold the bit count modulo 2^64, carry included |
| `MD5.MD5Context.Update` | md5lib/md5.cc:63-104 | The context afterwards is that of the longer message, however it was cut |
| `MD5.MD5Context.Final` | md5lib/md5.cc:112-151 | The digest is the transform folded over the padded message |
| `MD5.DigestPieces` | md5lib/md5.cc:48-151 | Init, any Updates, Final: the digest of the concatenation |
| `Overview.OneClustering` | NServer-0.9.1/CNewsgroup.cc:79-97 | A set of numbers has only one clustering with gaps below 8 |
| `Overview.CNewsgroup.SUpdateOverview` | NServer-0.9.1/CNewsgroup.cc:61-115 | The requests are exactly the clusters of the wanted numbers; a withdrawn record is purged iff no wanted number lies at most seven below it; every other number is unchanged; the loop terminates |
| `Overview.PassedIff` | NServer-0.9.1/CNewsgroup.cc:86-101 | A number is passed over by a request iff a wanted number lies at most seven below it |
| `Overview.WithdrawnStays` | NServer-0.9.1/CNewsgroup.cc:83-113 | The server lists 1, the record of 3 is here: after the update of the window 1 to 3 both are here |
| `Overview.CNewsgroup.Batch` | NServer-0.9.1/CNewsgroup.cc:88-97 | One batch ends at its last wanted number, and goes on where no wanted one was skipped |
| `Overview.InWindow` | NServer-0.9.1/CNewsgroup.cc:86-97 | Every request lies in the window and starts and ends at a wanted number |
| `Overview.AllListed` | NServer-0.9.1/CNewsgroup.cc:80-98 | With a server that answers its ranges, every listed number ends with a record |
| `CacheClean.Cleaner.Clean` | src/NewsCacheClean.cc:204-307 | The walk collects one entry per database and spilled article with the times the source gives them, and their total size |
| `CacheClean.Cleaner.CleanArts` | src/NewsCacheClean.cc:290-305 | The loop over one directory collects the entries of its articles, which EveryArticle describes, and none beside a database of time 1 or none |
| `CacheClean.EveryDb` | src/NewsCacheClean.cc:219-224 | Every database of the tree is listed with the later of its access and modification times |
| `CacheClean.EveryArticle` | src/NewsCacheClean.cc:290-305 | Over the whole tree: every article beside a database of any time but 1 is listed, one of the window with a time that is at most its own last use and at most a second before that of its database, and equal to one of the two, and one outside the window with 0 |
| `CacheClean.EveryEntry` | src/NewsCacheClean.cc:204-307 | Nothing else is listed |
| `CacheClean.ListedOnce` | src/NewsCacheClean.cc:204-307 | The list has as many entries as there are files to list |
| `CacheClean.LessRecent` | src/NewsCacheClean.cc:292-294 | Of two articles of one newsgroup the one used less recently never has the later time |
| `CacheClean.Cleaner.Sort` | src/NewsCacheClean.cc:471 | A sorted permutation |
| `CacheClean.ArtsOlder` | src/NewsCacheClean.cc:223-228 | Over the whole tree an article is outdated or strictly older than the database beside it, and a database is outdated beside an article that is not only if some database of time 0 lies beside an article of its window |
| `CacheClean.EvictedLeast` | src/NewsCacheClean.cc:143-166 | All outdated articles on the list go, and then the shortest least-recently-used prefix that reaches the limit or empties the list |
| `CacheClean.DbOutlivesArts` | src/NewsCacheClean.cc:134-166 | For every tree: whatever the limit and the order of equal times, no article, on the list or not, is left without the database beside it, if and only if no directory has a database of time 0 beside an article that is not outside its window, and none has a database of time 1 beside any article |
| `CacheClean.Cleaner.RemoveElements` | src/NewsCacheClean.cc:143-202 | What is left, and _blocks, for any list, limit and outcome of the unlinks: _blocks counts what is left |
| `CacheClean.SurvivorsFit` | src/NewsCacheClean.cc:143-202 | Whatever the order and the times: an outdated file that can be unlinked goes, one that cannot stays, and what is left fits the limit or none of it can be unlinked |
| `CacheClean.SurvivorsSuffix` | src/NewsCacheClean.cc:143-202 | Of a sorted list that can all be unlinked exactly the evicted prefix goes |
| `CacheClean.ZeroDbEvicted` | src/NewsCacheClean.cc:220-227 | A database of time 0 is evicted while the article beside it stays |
| `CacheClean.OneDbEvicted` | src/NewsCacheClean.cc:220-227 | A database of time 1 is evicted while the article beside it, which the walk does not list, stays |
| `CacheClean.CleanSpool` | src/NewsCacheClean.cc:470-482 | Walk, sort and eviction together, for any tree of files |
| `Articles.Article.FindField` | NServer-0.9.1/Article.cc:137-203 | The position of the first line that starts with the name, of the empty line, or a malformed header, for every text, read up to its first NUL byte, and every name; of a name of 512 characters or more the first 511 are looked for |
| `Articles.CutIff` | NServer-0.9.1/Article.cc:145-160 | find_field looks for the name it is given, in every text, if and only if that has fewer than 512 characters |
| `Articles.ShortInText` | NServer-0.9.1/Article.cc:226 | What getfield and setfield require of a name holds in every text for names of fewer than 512 characters |
| `Articles.LongNameFound` | NServer-0.9.1/Article.cc:145-161 | A name of 512 letters and a colon is found in a line that only starts with 511 of them |
| `Articles.Article.Getfield` | NServer-0.9.1/Article.cc:205-275 | The length of the text for "bytes:" in any case of letters, else the unfolded content, or the error the source raises, found in the text up to its first NUL byte |
| `Articles.Article.Setfield` | NServer-0.9.1/Article.cc:277-324 | The text with the field replaced or added, for every text, also one that goes on behind a NUL byte |
| `Articles.Article.ToFieldEnd` | NServer-0.9.1/Article.cc:288-321 | The end of the field as the skipping of white space finds it; a NUL byte ends the first line of a field, and not a folded one |
| `Articles.Article.Write` | NServer-0.9.1/Article.cc:326-369 | Head, body, or the whole text, for every text: a NUL byte ends the head, and the body is all that follows; behind a bare newline the body that is sent keeps that newline and has one byte too many |
| `Articles.GetAt` | NServer-0.9.1/Article.cc:205-275 | On a well-formed article: its length for "bytes:", else the trimmed content of the first line with that name and of the lines folded onto it; the whole first line in front when the full field is asked for |
| `Articles.CaseBlind` | NServer-0.9.1/Article.cc:147-166 | In every text the case of the letters of a name makes no difference to getfield and setfield |
| `Articles.FoundSame` | NServer-0.9.1/Article.cc:161-170 | A field is found only where each character is the same letter as in the name |
| `Articles.Indented` | NServer-0.9.1/Article.cc:250-257 | A line is folded onto the one before it if and only if it starts with a blank or tab, and exactly the blanks and tabs at its start are left out |
| `Articles.BareFields` | NServer-0.9.1/Article.cc:188-321 | An article of bare newlines in which getfield gives two fields, one folded, misses a third, and setfield replaces the folded one |
| `Articles.CutOff` | NServer-0.9.1/Article.cc:175-273 | Articles that end within a line, behind a field, or have a lone CR: getfield and setfield report an invalid article |
| `Articles.SetAt` | NServer-0.9.1/Article.cc:277-324 | On a well-formed article setfield replaces exactly the field, or adds it last, if and only if there is none yet or its last line is not blank |
| `Articles.SetEndAt` | NServer-0.9.1/Article.cc:290-321 | With a blank last line it takes what follows the field as well |
| `Articles.BlankSwallowsNext` | NServer-0.9.1/Article.cc:290-297 | A three-line article in which setting a blank field removes the next one |
| `Articles.SetThenGet` | NServer-0.9.1/Article.cc:205-324 | setfield then getfield gives the value set, and every other field what it gave before, folded ones included, but for "bytes:": that name always gives the length of the article, so its answer stays iff the length does |
| `Articles.BytesIsLength` | NServer-0.9.1/Article.cc:210-218 | Setting "bytes:9" in an article of one line adds the line, and the field reads 16 |
| `Articles.HeadBody` | NServer-0.9.1/Article.cc:326-369 | Head, an empty line and body make up the text (section 3.4 of draft-ietf-nntpext-base-22) |
| `Articles.BodyInText` | NServer-0.9.1/Article.cc:359-366 | For every text the body that is sent is a part of the article if and only if no bare newline ends the head |
| `Articles.BareNewlineBody` | NServer-0.9.1/Article.cc:359-366 | The article a:1, empty line, b in bare newlines: the body sent is newline, b, NUL |

## Left out

- Signals, sockets, NNTP commands, logging, configuration and printing for people.
- I/O failures and corrupt files: `ftruncate`, `mmap`, `fcntl` and file writes succeed, and a file that is opened is one the library wrote. The checks of `make_current` on a bad header are not modelled.
- Requests near 2 GiB: sizes that the source holds in an `int` (`needsz` in `nvalloc`, `psz` in `nvfree`) are unbounded here.
- Non-blocking locks: `nvflock` has dropped the old lock before it reports that the new one is not to be had, so the held-lock theorem is about blocking mode. The variant with `flock` (`USE_FLOCK`) is not modelled.
- The debugging walks over the free list (`FREELIST_ASSERT_ON`) and `NVArray`'s assertion-mode `nvalloc` and `nvfree`.
- Locks inside the container operations: the classes model one process that has the lock; the interleavings are in the four state machines.
- A process that looks for a second table, which lies behind the first page, through a mapping of that page alone: the source reads behind its mapping, the model goes on.
- The bytes behind the end of the data in a record's last word: they are 0 here and arbitrary in the source.
- `NVArray::setsize`, `NVArray::sclear`, `NVArray::sset` and `NVArray::sdel`: the first frees one slot too many and leaves it in the table, the second leaves freed offsets behind, so no window invariant holds of them. `CNewsgroup::sUpdateGroupInfo` calls `clear` and is left out with them.
- `NVNewsgroups.NVNewsgroup.SetSize`: requires first <= last + 1, as `ssetsize` does by computing a table size from them.
- `NVActiveDB::add` inserts duplicates by design and is not part of the map refinement.
- `NVActiveDBs.NVActiveDB.Read`: requires lines with white space in them and a closing dot, since `set()` otherwise reads past the end of the line; one clock value serves both times taken for a line.
- `GroupInfos.GroupInfo.Set`: what name is left behind by a line that is refused, and for a missing number which bounds, is not specified; every other field keeps its value.
- Filters with empty rules, exact rules beside a wildcard rule of the same stem, or a wildmat set on an operand of `&=` and `|=`: `add_rule_to_rulelist` runs past both terminators on empty strings, and equal scores go to the first rule.
- The non-`"*"` branch of `makeFilter`, which does not reset its list pointer for each rule.
- Rule buffers and the 1024-byte limits of the filter code, and malformed classes in wildmat, for which `wildmat.c` itself promises nothing. Characters in wildmat ranges are compared as unsigned.
- `Articles.Article.Getfield`: requires that a name of 512 characters or more, which is found by its first 511, does not lead past the end of the text or its first NUL byte, behind which the source would read; the same holds of `Setfield`.
- `Articles.Article.Setfield`: a folded line with no line end behind it in the text makes the source scan past the text; here the scan stops at its end. Names and data are C strings: they hold no NUL byte.
- The spill file of an article that `sUpdateOverview` purges: the source builds another file name than the one it wrote, so the file stays. Only the record is modelled.
- Overview lines for numbers outside the range asked for: the server is assumed to answer its ranges.
- The names skipped by `clean` ("./.artSpool", "./.badArticles"): they are compared with a path that always ends in "/.db", so no directory is ever skipped. Statistics and removed directories are not modelled.
- `std::sort` is an insertion sort here; the theorems hold of every sorted order.
- The clearing of the MD5 context after use, and big-endian machines.
- `OverviewFmt`, message-id generation, base64 and the parser of the configuration file.
