# elinproxy, modelled and proved in Dafny

elinproxy is an HTTP cache. Its store, the `lsm` package, keeps items in memory and on disk. An index maps keys
to entries and expires them through one linked list per TTL. An append-only log writes long-lived items to files.
Reader counts and a retry queue keep an item out of the pools while someone reads it. On top of that, a handler
answers Range requests from the cache and lets equal requests share one call to the backend.

The project follows the program in two layers. Where the program changes things in place there are classes and
loops: entries and linked lists, the index, files, both kinds of item, the log's goroutine, the store, the Range
parser and the handler. Each of their methods is proved to take a step of a state machine over values, and what
the program is for is proved about that machine, over every run of it.

| files | program | what is proved |
|---|---|---|
| `TtlList`, `Kvsm` | list.go, entry.go, kvsm.go as objects | each method takes the step of `Index` |
| `Index`, `IndexInvariant`, `IndexLive` | the index as a state machine | ownership, bindings and the counter in every run |
| `IndexHistory`, `IndexLoss` | | the index against a plain map; what deleting by key loses, and exactly when |
| `IndexExpiry`, `IndexDrain` | | expiry order; how sweeps drain the lists, and which lists they never reach |
| `VFile`, `Items`, `VLog` | vfile.go, itemMem.go, itemDisk.go, vlog.go as objects | each method takes the step of `Log`; chunk loops write exactly the slice |
| `Log`, `LogSafety`, `LogFiles`, `DiskLoop` | the log over values | records read back for ever, whatever writes fail; when files change |
| `Lsm`, `LsmSafety`, `LsmTurns` | index, log and clock together | what every interleaving keeps; a turn of the log's loop is a run of these steps |
| `LsmTime`, `LsmTtls`, `LsmGaps` | | exactly when files outlive unexpired entries, and runs in which they do not |
| `LsmFresh`, `LsmOrder` | | hits are the latest version, and exactly when a stale one can come back; in what order the log hands over |
| `Refs`, `RefsSafety`, `Store` | lsm.go, item.go: counts and recycling | no reader loses its item; the store's methods take the steps of `Refs` |
| `RefsRetry` | | the retry queue: what gets into it, and that it comes out |
| `RefsQueue`, `RefsCareful` | | when the log loses an item it still has to write, and when it does not |
| `Ranges`, `RangeProofs`, `RangeGrammar`, `Respond` | parseRange, respondFromCache | round trip; exactly what is accepted; when an answer is one of RFC 7233 |
| `CacheKey`, `Coalesce` | the cache key, the BackendOnce part of ServeHTTP | injective keys; how often each request is answered |

## What holds only under a condition

Each of these has a run or an input that shows the failure, and a proof of when it does not happen.

- An overwritten key can be lost before it expires: reaping the older entry deletes by key (`OverwriteLosesKey`). From
  any state, the worker can take an unexpired key out, with its sweeps a second apart and no step of anyone else, if and
  only if an entry of the key is queued, the sweeps left before the key expires come as far as that entry, and it and
  all before it are gone in time (`LosesIff`). A sweep takes at most one entry of a list for each TTL in use that is
  truncated to the list's: if that is v, what is d places before the entry has to be gone d / v seconds before the key
  expires. None is lost when a key is only set while no entry of it is scheduled (`NothingLost`).
- A list whose TTL is not a whole number of seconds is never swept, because the sweep truncates its key
  (`DrainsIff`, `FractionUntouched`). A visit that stops can overlook an expired entry exactly when two TTLs in use
  are of no more than a second, negative ones aside (`OverlooksNothingIff`): those share a list.
- Removing the last list element leaves its predecessor pointing at it (`Remove`, `StaleTail`); `Replace` works
  exactly when no such stale link is in its way. The program itself removes heads only.
- A file is kept for its TTL and a quarter of it in whole seconds, but at most an hour, on top (`ClosesWhen`). So a file
  outlives every unexpired entry of a key that points into it if and only if no TTL the key is set with reaches as far
  as a file of another, or the same, of its TTLs is kept (`OpenIff`). With one TTL that is four seconds
  or more (`OneTtlIff`); under that it fails at the very instant of expiry (`OpenUntilExpiry`, `ClosedAtExpiry`).
- The log hands records over without a version check. A Set or Delete of a key can lead to a stale hit exactly
  when a version of the key is queued, anywhere, and the step changes what is the latest (`StaleIff`). After any run
  at all a stale hit can come exactly when there is one, or a log has a version that is not the latest (`GoesStaleIff`).
- A log that has an item to write does not count as its reader: the item loses its content exactly if some step drops
  it while nobody reads it (`LosesContentIff`), and is recycled as well exactly if it is not too large for a pool
  (`RecycledIff`). The hand-over of a key's first version does that to its second
  (`SetTwiceRecycles`). It does not happen, and items keep their content, in runs that set no key and reap no entry of
  it while a log has a version of it (`LoggedItemsStay`).
- Two writes of a record ignore their errors. A record reads back whole exactly if there was room for its new line, its
  body exactly if that was not cut after one byte (`TransformReadsBack`, `CutNewLineShiftsBody`), and the records
  after it start where they are counted exactly if neither write was cut in the middle (`TransformOutcome`).
- The chunk loop of an item on disk ends exactly if its file has what it is asked for, or at least reaches the mark past
  which it gives up: the end of the range or of the body, whichever is first (`EndsIff`).
- A range is answered as RFC 7233 allows exactly under the condition of `ConformsIff`. For one range: a-b with a no more
  than b + 1 and the length, a- with a no more than the length, and suffixes of at least the length.
- A request is answered twice exactly when its timer fires before its own call has started and the call finishes
  all the same (`AnsweredOnce`, `TimerBeforeStart`).
- A key belongs to one request alone exactly if its request line has a path only (`UniqueIff`): for an absolute URL the
  key has no scheme (`AbsoluteCollides`). Where paths may have question marks there must be no query either, and no
  question mark but the last (`FormedUniqueIff`, `QuestionMarkCollides`).

The code is followed against its own comments in two places: the comment on parseRange lists `bytes=-50` as a
suffix, which the code does not read as one, and the sweep's comment calls its check for a missing list a
protection against invalid TTLs, while every fractional TTL ends there.

## How things are modelled

- Each operation, each visit of the sweep to one list, each record, each hand-over and each timer is one atomic
  step, in any order. Time is a number of nanoseconds that only grows; operations that look at the clock get it
  as state or as a parameter. Only `IndexLoss` has the worker's timer: there a sweep over all lists is one step, and
  the next is at least a second later.
- A channel is its buffer followed by its blocked senders, served first in, first out.
- A pool may hand out anything put into it, or make something new. Values stored in the index are never nil.
- A device takes a given number of bytes (`Room`) and cuts a write short after that. Where a run assumes that the
  two ignored writes of a record are not cut in the middle, `IgnoredWhole` says so.
- In `Lsm` items are values, so one that a log has cannot change; in `Refs` and `Store` items are objects that are
  recycled, and `LoggedItemsStay` says in which runs that makes no difference.
- `Lsm` keeps the program counter of the log's goroutine: it takes an item and looks whether its file has expired, tries
  up to three times, hands the record over and looks at the file's size.
- The call group of the handler is that of golang.org/x/sync/singleflight: a key forgotten or finished starts a
  new call, and a finished call removes its key only if it was not forgotten.

## Model

| member | source | states |
|---|---|---|
| TtlList.LinkedListTTL.Add | lsm/kvsm/list.go:31-44 | appends e to the sequence the links spell out; a forward walk ends afterwards, whatever was stale before |
| TtlList.LinkedListTTL.Remove | lsm/kvsm/list.go:61-103 | takes out exactly e, head, last or interior; says when each end's outward link is clear and that a removed last element stays linked from its predecessor |
| TtlList.LinkedListTTL.Replace | lsm/kvsm/list.go:46-59 | puts n in o's place if and only if no stale outward link is in the way |
| TtlList.LinkedListTTL.Walk | lsm/kvsm/list.go:18-23 | following Next from nil visits exactly the elements, in order, and ends |
| TtlList.LinkedListTTL.WalkBack | lsm/kvsm/list.go:11-16 | following Prev from nil visits them in reverse and ends |
| TtlList.MoveToEnd | lsm/kvsm/list_test.go:122-159 | Remove and then Add moves any member to the end and keeps the order of the others |
| TtlList.StaleTail | lsm/kvsm/list.go:84-88 | after the last of two is removed a walk still comes to it |
| TtlList.Entry.SwapValue | lsm/kvsm/entry.go:48-51 | stores the new value and returns the one it replaces |
| Kvsm.KVSM.constructor | lsm/kvsm/kvsm.go:35-43 | an empty index without a callback that satisfies the invariant |
| Kvsm.KVSM.Len | lsm/kvsm/kvsm.go:49-51 | the channel's length plus the sum of the list sizes, and no less than the number of keys |
| Kvsm.KVSM.Set | lsm/kvsm/kvsm.go:53-64 | over shared, recycled entries: the Set step of the state machine on an entry the pool may hand out |
| Kvsm.KVSM.Get | lsm/kvsm/kvsm.go:66-78 | hits exactly for bound keys, with the value the state machine has and whether it has expired |
| Kvsm.KVSM.Swap | lsm/kvsm/kvsm.go:80-91 | a hit exchanges the value, keeps the expiry and evicts the old value; a miss is a Set |
| Kvsm.KVSM.RemoveByKey | lsm/kvsm/kvsm.go:99-111 | unbinds the key and leaves a tombstone where the entry is scheduled, with the counter as it was |
| Kvsm.KVSM.Remove | lsm/kvsm/kvsm.go:93-97 | deletes whatever the entry's key is bound to, counts down, evicts its value and recycles it |
| Kvsm.KVSM.Eviction | lsm/kvsm/kvsm.go:113-121 | calls back for a value but not for a tombstone, and recycles the entry blank |
| Kvsm.KVSM.Recycle | lsm/kvsm/entry.go:67-74 | clears every field, pools the entry and disturbs no list |
| Kvsm.KVSM.Receive | lsm/kvsm/kvsm.go:128-137 | appends the channel's first entry to its list, made if missing, by the step of the state machine, and leaves all other lists well linked |
| Kvsm.KVSM.VisitList | lsm/kvsm/kvsm.go:149-178 | the loop over one list takes its head or nothing, and ends |
| Kvsm.KVSM.SweepLists | lsm/kvsm/kvsm.go:138-181 | one firing of the timer is a sweep over all list keys, each once, in increasing order, truncated to seconds |
| IndexDrain.SortedKeys | lsm/kvsm/kvsm.go:141-145 | the keys of the list table, each once, in increasing order |
| IndexInvariant.StepKeeps | lsm/kvsm/kvsm.go:53-178 | every operation keeps every entry in exactly one of channel, one list and pool, every binding on a scheduled entry of its key with a value, and the counter right |
| IndexInvariant.Reachable | lsm/kvsm/kvsm.go:53-178 | so in every run, through overwrites, tombstones, reaping and recycling |
| IndexInvariant.BoundSize | lsm/kvsm/kvsm.go:49-64 | no more keys than scheduled entries, and no more of those than the counter says |
| IndexInvariant.ReapKeeps | lsm/kvsm/kvsm.go:93-97 | deletion by key keeps the invariant even when the key is bound to another entry |
| IndexInvariant.SweepKeeps | lsm/kvsm/kvsm.go:138-181 | a whole sweep keeps the invariant |
| IndexLive.LiveFrom | lsm/kvsm/kvsm.go:53-121 | an entry that holds a value after a step held the same before, or the step gave it, by a Set, a miss or an exchange that kept its expiry |
| IndexLive.LiveTo | lsm/kvsm/kvsm.go:80-121 | a value leaves its entry only by being handed to the callback or by removal of its key, and the callback gets nothing else |
| IndexHistory.StepGet | lsm/kvsm/kvsm.go:53-121 | one step changes what Get finds for k only by writing k or by unbinding it |
| IndexHistory.MapRefinement | lsm/kvsm/kvsm.go:53-121 | in every run Get misses or returns the value of the last Set or Swap that no RemoveByKey follows |
| IndexHistory.HitIff | lsm/kvsm/kvsm.go:53-121 | Get hits exactly when some write was not undone since by RemoveByKey or by reaping an entry of the key |
| IndexHistory.VisitLosesIff | lsm/kvsm/kvsm.go:93-97 | a visit loses an unexpired binding if and only if it reaps another entry of the same key |
| IndexHistory.OverwriteLosesKey | lsm/kvsm/kvsm.go:93-97 | a run in which an overwritten key is gone four seconds before it expires |
| IndexHistory.NothingLost | lsm/kvsm/kvsm.go:93-111 | none is lost in runs that set a key only while no entry of it is scheduled |
| IndexLoss.LosesIff | lsm/kvsm/kvsm.go:128-178 | from any state and for any instant at which the timer is due next: the worker and the clock alone can unbind an unexpired key before it expires if and only if, in a list that sweeps visit or its part of the channel, an entry of the key is reached by the sweeps there is still time for, a second apart, and it and all before it are gone by the sweep that has to take them |
| IndexExpiry.RunOrdered | lsm/kvsm/kvsm.go:53-64 | if no two TTLs in use share a list, negative ones aside, each list followed by its part of the channel is in expiry order, tombstones and expired entries aside |
| IndexExpiry.ReceivedInto | lsm/kvsm/kvsm.go:128-137 | a hand-off puts the entry behind all others of the list of one second, if its TTL is less than that, and of its own TTL if not, and moves nothing else |
| IndexExpiry.StopOverlooksNothing | lsm/kvsm/kvsm.go:158-178 | then, in every run, when a visit stops at a live head nothing behind it, in the list or the channel, has a value and has expired |
| IndexExpiry.SubSecondOverlooked | lsm/kvsm/kvsm.go:129-132 | for any two TTLs of no more than a second, the longer not negative: a run in which the entry of the shorter is overlooked behind the other |
| IndexExpiry.OverlooksNothingIff | lsm/kvsm/kvsm.go:128-178 | for any set of TTLs: no run with them overlooks anything if and only if no two of them are of no more than a second, negative ones aside |
| IndexDrain.Drain | lsm/kvsm/kvsm.go:138-181 | with everything due and whole-second TTLs each sweep takes one entry from every nonempty list; the counter is zero after as many sweeps as the longest list has entries and not before, and the map is empty then |
| IndexDrain.SweepInOrder | lsm/kvsm/kvsm.go:147-178 | a sweep visits its lists one after the other in the order it is given, each truncated to whole seconds |
| IndexDrain.DrainsIff | lsm/kvsm/kvsm.go:148-153 | sweeping ever empties a list if and only if its TTL is a whole number of seconds |
| IndexDrain.FractionUntouched | lsm/kvsm/kvsm.go:148-153 | no sweep in any state touches the list of a fractional TTL |
| VFiles.VFile.constructor | lsm/vfile.go:30-53 | a new file is empty and open, and expires its TTL and five seconds from now |
| VFiles.VFile.Write | lsm/vfile.go:63-72 | a write cut short is on disk but not counted; any write moves the expiry |
| VFiles.VFile.ReadAt | lsm/vfile.go:59-61 | the bytes at the offset, fewer than asked for only at the end of the file, none when the reader is closed or the offset negative |
| VFiles.VFile.AutoExpire | lsm/vfile.go:125-142 | the first call closes the writer and starts the timer; later ones do nothing |
| LsmTime.ClosesWhen | lsm/vfile.go:133-141 | a retired file may close exactly from its TTL and as many seconds after it was retired as the TTL has times four seconds, 3600 at most |
| VFiles.VFile.CloseBoth | lsm/vfile.go:115-121 | closes writer and reader and leaves everything else |
| LogSafety.WriteAllOutcome | lsm/vlog.go:121-130 | handing pieces to a file leaves the prefix that fits, and counts all of it exactly when it all fits |
| LogSafety.TransformOutcome | lsm/vlog.go:109-139 | a record is made exactly when header and body fit, with the sizes that were counted; the counted size of the file is the real one after it if and only if neither ignored write is cut in the middle |
| LogSafety.TransformReadsBack | lsm/vlog.go:109-139 | whatever room the ignored writes have, the extents stay in the file; the record reads back whole if and only if there is room for the new line, and its body if and only if that is not cut after one byte or the body is all carriage returns |
| LogSafety.CutNewLineShiftsBody | lsm/vlog.go:124 | a new line cut after one byte makes any body read one byte early, behind the carriage return |
| LogSafety.TryKeeps | lsm/vlog.go:87-99 | a try publishes its item exactly if it fits, whole exactly if its new line does; otherwise the file is given up and the next one is aligned |
| LogSafety.TriesKeep | lsm/vlog.go:87-99 | any number of tries publish the item once, exactly if one of them has room |
| LogSafety.PublishedIff | lsm/vlog.go:89-100 | for any room in three tries: a turn publishes the item, once, if and only if it fits in one of the three |
| LogSafety.ProcessKeeps | lsm/vlog.go:79-107 | one turn makes at most three records, publishes its item at most once, and starts the next turn with a file whose recorded size is its length |
| LogSafety.ReaderRun | lsm/vlog.go:79-107 | in every run, whatever header and body writes fail and whichever ignored writes do, so long as these are not cut in the middle: every published body reads back, records of a file do not overlap, and transforms are at most three an item |
| LogSafety.WholeRun | lsm/vlog.go:79-107 | with room for every new line besides, every published record reads back whole |
| LogSafety.RecordsStay | lsm/vlog.go:109-139 | what any prefix of a run published reads back, at the same place, after all of it |
| LogFiles.TurnFiles | lsm/vlog.go:83-106 | how many files a turn opens: one first if the current one has expired, one for each try that fails before one that has room, one more if the file is then larger than 1000 MB; its size and its expiry after that |
| LogFiles.LateIff | lsm/vfile.go:63-64 | in every run a turn changes its file first if and only if it comes more than the TTL and five seconds after the turn before |
| LogFiles.RecordBytes | lsm/vlog.go:121-137 | a record with room for all of it: header, CR LF, body and the end mark, byte for byte |
| VLogs.WriteRecord | lsm/vlog.go:109-139 | on objects: serialising an item in memory, spilled or not, is the record step on its file |
| VLogs.Reader.Rotate | lsm/vlog.go:83-84 | the change of files: the old one is retired, a new one opened, and all items on disk keep their files |
| VLogs.Reader.Try | lsm/vlog.go:87-99 | one try, with the item on disk it makes or the new file it opens |
| VLogs.Reader.Process | lsm/vlog.go:81-106 | a turn of the loop is the turn of the log: expiry, three tries, size; the item is handed out if and only if it fits in one of the three |
| VLogs.Reader.ProcessAll | lsm/vlog.go:79-107 | the loop over all that is queued is the run of the log's state machine |
| VLogs.SameBytes | lsm/itemMem.go:70-92 | an item on disk whose extents lead back to an item in memory has its body, key and status |
| VLogs.ToDisk | lsm/vlog.go:109-139 | the item on disk made from an item in memory has the same content, so both kinds answer Len, ValidRange, WriteTo and WriteToRange alike |
| VLogs.WrittenReadBack | lsm/vlog.go:95-97 | every item on disk that a reader handed out still has the body, key and status it was made from |
| Items.ItemMem.Write | lsm/itemMem.go:43-67 | appends to the content, across the move to a temporary file; if the file takes less, the content is what it has taken, and an error is reported exactly then |
| Items.ItemMem.WriteMany | lsm/itemMem.go:43-67 | a copy into the item, with any write and any file creation failing: without an error the content is everything, with one it is the part the file has taken |
| Items.ItemMem.Len | lsm/itemMem.go:194-204 | the length of the content, wherever it is |
| Items.ItemMem.GetBytes | lsm/itemMem.go:174-186 | the content, wherever it is |
| Items.ItemMem.WriteTo | lsm/itemMem.go:70-92 | the pieces it writes concatenate to the content |
| Items.ItemMem.ValidRange | lsm/itemMem.go:94-124 | the range both item kinds compute from the length of the content |
| Items.RangeOfIs | lsm/itemMem.go:94-124 | a range is refused exactly if it starts below zero, or is empty and not at the start; an empty one from the start on is the whole item; any other goes from its start to its last position, or the item's |
| Items.ItemMem.WriteToRange | lsm/itemMem.go:127-171 | exactly the slice, from memory or through the loop of 4 KB reads with its last chunk trimmed; past the content, the end of a spilled one or what is left in the buffer; an error exactly for empty, negative and later ranges |
| Items.ItemMem.Close | lsm/itemMem.go:207-214 | drops a temporary file and with it a spilled content |
| Items.ItemDisk.WriteOut | lsm/itemDisk.go:100-140 | for every range on which the chunk loop ends: where it stops, what it has written by then, also past the end of the body or the file, and exactly when it reports an error |
| Items.ItemDisk.InBody | lsm/itemDisk.go:100-140 | for a range of the body that is all of the range and no error, and the whole body for (0, 0) |
| Items.ItemDisk.WriteTo | lsm/itemDisk.go:95-98 | the whole body, or nothing when the file is closed |
| Items.ItemDisk.WriteToRange | lsm/itemDisk.go:175-181 | refuses inverted ranges; exactly the slice for a range of the body, except that (0, 0) asks for all of it; for any other range what the loop writes |
| Items.ItemDisk.ValidRange | lsm/itemDisk.go:142-172 | the same range as for an item in memory of the same content |
| Items.FlattenBuffers | lsm/itemMem.go:89 | copying buffer by buffer loses nothing |
| DiskLoop.TurnsAt | lsm/itemDisk.go:112-139 | the counters after any number of turns: a buffer a turn, and standing still at the end of the file |
| DiskLoop.EndsIff | lsm/itemDisk.go:100-140 | the chunk loop, over any range and the whole body, ends if and only if the file has what is asked for or at least reaches the mark past which it gives up |
| DiskLoop.PastTheMark | lsm/itemDisk.go:100-140 | asked for more than the mark, the loop stops at the end of the first 4096-byte chunk that reaches it |
| LsmSafety.ReaderStepKeeps | lsm/vlog.go:79-107 | every step of a log's goroutine keeps its published records, its unfinished one and its place in the loop, and closes only files that are due |
| LsmSafety.ThreeFailures | lsm/vlog.go:89-100 | a log keeps trying an item through two failures and gives it up at the third, having published nothing |
| LsmSafety.DisksStep | lsm/lsm.go:60-62 | after any step every item on disk in the index reads back, and was handed over before its file was retired |
| LsmSafety.RunInv | lsm/lsm.go:60-128 | so in every interleaving of Sets, Deletes, sweeps, logs, hand-overs and timers |
| LsmTurns.TurnIsSteps | lsm/vlog.go:81-106 | a turn of the log's loop, as the objects take it, is a run of the store's steps that leaves the reader waiting, with the log the turn makes and one item less |
| LsmTime.RunTimely | lsm/lsm.go:103-108 | with one whole-second TTL a key, no entry on disk expires later than its TTL after it was handed over |
| LsmTime.OpenUntilExpiry | lsm/vfile.go:125-142 | with one whole-second TTL a key, the file of every unexpired hit is open, except at the very instant of expiry for TTLs under four seconds |
| LsmTime.UnexpiredReads | lsm/lsm.go:110-124 | from four seconds on, an unexpired hit reads its own body |
| LsmTime.ClosedLate | lsm/vfile.go:133-141 | a file handed a record before it was retired is closed no earlier than that record expires |
| LsmTtls.OpenIff | lsm/vfile.go:125-142 | for any set of whole-second TTLs: in every run that sets a key with them, whatever other keys do, the file of every unexpired hit of the key is open, if and only if each of them that goes to disk, with its grace, is longer than all of them |
| LsmTtls.OneTtlIff | lsm/vfile.go:133-141 | with one TTL: if and only if it is four seconds or more, or never goes to disk |
| LsmGaps.ClosedEarly | lsm/vlog.go:83-106 | for any two TTLs that break that condition, a run of the loop's own steps, with one failing write, that ends with an unexpired hit whose file is closed |
| LsmGaps.ClosedAtExpiry | lsm/vfile.go:133-141 | for every whole TTL under four seconds, such a run that ends at the instant of expiry |
| LsmFresh.HitIsLatest | lsm/lsm.go:60-128 | if a key is not set or deleted while a version of it is queued, a hit of it, in memory or on disk, is the last item set and not deleted |
| LsmFresh.GoesStaleIff | lsm/lsm.go:60-128 | in every run, careful or not: with no further Set or Delete of the key there can be a stale hit of it if and only if there is one now or a log has a version of it that is not the latest |
| LsmFresh.StaleIff | lsm/lsm.go:60-62 | after such a run a Set or Delete of the key can lead, with no further one, to a hit that is not the latest if and only if a version is queued and the step changes the latest |
| LsmFresh.ServesLatestBody | lsm/lsm.go:103-124 | with fixed TTLs of four seconds or more besides, an unexpired hit serves exactly the body that was last set |
| LsmFresh.ComesOut | lsm/vlog.go:95-97 | from any state, an item anywhere in a log's queue or about to be handed over can become what a Get of its key finds, by steps of the log alone |
| LsmFresh.DeletedComesBack | lsm/lsm.go:126-128 | deleting a key of which a version is queued anywhere, whatever happened before, can lead to a hit of what was deleted |
| LsmFresh.OlderComesBack | lsm/lsm.go:60-62 | a newer, different version set while an older one is queued anywhere can give way to it |
| LsmOrder.FirstInFirstOut | lsm/vlog.go:61-79 | in every run, what a log still has to hand over is what was last sent to it, in the order in which it was sent |
| LsmOrder.LastVersionLast | lsm/vlog.go:95-97 | what a log hands over of a key when it has no other version of it is the last version sent to it, and what a Get finds then |
| LsmOrder.LogOf | lsm/vlog.go:61-72 | the log of a TTL is that of its seconds, truncated toward zero |
| LsmOrder.TtlOfLog | lsm/vlog.go:68-72 | in every run the TTL of a log is that of the first item that was sent to it |
| LsmOrder.HandedOverExpiry | lsm/kvsm/kvsm.go:80-91 | in every run, a key that is bound when a version of it is handed over expires when it did before; one that is not, with the TTL of the first item that was ever sent to the log |
| RefsSafety.StepInv | lsm/lsm.go:64-128 | every step keeps each item in at most one place and there once, the counts equal to the outstanding readers, and pooled items unread and empty |
| RefsSafety.EvictedLeaves | lsm/kvsm/kvsm.go:80-121 | what the index hands to the callback was in it and is in it no more |
| RefsSafety.EvictedLogged | lsm/kvsm/kvsm.go:84-88 | the callback gets exactly the value that an exchange or a reaped entry drops |
| RefsSafety.OnEvictKeeps | lsm/lsm.go:73-97 | eviction keeps all of it, whether it pools the item, queues it or finds the retry queue full |
| RefsSafety.ReaderKeepsItem | lsm/lsm.go:64-124 | no step but its own Done takes a reader's item away or changes its content |
| RefsSafety.NoReaderLosesItsItem | lsm/lsm.go:64-124 | from a Get to its Done, whatever comes between, the item is not pooled, not with a writer, is counted, and has the content it had |
| RefsSafety.PoolIsSafe | lsm/item.go:62-86 | in every reachable state an item is pooled at most once, and then unread, empty, and nowhere else |
| RefsRetry.RetryStep | lsm/lsm.go:64-97 | a step that drops an item with readers puts it at the end of the retry queue unless 1024 wait there, a round takes out the first, and nothing else changes the queue |
| RefsRetry.RetriedInTurn | lsm/lsm.go:64-71 | from any state, an item in the retry queue that nobody reads is reset, and pooled if it is not too large, by the round that its place in the queue says, whatever comes between |
| RefsQueue.PooledIff | lsm/lsm.go:64-97 | a step pools an item if and only if it drops it, from the index or the retry queue, while nobody reads it, and it is not too large |
| RefsQueue.RecycledIff | lsm/lsm.go:103-108 | in every run an item is in a pool while a log of its TTL still has it to write or hand over if and only if some step dropped it, unread and not too large, while a log had it |
| RefsQueue.LosesContentIff | lsm/item.go:62-86 | in every run, whether items are too large for a pool or not: while a log has an item that was sent to it with a content, that is not its content any more if and only if some step dropped it, unread, while the log had it |
| RefsQueue.SetTwiceRecycles | lsm/lsm.go:60-62 | a key set twice: the hand-over of its first version recycles the second, which the log has still to write |
| RefsCareful.NotDropped | lsm/lsm.go:60-97 | where no key is set and no entry of it reaped while a log has a version of it, no step drops an item that a log has after it, and the hand-over least of all |
| RefsCareful.LoggedItemsStay | lsm/lsm.go:103-108 | in every such run, what a log has is in no pool and with no writer, and a step that leaves it with the log leaves its content |
| Stores.LSM.constructor | lsm/lsm.go:33-52 | an empty store with the callback in place |
| Stores.LSM.NewItem | lsm/lsm.go:99-101 | a new item or one from a pool; either way empty, with no readers, and with its writer only |
| Stores.LSM.Set | lsm/lsm.go:103-108 | the Set step under the item's own key; the log gets the item exactly if its TTL is long enough |
| Stores.LSM.Get | lsm/lsm.go:110-124 | what the index has for the key, with one more reader and one more hit counted, and whether its entry has expired |
| Stores.LSM.Done | lsm/itemMem.go:33-35 | one reader less |
| Stores.LSM.AfterWrite | lsm/lsm.go:60-62 | the exchange in the index together with the eviction of what the entry held |
| Stores.LSM.OnEvictInternal | lsm/lsm.go:73-97 | an unused item is reset and goes to its pool, unless it has grown past 5 MB; one in use goes to the end of the retry channel, if fewer than 1024 wait there |
| Stores.LSM.PutItem | lsm/item.go:62-86 | resets every field of the item, and pools it unless it has grown past 5 MB |
| Stores.LSM.RetryEviction | lsm/lsm.go:64-71 | one round of the retry loop, returning how many readers the item still had |
| Stores.LSM.VisitList | lsm/kvsm/kvsm.go:158-178 | a visit of the sweep together with the eviction of the value it drops |
| Stores.LSM.Delete | lsm/lsm.go:126-128 | the removal by key, which evicts nothing |
| Ranges.ParseRange | httpsrv/handler/utils.go:96-143 | the nested loops compute the parser specified by recursion over parts and pieces |
| RangeProofs.RoundTrip | httpsrv/handler/utils.go:96-143 | parsing a printed header of any ranges that fit in 63 bits gives them back, `a-` as (a, size) and `-n` as (0, n) |
| RangeProofs.Refused | httpsrv/handler/utils.go:119-122 | one number that does not fit in 63 bits makes the parser refuse the whole header |
| RangeProofs.ParsedInRange | httpsrv/handler/utils.go:112-142 | for any header, what is accepted is not empty and has no negative number, so two of its branches are dead |
| RangeGrammar.ParseIff | httpsrv/handler/utils.go:96-143 | any header at all: the parser accepts exactly the texts that are bytes= and parts with commas between them, each blank or numbers with minus signs between them and white space around, and takes the first number of a part for its start and the last for its end |
| Responses.SendFromBoth | lsm/itemDisk.go:175-181 | items in memory and on disk of one content answer a range alike if and only if it is not empty |
| Responses.RespondFromCache | httpsrv/handler/handler.go:412-475 | the handler over either item kind, however it is stored, gives the same response: the whole body if there is no Range header, no body, or another status than 200; status 416 if the header is refused; the first range otherwise; it declines exactly if the headers of an item on disk cannot be read |
| Responses.ConformsIff | httpsrv/handler/handler.go:440-475 | for a 200 item of any body and any list of ranges: the answer is one that RFC 7233 allows (sections 2.1, 3.1, 4.1, 4.2, 4.4) if and only if a condition on the header and the length holds |
| Responses.OneRangeConforms | httpsrv/handler/handler.go:440-475 | for one range that is: a-b with a no more than b + 1 and the length, a- with a no more than the length, and suffixes of at least the length |
| Responses.PartialResponse | httpsrv/handler/handler.go:461-474 | for a-b with a inside the body: exactly those bytes, as many as Content-Length says, and the interval Content-Range names |
| CacheKey.KeyInjective | httpsrv/httplog/httplog.go:115-142 | GET and HEAD requests whose path has no question mark share a key if and only if they agree on device, method, host, path and query and on what the key has for a scheme |
| CacheKey.UniqueIff | httpsrv/httplog/httplog.go:115-142 | such a request is the only one with its key, scheme and connection included, if and only if its request line has a path only |
| CacheKey.AbsoluteCollides | httpsrv/httplog/httplog.go:115-127 | for an absolute URL every scheme and either kind of connection has the same key |
| CacheKey.FormedUniqueIff | httpsrv/httplog/httplog.go:115-142 | with any path, a request is the only one with its key if and only if it has a path only, no query, and no question mark before the path's last character |
| CacheKey.QuestionMarkCollides | httpsrv/httplog/httplog.go:127-130 | a path with a question mark has the key of a shorter path with a query |
| Coalesce.StepKeeps | httpsrv/handler/handler.go:195-259 | every step keeps the group in step with the calls, and every request's answers counted |
| Coalesce.AnsweredOnce | httpsrv/handler/handler.go:195-259 | in every interleaving a request that joined another's call is answered exactly once when it returns; a leader once when its call finishes, and once more if and only if its timer fired before its call started |
| Coalesce.EarlyIff | httpsrv/handler/handler.go:238-244 | a leader gives up with 502 exactly in the runs whose timer fires before its call starts |
| Coalesce.SharersAgree | httpsrv/handler/handler.go:199-206 | requests that share a call have one key and one leader |
| Coalesce.SharersAskTheSame | httpsrv/handler/handler.go:199-206 | plain requests that share a call agree on device, method, host, path and query, and are the same if their request lines have a path only |
| Coalesce.OneCallPerKey | httpsrv/handler/handler.go:246-248 | at most one unfinished call a key that was not forgotten |
| Coalesce.WaitingOnLeaves | httpsrv/handler/handler.go:246-248 | in every interleaving, once a leader waits on after its timer its call is forgotten or finished, so that the next request of the key has another |
| Coalesce.CanReturn | httpsrv/handler/handler.go:195-259 | from every reachable state every request can return, within three steps and without a timer |
| Coalesce.TimerBeforeStart | httpsrv/handler/handler.go:238-244 | a run that answers one request twice |

## Left out

- Finer interleavings: between looking an entry up and exchanging its value, or between finding an item and
  counting its reader, nothing else happens in the model.
- The race of two first Sets of one TTL in VLog.Set; a TTL's queue and goroutine appear in one step.
- What the log writes of an item that was recycled meanwhile: `RefsQueue` says when that happens.
- Finalizers of files, which close a file that nothing points to; and calcIndex, getItemLen's size classes and the
  byte pools, of which only what they return blank matters here.
- Stores.LSM.VisitList: a sweep at the level of the store is its visits one by one, not the loop over all lists.
- Stores.LSM.Get: what an item holds is a byte string there; that an item on disk has it in a file is in `Lsm`.
- Items.ItemMem.WriteToRange: a last position past the capacity of an item in memory, for which the slice of the source
  panics, is ruled out; up to the capacity it returns what is left in the buffer. ValidRange gives neither.
- Items.ItemDisk.WriteOut: ranges on which the loop does not end, or whose length is negative; the writer that gets the
  bytes does not fail, as for every response here.
- Responses.RespondFromCache: headers, Age, X-Expired, the error texts of a 416 and the notification of closed
  connections; whether the item has expired, which the handler does not ask; a file closed in the middle.
- Responses.ConformsIff: headers that are not a printed list of ranges; of what section 4.1 of RFC 7233 lets a server
  join into one part, ranges with a gap between them; and a 416 for too many small or overlapping ranges (section 4.4).
- LsmTtls.OpenIff: TTLs of the key itself that are fractional or not positive; other keys may have any.
- CacheKey.KeyInjective: the keys of the cache are 64-bit hashes of these strings, which are not injective.
- Coalesce.AnsweredOnce: an answer is a response written by the cache, by a backend call or as a 502, whichever it
  is; that every call ends, and the backend call itself, are not modelled.
- Overflow of times and sizes beyond 64 bits, and the rounding of TTLs to floating-point seconds below a nanosecond.
- ItemDisk.GetHeader, which depends on the text protocol library: a header block is an opaque byte string.
- The reverse proxy, header rewriting, rate limiting, cache rules, certificates, configuration, logging and metrics:
  library calls, input and output, or short filters.
