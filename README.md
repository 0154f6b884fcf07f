# are-we-consistent-yet, modelled in Dafny

are-we-consistent-yet measures how consistent an object store is. It
writes through one blob-store handle and reads or lists through another, and
counts the iterations in which the read disagrees with the write. There are
five probes:

- read after create: a get right after a put finds nothing;
- read after delete: a get right after a remove still finds the blob;
- read after overwrite: a get after two puts returns the first payload;
- list after create: a listing right after a put lacks the name;
- list after delete: a listing right after a remove still holds the name.

The payloads come from a small byte-source utility that repeats one fill
byte forever.

The model has these modules:

- `Wrappers` and `JavaTypes`: `Option`/`Result`, and Java's `byte`, `int`
  and `long` as bounded newtypes.
- `Utils`: the infinite byte source, the stream it opens, and the three
  `read` overloads of that stream. Each overload is a method over an
  `array<int8>` where the source fills an array.
- `ObjectStore`: one container of a blob store as a class. It holds a map
  from names to contents, the order in which a listing walks the names, and
  the page size. It offers put, get, remove and paged listing with markers.
- `Counting`: the reference counts the probes are proved against. Each
  count is taken over the run's names and the read store's contents at the
  start of the run.
- `AreWeConsistentYet`: the probe engine as a `Runner` class, with a
  checked constructor, the five probe loops and `listAllBlobs`. Each probe
  is proved to return the reference count for its read store. When both
  handles reach the same store (the strongly consistent case), the create
  and delete probes count zero, and the overwrite probe counts zero for a
  non-empty object and every iteration for an empty one (both payloads
  are then empty and compare equal). A probe that completes leaves its
  write store as it started, minus the run's names; a read-after-overwrite
  run that fails on a missing blob leaves that name in the write store,
  holding the second payload.
- `Scenarios`: the unit tests' two set-ups over fresh containers, for any
  positive number of iterations, any page size and any object size (a
  positive one for the overwrite scenario). The strong set-up reads
  through the store it writes. The eventual set-up reads through a second
  store that never sees the writes.

## Model

| member | source | states |
|---|---|---|
| Utils.Fill | src/main/java/org/gaul/areweconsistentyet/Utils.java:67 | `Arrays.fill` on array contents: cells in [from, to) become the fill and all others keep their value; the length is unchanged |
| Utils.InfiniteByteSource.OpenStream | src/main/java/org/gaul/areweconsistentyet/Utils.java:30-44 | every stream the source opens repeats the source's fill byte |
| Utils.InfiniteByteSource.Slice | src/main/java/org/gaul/areweconsistentyet/AreWeConsistentYet.java:71-72 | `slice(0, length)` holds exactly `length` bytes, each the byte a fresh stream's `read()` yields |
| Utils.InfiniteByteSource.Read | src/main/java/org/gaul/areweconsistentyet/AreWeConsistentYet.java:121 | reading the sliced source through a stream into a new array yields exactly the slice |
| Utils.InfiniteByteStream.ReadAsWritten | src/main/java/org/gaul/areweconsistentyet/Utils.java:54-57 | `read()` as written returns the signed fill, which is -1 (end of stream) exactly when the fill is -1 |
| Utils.InfiniteByteStream.Read | src/main/java/org/gaul/areweconsistentyet/Utils.java:54-57 | `read()` as the `InputStream` contract requires: a value in [0, 255], never end of stream, that converts back to the fill |
| Utils.InfiniteByteStream.ReadRangeAsWritten | src/main/java/org/gaul/areweconsistentyet/Utils.java:64-69 | as written: off > len fails with IllegalArgument; off < 0 or len > length fails with IndexOutOfBounds and leaves the array untouched; otherwise cells [off, len) are filled and `len` is returned |
| Utils.InfiniteByteStream.ReadRange | src/main/java/org/gaul/areweconsistentyet/Utils.java:64-69 | corrected: bounds outside the array fail and leave it untouched; otherwise exactly cells [off, off + len) are filled and `len` is returned |
| Utils.InfiniteByteStream.ReadAll | src/main/java/org/gaul/areweconsistentyet/Utils.java:59-62 | `read(b)` fills every cell of `b` with the fill and reports `b.length` bytes |
| Utils.ReadRangeAsWrittenLosesBytes | src/main/java/org/gaul/areweconsistentyet/Utils.java:64-69 | with off = 1 and len = 1 on two cells, the written method reports one byte read but leaves cell 1 unfilled |
| Utils.ReadRangeFillsReportedBytes | src/main/java/org/gaul/areweconsistentyet/Utils.java:64-69 | on that same input, the corrected method fills the reported cell |
| Utils.ReadAsWrittenSignalsEndOfStream | src/main/java/org/gaul/areweconsistentyet/Utils.java:54-57 | a stream over fill -1 answers the written `read()` with the end-of-stream marker, where the corrected one answers 255 |
| Utils.ReadAsWrittenAgrees | src/main/java/org/gaul/areweconsistentyet/Utils.java:54-57 | for a non-negative fill, such as the payload fills 1 and 2, both `read()`s agree |
| Utils.SlicesDiffer | src/main/java/org/gaul/areweconsistentyet/AreWeConsistentYet.java:71-72 | slices of sources with different fills differ at every index, so they are equal only when empty |
| ObjectStore.Enlisted | src/main/java/org/gaul/areweconsistentyet/AreWeConsistentYet.java:79 | after a put, the listing order holds the old names plus the put name |
| ObjectStore.EnlistedTwice | src/main/java/org/gaul/areweconsistentyet/AreWeConsistentYet.java:116-117 | a second put of the same name leaves the listing order as the first left it |
| ObjectStore.FilteredElements | src/main/java/org/gaul/areweconsistentyet/AreWeConsistentYet.java:89 | after a remove, the listing order holds the old names minus the removed ones |
| ObjectStore.FilteredMembers | src/main/java/org/gaul/areweconsistentyet/AreWeConsistentYet.java:89 | a name survives removal exactly when it was listed and was not removed |
| ObjectStore.FilteredEnlisted | src/main/java/org/gaul/areweconsistentyet/AreWeConsistentYet.java:98-99 | a put followed by a remove of the same name leaves the listing order as the remove alone would |
| ObjectStore.FilteredTwice | src/main/java/org/gaul/areweconsistentyet/AreWeConsistentYet.java:89 | two successive removals equal one removal of both sets of names |
| ObjectStore.FilteredNone | src/main/java/org/gaul/areweconsistentyet/AreWeConsistentYet.java:89 | removing names that are not listed changes nothing |
| ObjectStore.Store.constructor | src/test/java/org/gaul/areweconsistentyet/AreWeConsistentYetTest.java:58-59 | a freshly created container is empty and has a positive page size |
| ObjectStore.Store.PutBlob | src/main/java/org/gaul/areweconsistentyet/AreWeConsistentYet.java:79 | a put creates or overwrites the blob under its name and enlists the name for listing; the store stays consistent |
| ObjectStore.Store.GetBlob | src/main/java/org/gaul/areweconsistentyet/AreWeConsistentYet.java:80-81 | a get returns the stored content, or `None` (the source's null) exactly when no blob has that name |
| ObjectStore.Store.RemoveBlob | src/main/java/org/gaul/areweconsistentyet/AreWeConsistentYet.java:89 | a remove deletes the blob and its listing entry; removing an absent name changes nothing |
| ObjectStore.Store.Start | src/main/java/org/gaul/areweconsistentyet/AreWeConsistentYet.java:171-182 | no marker starts the listing at the beginning; a marker the store handed out starts it where that marker points |
| ObjectStore.Store.List | src/main/java/org/gaul/areweconsistentyet/AreWeConsistentYet.java:173-178 | a page is the next at most page-size names from the marker on, with a next marker exactly when names remain; the next marker lies strictly further on |
| ObjectStore.Store.PagesFrom | src/main/java/org/gaul/areweconsistentyet/AreWeConsistentYet.java:172-183 | the chain of pages from a marker starts with the page at that marker |
| ObjectStore.Store.ListStep | src/main/java/org/gaul/areweconsistentyet/AreWeConsistentYet.java:175-182 | after one page's names are added, either the last page is done and every name is collected, or the names not yet collected are those from the next marker on |
| ObjectStore.Store.PagesFromNames | src/main/java/org/gaul/areweconsistentyet/AreWeConsistentYet.java:172-183 | the pages from a marker on hold exactly the names from that position on |
| ObjectStore.Store.ListingIsContents | src/main/java/org/gaul/areweconsistentyet/AreWeConsistentYet.java:169-185 | a complete listing names exactly the blobs the container holds |
| Counting.FirstAbsent | src/main/java/org/gaul/areweconsistentyet/AreWeConsistentYet.java:118-119 | the index of the first run name the read store lacks: every earlier name is present, and the name at that index is absent |
| Counting.MissingPlusPresent | src/main/java/org/gaul/areweconsistentyet/AreWeConsistentYet.java:81-82 | each iteration counts once, either as a missed create or as a missed delete |
| Counting.AllMissing | src/main/java/org/gaul/areweconsistentyet/AreWeConsistentYet.java:81-82 | every iteration is a missed create exactly when the read store holds none of the names |
| Counting.NoneMissing | src/main/java/org/gaul/areweconsistentyet/AreWeConsistentYet.java:81-82 | no iteration is a missed create exactly when the read store holds every name |
| Counting.NonePresent | src/main/java/org/gaul/areweconsistentyet/AreWeConsistentYet.java:101-102 | no iteration is a missed delete exactly when the read store holds none of the names |
| Counting.CountMissingIsIndices | src/main/java/org/gaul/areweconsistentyet/AreWeConsistentYet.java:77-82 | the missed-create count equals the number of iterations whose name the read store lacks |
| Counting.CountMissingDistinct | src/main/java/org/gaul/areweconsistentyet/AreWeConsistentYet.java:157-159 | with distinct names, as fresh random names are meant to be, the count is the number of run names the read store lacks |
| Counting.NoneStale | src/main/java/org/gaul/areweconsistentyet/AreWeConsistentYet.java:121-123 | when no name holds the first payload, no read counts as stale |
| Counting.AllStale | src/main/java/org/gaul/areweconsistentyet/AreWeConsistentYet.java:121-123 | when every name holds the first payload, every read counts as stale |
| AreWeConsistentYet.PutThenRemove | src/main/java/org/gaul/areweconsistentyet/AreWeConsistentYet.java:79-89 | a put followed by a remove of the same name leaves the blobs and the listing as the remove alone would |
| AreWeConsistentYet.Runner.constructor | src/main/java/org/gaul/areweconsistentyet/AreWeConsistentYet.java:60-73 | keeps both stores and the iteration count; each payload is `objectSize` copies of its fill, 1 and 2, so the two differ at every byte |
| AreWeConsistentYet.Runner.New | src/main/java/org/gaul/areweconsistentyet/AreWeConsistentYet.java:60-73 | a non-positive iteration count is rejected first, then a negative object size; otherwise a valid runner over the given stores whose payloads are `objectSize` copies of 1 and of 2, differing at every index |
| AreWeConsistentYet.Runner.ReadAfterCreate | src/main/java/org/gaul/areweconsistentyet/AreWeConsistentYet.java:75-92 | the count is the number of iterations whose name the read store lacked (zero when both handles reach one store); the write store ends without the run's names |
| AreWeConsistentYet.Runner.ReadAfterCreateRound | src/main/java/org/gaul/areweconsistentyet/AreWeConsistentYet.java:78-89 | one iteration's get misses exactly when the stores differ and the read store lacks the name; put and remove leave only the remove |
| AreWeConsistentYet.Runner.ReadAfterDelete | src/main/java/org/gaul/areweconsistentyet/AreWeConsistentYet.java:94-110 | the count is the number of iterations whose name the read store still held (zero when both handles reach one store); the write store ends without the run's names |
| AreWeConsistentYet.Runner.ReadAfterDeleteRound | src/main/java/org/gaul/areweconsistentyet/AreWeConsistentYet.java:97-107 | one iteration's get finds a blob exactly when the stores differ and the read store holds the name |
| AreWeConsistentYet.Runner.ReadAfterOverwrite | src/main/java/org/gaul/areweconsistentyet/AreWeConsistentYet.java:112-129 | fails exactly when a name is absent from a separate read store, naming the first such name and leaving it written with the second payload; otherwise it counts the names that read back the first payload (none for one store with a non-empty payload) |
| AreWeConsistentYet.Runner.ReadAfterOverwriteRound | src/main/java/org/gaul/areweconsistentyet/AreWeConsistentYet.java:115-126 | after two puts, the get fails on a null blob exactly when a separate read store lacks the name; otherwise it reports whether the content equals the first payload, and the name is removed |
| AreWeConsistentYet.Runner.ListAfterCreate | src/main/java/org/gaul/areweconsistentyet/AreWeConsistentYet.java:131-142 | the count is the number of iterations whose name a listing of the read store lacked (zero for one store) |
| AreWeConsistentYet.Runner.ListAfterCreateRound | src/main/java/org/gaul/areweconsistentyet/AreWeConsistentYet.java:134-139 | the listing after the put lacks the name exactly when the stores differ and the read store lacks it |
| AreWeConsistentYet.Runner.ListAfterDelete | src/main/java/org/gaul/areweconsistentyet/AreWeConsistentYet.java:144-155 | the count is the number of iterations whose name a listing of the read store still held (zero for one store) |
| AreWeConsistentYet.Runner.ListAfterDeleteRound | src/main/java/org/gaul/areweconsistentyet/AreWeConsistentYet.java:147-152 | the listing after the remove holds the name exactly when the stores differ and the read store holds it |
| AreWeConsistentYet.Runner.ListAllBlobs | src/main/java/org/gaul/areweconsistentyet/AreWeConsistentYet.java:169-185 | following next markers from no marker until a page has none collects the names of the whole listing, which are exactly the read store's blobs |
| Scenarios.TestReadAfterCreate | src/test/java/org/gaul/areweconsistentyet/AreWeConsistentYetTest.java:75-79 | over fresh containers, strong counts 0 and eventual counts every iteration |
| Scenarios.TestReadAfterDelete | src/test/java/org/gaul/areweconsistentyet/AreWeConsistentYetTest.java:84-86 | strong counts 0; eventual counts 0 as well, not the iteration count the ignored test expects |
| Scenarios.TestReadAfterOverwrite | src/test/java/org/gaul/areweconsistentyet/AreWeConsistentYetTest.java:90-92 | strong counts 0; eventual fails on a null blob at the first name |
| Scenarios.TestListAfterCreate | src/test/java/org/gaul/areweconsistentyet/AreWeConsistentYetTest.java:96-98 | strong counts 0 and eventual counts every iteration |
| Scenarios.TestListAfterDelete | src/test/java/org/gaul/areweconsistentyet/AreWeConsistentYetTest.java:104-106 | strong counts 0; eventual counts 0 as well, not the iteration count the ignored test expects |

## Left out

- The command-line front end (`main`, option parsing, building the jclouds contexts, creating and deleting the container) is not modelled. It only calls the probes and prints their counts.
- The container name is not modelled: each `Store` stands for the one container that the probes address.
- `makeBlobName` draws a random suffix. The probes take the run's names as a parameter instead, one per iteration, so the contracts hold for any names, repeated ones included.
- `makeBlob` builds a blob from a payload and its length. The model stores the payload's bytes directly.
- Draining a fetched blob's payload into a null output stream has no observable effect, so the create and delete probes skip it.
- `IOException`s from the store, `synchronized`, and the `checkNotNull` checks on the stores and the container name are not modelled. Dafny references are never null.
- Listing markers are positions in the store's listing order, not blob names. The listing order is whatever order the container keeps, not necessarily sorted.
- The eventually consistent store is modelled as a second store that never sees the writes. Replication delays and a store that converges later are not modelled.
- Utils.InfiniteByteSource.Read: requires the length to fit in a Java `int`. An `objectSize` beyond that cannot be read into one array, and the failure Java reports then is not modelled.
- AreWeConsistentYet.Runner.ReadAfterOverwriteRound: compares the read content with the constant `payload1` rather than re-reading `payload1.read()` each iteration; Utils.InfiniteByteSource.Read shows that reading the slice yields exactly those bytes.
- Utils.InfiniteByteStream.ReadAll: is specified with the corrected `ReadRange`. For off = 0, which is what `read(b)` passes, it fills the same cells as the code as written.
- Scenarios.TestReadAfterOverwrite: does not state the eventual count the test at line 92 expects (the iteration count). In the model, the eventual read store has no blob under the name, and the probe fails where the source dereferences the null `getBlob` result.
- Scenarios.TestReadAfterDelete and Scenarios.TestListAfterDelete: state an eventual count of 0, where the ignored tests expect the iteration count. A store that never sees the writes also never holds the deleted blob.

## Findings

| source | as written | input that shows it | evidently intended | confidence | as-written member | corrected member |
|---|---|---|---|---|---|---|
| src/main/java/org/gaul/areweconsistentyet/Utils.java:67-68 | `Arrays.fill(b, off, len, fill)` fills cells [off, len) and then reports `len` bytes read | a two-cell array with off = 1 and len = 1: reports 1 byte, but cell 1 is not filled | fill [off, off + len) as `InputStream.read(byte[], int, int)` requires | not executed | Utils.ReadRangeAsWrittenLosesBytes | Utils.ReadRangeFillsReportedBytes |
| src/main/java/org/gaul/areweconsistentyet/Utils.java:55-56 | `read()` returns the signed fill byte widened to `int` | fill -1 (0xFF): `read()` returns -1, which means end of stream | return the fill as an unsigned value in [0, 255] | not executed | Utils.ReadAsWrittenSignalsEndOfStream | Utils.InfiniteByteStream.Read |
