# The NVS storage engine, verified

The repository's core is a key-value store on NOR flash (`lib/esp-idf-nvs/src`). It is an append-only
log: a page has a header and 126 entries of 32 bytes, an item takes one entry for its head and more
for its data, a value is replaced by writing the new item and then marking the old one erased, and
space comes back only by copying what a page still holds to a page kept in reserve. Power can fail
between any two flash operations, or in the middle of a write.

This project models that engine, method by method, down to the single flash operation, and proves what
the store promises: which records it holds after every operation, and what it comes up with after
power failed anywhere in between. The capacity and namespace arithmetic that the application builds on
the engine's counters is included.

## How it is modelled

- `Flash.dfy` is the device. Programming can only clear bits (`PutBodies`, `PutWord`), erasing resets a
  sector. A ghost field `cuts` collects every image that a power cut could have left since the object
  was created, prefixes of a write included. A theorem about power loss is a statement about all
  members of `cuts`.
- `PageImage.dfy` defines what a page *means*: `Recs` is the sequence of records, computed from the
  entries alone. RAM has to agree with it (`PageRam.dfy`), never the other way round.
- `HashList.dfy`, `Page.dfy`, `PageManager.dfy`, `Storage.dfy` and `StorageInit.dfy` are the engine,
  in the form of the source: classes whose methods change fields and flash in loops. The other files
  hold the specifications and the lemmas these methods use. Work on values is kept out of the classes.
- `StoreImage.dfy` defines the records `Live(img)` of a whole image and `Recoverable(img, live)`: these
  records are on flash; the image is stable, or a page move is under way, or a record and its
  replacement are both there. `Kept(img)` says that the page in use also comes through being loaded.
- `Restart.dfy` and `Sessions.dfy` chain lives of the store: starting as `Storage::init` does, answering
  requests, losing power at any moment, starting again.
- `BlobRoom.dfy` says how much a store can take: the stretches of unused entries that chunks can go to.
- `Layout.dfy` and `Runs.dfy` are concrete runs from an erased chip, followed page by page.
- The 24-bit hash of an item is an arbitrary function `hashOf` of namespace, key and chunk number, so
  collisions are allowed everywhere. The checksum of a blob chunk is an arbitrary function `crcOf`.

## Main results

1. **A page object agrees with flash, whatever torn page it starts from.** Loading establishes the whole
   page invariant and leaves exactly `LoadedRecsOf` of the image (`Page.LoadEntryTable`, `Page.Load`).
2. **Garbage collection keeps every record on flash and can always go on.** `PageManager.RequestNewPage`
   succeeds exactly if there is room to make, and all records are on flash at every cut of it. They also
   all come up again if power fails, except when the page that was moved holds two records with one hash,
   or ends, once its gaps are gone, in a blob chunk behind another chunk of its key. That is an
   if-and-only-if, in a form to check before the call (`RequestNewPage`, `Restarts.CollectThenBoot`).
3. **Recovery.** `PageManager.Load` takes any recoverable image and leaves what `LeftBy` says, which is
   everything if and only if the image is `Kept`; `StorageInits.Init` leaves of that exactly the complete
   blobs and what is no blob. Where all blobs are complete, each can be read to the last byte
   (`BlobReads.ReadComplete`). A second start writes nothing exactly if what the first left is `Kept` and
   every blob in it complete (`StorageInits.InitTwice`).
4. **Setting a scalar or a string** finds a place exactly if there is room, and is a map update
   (`Storage.WriteItem`); reading gives exactly the bytes that were set, for every scalar type and for
   terminated strings, whether the write was skipped or not (`RoundTrips.WriteThenRead`). If the type stays
   the same, the old records or the new ones are on flash at
   every cut; started from there, the store has the old ones or the new ones if the cut is `Kept`, and
   without colliding hashes if and only if it does not shadow a chunk of a blob (`Restarts.BootWrite`).
   Whole lives of the store follow the history of the answered requests (`Sessions.Run`, `Restart`,
   `Life`, `KnownIsKept`).
5. **Names may change between scalar, string and blob, and blobs are erased by name alone**
   (`Storage.WriteItem`, `SetBlob`, `EraseItem`): what a name stood for is gone and only the new value is
   there, even if collection moved the old one meanwhile, with one exact exception that takes colliding
   hashes.
6. **A blob is stored exactly if there is room for it, and read back byte for byte**, whatever the name
   stood for before, under no assumption about hashes (`BlobStore.SetThenRead`). When there is room is told
   from used counts and free pages before the call (`BlobRooms.BlobRoom` in `Storage.WriteMultiPageBlob`,
   `SetBlob`, `BlobStore.Set`). Given a page to start on (`CanStart`), that is exactly when chunks and index
   can be laid out at all in the stretches of entries there are (`BlobRooms.CanHoldIff`): from there on,
   filling page after page and collecting the emptiest wastes no room. Without such a page a blob is
   refused that could be laid out (`BlobRooms.RefusedThoughItFits`).
7. **Blob updates and erasures that lose power** come up with the complete old or the complete new state,
   with an exact exception where hashes do not collide (`BlobStore.Set`, `BootUpdate`, `BootErase`,
   `BlobCrash.WriteThenBoot`); if the image is `Kept` and power fails again on the way, the next start is
   for the same records.
8. **The hash index agrees with the linear scan** without assuming that hashes differ
   (`PageSearch.HashAgreesWithScan`), and exactly when it does not for a blob (`BlobNames.FindsByName`).
9. **Accounting is exact**: per-namespace counts partition the entries in use, the clamps in the
   application's arithmetic never bite, and the thresholds of its capacity are met to the entry
   (`StoreAccounts`). **A list of keys** shows each name once that stands for a value or a complete blob, and
   nothing else (`Listings.ListKeys`).

## Findings

Where the code does not do what one would expect. Each has an input, a run from an erased chip where it
takes one, and an exact condition; both are theorems, named here.

- **A blob update that loses power can lose the blob, old and new value both.** Loading an ACTIVE page
  whose last item is a blob chunk erases the first other chunk of the same key on that page, of whatever
  version (nvs_page.cpp:735-747 searches with any chunk number). Input: `Runs.LostUpdate` stores
  the blob `[7]`, writes the first chunk of `[8]` and loses power; afterwards the name stands for nothing.
  Condition, to check before the chunk is written: `findItem(BLOB_DATA, key, CHUNK_ANY)` on the current
  page finds one of the records (`BlobCrash.WriteThenBoot`). For any image of any update: `Shadows`
  (`BlobStore.BootUpdate`, if no hashes collide).
- **Setting a scalar can lose a blob that nobody is writing.** The same search hits a complete blob when
  collection moves a page so that it ends in two chunks of it. Input: `Runs.LostByCollection`, three
  pages, two strings, two flags, a blob of two chunks, then room is made for anything; power fails, and
  the blob is gone. Condition: `Restarts.CollectThenBoot` and `PageManager.RequestNewPage`.
- **A blob update that fails** (no space left half way) erases the chunks it wrote by numbers counted from
  0 (nvs_storage.cpp:367-373). If the new version starts at 128, all new chunks stay behind, and what is
  erased are chunks of the *old* value. Input: `Runs.FailedSet`, without any loss of power. Condition:
  `BlobUpdates.FailedUpdate`; `Storage.WriteMultiPageBlob` states the exact outcome.
- **A blob that passes the check of its length may not fit even an erased chip.** The check
  (nvs_storage.cpp:282-290) lets through 4000 bytes for each page but one, but the index needs an entry too.
  Input and condition: `Runs.LongestBlob`, for an erased chip of any number of pages: the last 32 bytes are
  too many, and the write fails once all chunks are written.
- **Erasing or overwriting a blob by its name alone can hit one chunk instead of the blob**, and answers
  that all is well. A search of unspecified type starts at the first item with the hash of the index and
  takes whatever has the name. Input: `Runs.ErasedInPart`, a chunk with the hash of its index. Condition:
  on the listed pages up to the one with the index, an item with that hash is a chunk or lies before one
  (`TakesChunk` in `Storage.EraseItem` and `Storage.WriteItem`); it cannot happen if no other record
  has the hash of the index (`BlobNames.OwnHashFindsIndex`).
- **Loading twice is not loading once.** Input: `LoadAgain.ThreeChunks`, a page that loses a chunk at each
  of two loads. Condition: a second load changes a page if and only if it ends in a chunk that two chunks
  of its key come before (`LoadAgain.LoadedAgainIff`).
- **A changed value can be skipped as unchanged.** Comparing takes the stored length. Input:
  `StoreUpdates.PrefixIsSkipped`. Condition: the stored value is a proper prefix of the new one
  (`StoreUpdates.SkippedIffPrefix`). It takes data without a terminator under the type of strings, and no
  caller in this repository passes such data: nvs_handle_simple.cpp:36 always stores the terminator, and
  with it the comparison is exact (`StoreUpdates.SkippedIsEqual`).
- **A key that is too long is accepted if nothing has to be written**: the search truncates the key to 15
  characters, and the length is checked only when writing. Input: `StoreUpdates.LongKeyIsSkipped`.
  Condition: `Skips`, which is about the truncated key (`Storage.WriteItem`).
- **Comparing a blob that has more than one chunk** takes the checksum of the new data from its beginning
  for every chunk (nvs_storage.cpp:743-748), so a value that did not change is nevertheless written
  again unless these checksums agree by chance. Input: `Runs.NotTheSame`. Condition: `SameBlob`
  (`Storage.CmpMultiPageBlob`).

## Model

| member | source | states |
|---|---|---|
| ItemHashList.HashList.Insert | lib/esp-idf-nvs/src/nvs_item_hash_list.cpp:45-66 | The list holds one node more, still in ascending entry order over all its blocks. |
| ItemHashList.HashList.Erase | lib/esp-idf-nvs/src/nvs_item_hash_list.cpp:68-104 | All nodes of the entry and no others are gone, whether or not their block was dropped with them; the answer says whether there were any. |
| ItemHashList.HashList.Find | lib/esp-idf-nvs/src/nvs_item_hash_list.cpp:106-120 | The least entry at or after the start with this hash among all live nodes, or none if there is none. |
| FlashDevice.Flash.WriteBodies | lib/idf-host-shim/src/idf_host_shim.cpp:148-158 | Programming ANDs the new bodies onto what is there; the images a cut can leave are exactly those of a prefix of the bytes. |
| PageImage.StatesAreAnded | lib/esp-idf-nvs/src/nvs_constants.h:57-60 | Programming an entry state over another gives the state whose two bits are the AND of theirs. |
| FlashDevice.StateWordsAreAnded | lib/esp-idf-nvs/src/nvs_constants.h:37-54 | The same for the state words of pages, 32 bits each. |
| NvsPage.Page.AlterEntryRangeState | lib/esp-idf-nvs/src/nvs_page.cpp:846-874 | The table in RAM equals the one on flash afterwards; every cut leaves a tail of the range changed and the rest as it was, since words are flushed from the last to the first. |
| NvsPage.Page.WriteItem | lib/esp-idf-nvs/src/nvs_page.cpp:153-251 | The error is that of the first check that fails, in source order; on success the page holds exactly one record more, the one asked for, and used and next-free grow by its span; an image cut in between holds the old records or the new ones. |
| PageWrites.PartialRecs | lib/esp-idf-nvs/src/nvs_page.cpp:128-151 | An item half on its way adds no record; once its head and data are marked written it adds exactly itself. |
| PageValues.FilledUp | lib/esp-idf-nvs/src/nvs_page.cpp:209-247 | What a value leaves of its last entry, or of the data field of its header, stays ones. |
| NvsPage.Page.ReadItem | lib/esp-idf-nvs/src/nvs_page.cpp:290-318 | What is read is the data of the record the search finds, to the byte; which error a search without a hit, a wrong type, or a wrong size gives: for a scalar any size but that of its type. |
| NvsPage.Page.CmpItem | lib/esp-idf-nvs/src/nvs_page.cpp:320-391 | Equal exactly if the record found is of the type and its data is what the new value begins with. |
| NvsPage.Page.EraseEntryAndSpan | lib/esp-idf-nvs/src/nvs_page.cpp:411-501 | Exactly the item at this entry is removed; any cut leaves all records or all but this one; counters, first-used, hash list and table still agree with flash. |
| PageSteps.RemovedRecs | lib/esp-idf-nvs/src/nvs_page.cpp:411-478 | Removing an item removes exactly its record and keeps the order of the others. |
| NvsPage.Page.CopyItems | lib/esp-idf-nvs/src/nvs_page.cpp:503-564 | The target holds the same records in the same order without gaps, and nothing else; the source page does not change; each cut leaves a prefix on the target. |
| NvsPage.Page.LoadEntryTable | lib/esp-idf-nvs/src/nvs_page.cpp:566-805 | From any torn page the full invariant holds afterwards (table, counters, first-used, next-free, hash list) and the records are exactly those of the image without duplicates by hash and without a shadowed chunk; a clean page is not written to. |
| NvsPage.Page.Load | lib/esp-idf-nvs/src/nvs_page.cpp:27-97 | The page state follows the header; blank means uninitialized, anything else without a header corrupt; records as above. |
| NvsPage.Page.FindItem | lib/esp-idf-nvs/src/nvs_page.cpp:902-1032 | The answer is that of a search that starts at the first hash match: found, not found, or a type mismatch. |
| BlobSearch.WhatIsTaken | lib/esp-idf-nvs/src/nvs_page.cpp:936-1017 | Which items a search by key and type or for a chunk takes, which it passes over, and which end it with a type mismatch. |
| BlobSearch.WhichIndexIsTaken | lib/esp-idf-nvs/src/nvs_page.cpp:936-1017 | The same for an index of one version or of any. |
| PageSearch.HashAgreesWithScan | lib/esp-idf-nvs/src/nvs_page.cpp:902-1032 | That search gives the answer of a scan over all entries, whatever hashes collide: for a numbered chunk, for an index, and for any type if the key has no chunks on the page. |
| PageSearch.HashPrefersIndex | lib/esp-idf-nvs/src/nvs_page.cpp:902-1032 | With a chunk of the key before its index, the hash leads an untyped search to the index where a scan meets the chunk. |
| PageLoad.LoadLosesNothingIff | lib/esp-idf-nvs/src/nvs_page.cpp:702-747 | Loading an active page keeps all records if and only if their hashes differ and it does not end in a chunk with an earlier chunk of its key. |
| PageTwins.LoadedWithoutTwinIff | lib/esp-idf-nvs/src/nvs_page.cpp:702-747 | With an old record and its replacement on one page, loading drops exactly the old one under the same condition on the rest. |
| LoadAgain.LoadedAgainIff | lib/esp-idf-nvs/src/nvs_page.cpp:702-747 | A second load of the page changes nothing if and only if it does not end in a chunk that two chunks of its key come before. |
| LoadAgain.ThreeChunks | lib/esp-idf-nvs/src/nvs_page.cpp:735-747 | A page of three chunks of a key loses one at each of two loads. |
| PageManagers.PageManager.ActivatePage | lib/esp-idf-nvs/src/nvs_pagemanager.cpp:205-222 | The first free page becomes the last of the list with the next sequence number; it is erased unless it is blank; without a free page nothing changes. |
| PageManagers.PageManager.RequestNewPage | lib/esp-idf-nvs/src/nvs_pagemanager.cpp:139-203 | Succeeds if and only if there is a second free page or a listed page with an unused entry; keeps all records on flash at every cut; the pages stay in order with one in reserve; the page that moves is the first of those with the fewest entries in use. Every image on the way comes through being loaded but possibly the last, and that one does if and only if nothing had to move or the moved page does not end in a chunk behind one of its key. |
| Collections.MovedKeptIff | lib/esp-idf-nvs/src/nvs_pagemanager.cpp:139-203 | What making room leaves comes through being loaded if and only if nothing had to move or the records of the moved page allow it. |
| Restarts.CollectThenBoot | lib/esp-idf-nvs/src/nvs_pagemanager.cpp:139-203 | Room is made, power fails, the store starts: all records are back under exactly that condition, and the image is one that power can leave. |
| PageManagers.PageManager.Load | lib/esp-idf-nvs/src/nvs_pagemanager.cpp:12-137 | From any recoverable image, in which names with blob chunks stand for blobs only, the store is in order again, at rest, and holds exactly what loading the page in use leaves, which is everything if and only if that page is kept; each image on the way is recoverable to the same records; an image at rest is not written to. |
| PageManagers.LoadTwice | lib/esp-idf-nvs/src/nvs_pagemanager.cpp:12-137 | Loading what a load left writes nothing if and only if the page in use is kept. |
| PageManagers.PageManager.FillStats | lib/esp-idf-nvs/src/nvs_pagemanager.cpp:224-249 | Entries in use are the spans of all records, total and free add up with the reserve taken off, and none is available exactly if not even a one-entry write could find a place. |
| Storages.Storage.FindItem | lib/esp-idf-nvs/src/nvs_storage.cpp:257-271 | The first listed page with a hit, and where on it; not found means no page has one. |
| Storages.Storage.WriteItem | lib/esp-idf-nvs/src/nvs_storage.cpp:380-596 | A value that compares as equal is not written; otherwise success if and only if there is room for its span, and which error for a key or a value that is too long; then the records are a map update of the old ones even if collection moved the old record in between. Over a blob: all of it goes, or exactly one chunk if the search by name met one. For an unchanged type every cut has the old or the new records on flash. |
| StoreWrites.TooLongForAPage | lib/esp-idf-nvs/src/nvs_page.cpp:172-199 | With a key that is not too long, a value of variable length is refused for its length exactly if it would not fit on an empty page. |
| StoreMap.WriteIsMapUpdate | lib/esp-idf-nvs/src/nvs_storage.cpp:380-596 | After the write the name stands for the new record only, and every other name for what it stood for. |
| Overwrites.OverwriteIsMapUpdate | lib/esp-idf-nvs/src/nvs_storage.cpp:380-596 | With its blob gone the name stands for the new record only, and every other name for what it stood for. |
| Restarts.BootWrite | lib/esp-idf-nvs/src/nvs_storage.cpp:183-250 | Started from any cut of such a write, the store has exactly the old or exactly the new records if the cut is kept, and without colliding hashes if and only if it does not shadow a chunk. |
| Storages.Storage.ReadItem | lib/esp-idf-nvs/src/nvs_storage.cpp:763-784 | The value of the record of the name, or the error for a missing name, a wrong type or a wrong size; under a type that no record of the name has, a name that stands for a blob included, it is not found. |
| RoundTrips.WriteThenRead | lib/esp-idf-nvs/src/nvs_storage.cpp:763-784 | A scalar of 1, 2, 4 or 8 bytes, as its type says, or a string is set and then read: exactly its bytes come back, written or skipped, unless the name stood for a string that the new one starts with, which terminated strings rule out. |
| StoreMap.ReadsScalar | lib/esp-idf-nvs/src/nvs_page.hpp:197-200 | A value of 1 byte under U8 or I8, of 2 under U16 or I16, of 4 under U32 or I32, of 8 under U64 or I64 is read back with a buffer of that size; any other size is a type mismatch. |
| StoreMap.ReadsWhatWasWritten | lib/esp-idf-nvs/src/nvs_storage.cpp:763-784 | Reading the record that writing a value makes gives that value, to the byte. |
| Storages.Storage.EraseItem | lib/esp-idf-nvs/src/nvs_storage.cpp:887-908 | Of a name with a single record this one is gone if the type fits, and nothing changes otherwise. Of a blob erased by name alone all of it is gone and nothing else, or exactly one chunk if the search met one; which of the two is told by the pages. For each cut what it leaves. |
| StoreMap.EraseIsMapRemoval | lib/esp-idf-nvs/src/nvs_storage.cpp:887-908 | Afterwards the name stands for nothing and every other name for what it stood for. |
| BlobNames.FindsByName | lib/esp-idf-nvs/src/nvs_page.cpp:902-1032 | What a search of unspecified type finds for a blob is its index if and only if no item with the hash of the index is a chunk of it or lies before one, and a chunk otherwise. |
| BlobNames.OwnHashFindsIndex | lib/esp-idf-nvs/src/nvs_page.cpp:902-1032 | If no other record has the hash of the index, the index is found. |
| Runs.ErasedInPart | lib/esp-idf-nvs/src/nvs_storage.cpp:887-908 | From an erased chip: a blob whose chunk has the hash of its index is erased by name; the answer is OK, the chunk is gone, the index stays. |
| StoreUpdates.ScalarSkips | lib/esp-idf-nvs/src/nvs_page.cpp:334-343 | The write of a scalar is skipped if and only if all its bytes are those stored. |
| StoreUpdates.SkippedIsEqual | lib/esp-idf-nvs/src/nvs_page.cpp:320-391 | For terminated strings a write is skipped exactly if the value is the same. |
| StoreUpdates.SkippedIffPrefix | lib/esp-idf-nvs/src/nvs_page.cpp:320-391 | For bytes a real change is skipped if and only if the stored value is a proper prefix of the new one. |
| StoreUpdates.PrefixIsSkipped | lib/esp-idf-nvs/src/nvs_page.cpp:320-391 | An input for it. |
| StoreUpdates.LongKeyIsSkipped | lib/esp-idf-nvs/src/nvs_page.cpp:153-176 | A key of 16 characters whose value is stored under its first 15 is skipped, though it could not be written. |
| Storages.Storage.FindTailroom | lib/esp-idf-nvs/src/nvs_storage.cpp:273-317 | Ends, loses nothing, and succeeds if and only if the current page, or one that can be had, takes the whole blob or a tenth of the longest chunk; then the current page does. |
| BlobRooms.CanHoldIff | lib/esp-idf-nvs/src/nvs_storage.cpp:292-361 | The sum that decides about room is more than the entries of data, or equal with a single entry besides, exactly if the data can be laid out in chunks, one to a stretch of entries, with an entry left for the index. |
| BlobRooms.RefusedThoughItFits | lib/esp-idf-nvs/src/nvs_storage.cpp:297-312 | Two pages with ten entries to spare each and the reserve: 320 bytes could be laid out in two chunks, but no page takes all of them or a tenth of the longest chunk, and the blob is refused. |
| BlobRooms.RoomHere | lib/esp-idf-nvs/src/nvs_storage.cpp:292-361 | There is room if the current page takes the data and one entry more. |
| BlobRooms.RoomOnFreePages | lib/esp-idf-nvs/src/nvs_storage.cpp:292-361 | There is room if there are free pages for all chunks, the index and the reserve. |
| Storages.Storage.WriteMultiPageBlob | lib/esp-idf-nvs/src/nvs_storage.cpp:273-376 | Too long exactly beyond 4000 bytes for each page but one, and for 127 at most; otherwise, with a key of up to 15 characters, success if and only if there is room, and a longer key is refused once a page to start on is there. On success chunks that join to the data and then an index with their number and size have been added, and nothing else changed, never with an answer that the page is full; on failure exactly which of the new chunks stay and which old ones go; for every cut what it may hold. |
| Storages.Storage.ReadMultiPageBlob | lib/esp-idf-nvs/src/nvs_storage.cpp:651-705 | A blob that is there, all chunks its index counts with as many bytes as it says, is read to the last byte and nothing changes; if a chunk that its index counts is missing, the answer is an error and everything of the name is gone; nothing else ever is. |
| Storages.Storage.CmpMultiPageBlob | lib/esp-idf-nvs/src/nvs_storage.cpp:707-761 | Answers that the value is the same if and only if the data is and the checksums taken from its start agree for each chunk. |
| Storages.Storage.EraseMultiPageBlob | lib/esp-idf-nvs/src/nvs_storage.cpp:786-885 | Index and chunks of the blob are gone and nothing else is; for every cut what is left: all, or no index and a part of the chunks. For no version in particular: not found exactly if there is no index, and otherwise everything of the name is gone, also where a lost update has left an index of each version. |
| PartErases.FindsAnyIndex | lib/esp-idf-nvs/src/nvs_storage.cpp:795-841 | An index of any version is found exactly if the name has one. |
| Storages.Storage.SetBlob | lib/esp-idf-nvs/src/nvs_storage.cpp:454-596 | What compares as the same is not written; otherwise the answer is that of writing the chunks, so success if and only if there is room; on success the blob of the other version has replaced the old one, or the single record the name stood for; every cut of an update is on the old side (old blob complete) or on the new side (new blob complete). |
| Trails.TrailEnds | lib/esp-idf-nvs/src/nvs_storage.cpp:550-588 | A record that was moved while a blob was written under its name is what a search under its type still finds. |
| BlobUpdates.FailedUpdate | lib/esp-idf-nvs/src/nvs_storage.cpp:364-376 | After a failed update: nothing of the old value is gone if the new version started at 0; if it started at 128 all new chunks stay, and exactly the condemned old chunks are gone. |
| Runs.FailedSet | lib/esp-idf-nvs/src/nvs_storage.cpp:364-376 | From an erased chip, no power lost: a blob is stored, its next value does not fit, and the chunk of the stored one is gone. |
| StorageInits.PopulateBlobIndices | lib/esp-idf-nvs/src/nvs_storage.cpp:52-82 | The list has exactly one node for each blob index of the store. |
| StorageInits.ObserveChunks | lib/esp-idf-nvs/src/nvs_storage.cpp:90-121 | Each node has counted the chunks and bytes of its name and version, each chunk of the store once. |
| StorageInits.EraseMismatched | lib/esp-idf-nvs/src/nvs_storage.cpp:122-152 | Exactly the indices are gone whose chunks do not match them in number and size, and the list keeps the others. |
| StorageInits.EraseOrphans | lib/esp-idf-nvs/src/nvs_storage.cpp:154-181 | Exactly the chunks are gone that no listed blob counts. |
| StorageInits.ClearBlobs | lib/esp-idf-nvs/src/nvs_storage.cpp:225-242 | Exactly the complete blobs and what is no blob remain, and if nothing else was there nothing is written. |
| StorageInits.Init | lib/esp-idf-nvs/src/nvs_storage.cpp:183-250 | Of what loading leaves, exactly the complete blobs and what is no blob remain; images on the way lose nothing else; a store at rest that is kept and complete is not written to. |
| StorageInits.InitTwice | lib/esp-idf-nvs/src/nvs_storage.cpp:183-250 | The second start writes nothing if and only if what the first left is kept and every blob in it is complete. |
| BlobPurge.PurgedIsTidyIff | lib/esp-idf-nvs/src/nvs_storage.cpp:122-181 | What the clean-up leaves needs no further clean-up if and only if every chunk of a complete blob's version is one that the blob counts. |
| BlobPurge.MatchedIs | lib/esp-idf-nvs/src/nvs_storage.cpp:90-152 | The counts taken while walking say that a blob is complete exactly if its family of chunks in the whole store is. |
| BlobReads.CompleteIsReadable | lib/esp-idf-nvs/src/nvs_storage.cpp:84-181 | What the clean-up checks by counting is enough: where every index matches its chunks in number and size and counts all of them, each index has all its chunks, and together they hold as many bytes as it says. |
| BlobReads.ReadComplete | lib/esp-idf-nvs/src/nvs_storage.cpp:651-705 | On such a store reading any blob by the size in its index succeeds, and nothing changes. |
| BlobCrash.ExtendedIsPurged | lib/esp-idf-nvs/src/nvs_storage.cpp:90-181 | If complete blobs are there and chunks none of them counts, clean-up removes exactly those chunks. |
| BlobCrash.Boot | lib/esp-idf-nvs/src/nvs_storage.cpp:183-250 | From an image with these records and stray chunks the store comes up with exactly the records if and only if loading leaves them, without colliding hashes if and only if the page in use does not shadow one; images on the way are for the same records and keep chunks apart. |
| BlobCrash.UpdateSurvives | lib/esp-idf-nvs/src/nvs_storage.cpp:454-596 | Every cut of a blob update is such an image, of the old records or of the new ones. |
| BlobCrash.WriteThenBoot | lib/esp-idf-nvs/src/nvs_storage.cpp:318-331 | Power lost right after a chunk: everything comes back if and only if searching the current page for any chunk of the key beforehand does not find one of the records; otherwise the blob is gone. |
| BlobStore.Set | lib/esp-idf-nvs/src/nvs_storage.cpp:454-596 | Success if and only if the value compares as the same or there is room. On success the name stands for exactly this value and all other records are as before; each cut is `Torn`, and kept if no page that took a chunk held one of the key. On failure what is left, and what each cut holds. |
| BlobStore.BootUpdate | lib/esp-idf-nvs/src/nvs_storage.cpp:183-250 | A cut of an update that is kept comes up with the complete old or the complete new records; without colliding hashes any cut comes up with one of the two if and only if it does not shadow one of the records that count. Power lost again on the way leaves the same. |
| BlobStore.BootErase | lib/esp-idf-nvs/src/nvs_storage.cpp:183-250 | The same for a blob that was being erased: it is there or nothing of it is. |
| BlobStore.SetThenRead | lib/esp-idf-nvs/src/nvs_storage.cpp:651-705 | A blob is set if and only if there is room, and one that was set, over a blob, a single record or nothing, is read back byte for byte, whatever the hashes and however it was split, and records of other names are as before. |
| Runs.LongestBlob | lib/esp-idf-nvs/src/nvs_storage.cpp:282-290 | On an erased chip of n pages a blob of any length is set and read back: success exactly up to 4000 * (n - 1) - 32 bytes, no space for the next 32 lengths, too long beyond. |
| Runs.LostUpdate | lib/esp-idf-nvs/src/nvs_page.cpp:735-747 | From an erased chip: a stored blob, one chunk of its next value, power lost; then there is no blob of this name. |
| Runs.LostByCollection | lib/esp-idf-nvs/src/nvs_page.cpp:735-747 | From an erased chip of three pages: a complete blob, room is made for something else, power lost; then there is no blob of this name. |
| Runs.NotTheSame | lib/esp-idf-nvs/src/nvs_storage.cpp:740-751 | A value of two chunks does not compare as the same as itself if the checksums of its pieces differ. |
| Sessions.Run | lib/esp-idf-nvs/src/nvs_storage.cpp:380-596 | The records follow the history of the answered requests, and each answer is the one the records call for: a write is refused for its size, or for want of space only on a crowded store. Every image a cut during request i leaves has the history up to i or up to i + 1 on flash. |
| Sessions.NoRoomIsCrowded | lib/esp-idf-nvs/src/nvs_pagemanager.cpp:139-164 | A write of m entries finds no room only if the records leave fewer than m entries on each page but one. |
| Restarts.StartOn | lib/esp-idf-nvs/src/nvs_storage.cpp:183-250 | Started on an image with these records, all of whose blobs are complete, the store has exactly them if and only if the image is kept; otherwise a chunk is missing; images on the way have the same records. |
| Sessions.Restart | lib/esp-idf-nvs/src/nvs_storage.cpp:183-250 | An image that losing power in a session left comes up with exactly its records if and only if it is kept, and each image cut on the way is one for the same records. |
| Sessions.Life | lib/esp-idf-nvs/src/nvs_storage.cpp:183-250 | From start to the next loss of power: whatever image is left has the history of the requests answered so far on flash. |
| Sessions.KnownIsKept | lib/esp-idf-nvs/src/nvs_page.cpp:702-747 | If the names that occur have different hashes and no page holds two chunks of a key, every such image is kept. |
| StoreWalk.AllAreListed | lib/esp-idf-nvs/src/nvs_storage.cpp:1021-1046 | The listed pages hold all records of the store. |
| Storages.Storage.CalcEntriesInNamespace | lib/esp-idf-nvs/src/nvs_storage.cpp:1021-1046 | The sum of the spans of exactly the records of this namespace. |
| Storages.Storage.NextEntry | lib/esp-idf-nvs/src/nvs_storage.cpp:1100-1120 | The next item to list behind the cursor, and the cursor behind it. |
| Storages.Storage.ListItems | src/nvs/NvsReader.cpp:147-177 | The loop over the iterator gives every item to list of a namespace exactly once, and then it ends. |
| Listings.ListKeys | lib/esp-idf-nvs/src/nvs_storage.cpp:1086-1120 | Listing a namespace or all: each name outside namespace 0 that stands for a single record, and each that stands for a complete blob of either version, occurs exactly once; whatever occurs is such a record or a chunk of a complete blob, never a namespace or an index. |
| StoreAccounts.NamespacesPartition | src/nvs/NvsReader.cpp:98-145 | For any records, the counts of their namespaces add up to the entries of all of them. |
| StoreAccounts.UnattributedIs | src/app/NvsModel.cpp:43-47 | For any distinct namespaces shown, the subtraction never goes below zero: what is left are the entries of those not shown and one entry for each of their namespace records. |
| StoreAccounts.CapacityMeans | src/app/NvsModel.cpp:15-31 | With at least two pages no clamp applies, usable is used plus available, and the percentage is exact, rounded down. The health is full exactly if no entry is available, critical exactly below a tenth of what is usable, in order exactly above a quarter, and low in between. |

## Left out

- Storages.Storage.WriteItem: for a change of type it states the new records but nothing about cuts, because records of one name and different types are not told apart at start.
- Storages.Storage.WriteItem: names that have both a single record and parts of a blob, which only power lost during a change of type leaves, are not covered; nor are they by EraseItem, ReadItem and SetBlob.
- Storages.Storage.SetBlob: over a single record it states the outcome but nothing about cuts, for the same reason.
- Storages.Storage.WriteMultiPageBlob: what the 8-bit count does past 127 chunks is not followed; `wrapped` marks that it has been reached, which takes more than 127 pages.
- PageManagers.PageManager.Load: assumes that a name with blob chunks stands for nothing but a blob (`Identified`), which the modelled operations keep; a stray chunk whose number collides with another item's key otherwise misleads the search for the old record.
- BlobStore.BootUpdate: that power lost again on the way leaves the same records is stated for images that are kept; of one that is not, the first start has already lost a record.
- Sessions.Run: requests are those for scalars and strings on names that stand for no blob; blob updates and erasures have their own theorems, for one update at a time.
- Storages.Storage.ListItems: the queries for the size of each item and the sorting that the reader adds are not part of this model.
- StoreAccounts.NamespacesPartition: arithmetic over the records; the loop over namespaces that reads the counts is not part of this model.
- StorageInits.Init: the list of namespaces that starting also builds is not part of this model.
- Payload checksums of single items, the count of erased entries, the format version in the page header and the numbers of write errors.
- Allocation failures, flash driver errors, torn sector erases, sequence numbers that overflow, encryption and read-only partitions.
- Items in the old blob format, and the compatibility build options.
- Opening and creating namespaces, erasing a whole namespace, handles and iterators of the public interface.
- The layout of headers and entries in bytes, and CRC-32 as a polynomial: an item head is either intact or recognised as torn.
- Linked lists of pages and hash blocks are sequences; how nodes are linked is not modelled.
- Of the application: raw restore, export and the JSON reader and writer, SHA-256, the integer editor, the external difference tool and the user interface.
