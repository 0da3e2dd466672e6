# Growable flag store and chunk-file discovery

A Dafny model of two pieces of the vector-storage persistence layer.

**The growable persistent bit-flag store (`DynamicMmapFlags`).** The store
keeps a vector of boolean flags in one of two slot files, `flags_a.dat` and
`flags_b.dat`. A status record names the active slot and the number of
valid flags, `len`.

- The active file is sized by a power-of-two capacity rule
  (`mmap_capacity_bytes`).
- Growing within that capacity only changes `len`.
- Growing past it is a *rotation*. The active mapping is flushed and its
  file is copied onto the other slot. The copy is then enlarged for the new
  length, mapped, and made active.
- The status record lives in a mapped file of its own. Like the flags, it
  is guaranteed to be on disk only once the flush callback has run. Before
  that its writes sit in a shared mapping, which the kernel may write back
  at any time, and which a reopen after a plain process restart already
  sees.

The model keeps two kinds of state apart:

- The class `MmapFlags.DynamicMmapFlags` holds the running store: the
  mapped status record and the bit view over the active file. The bit view
  is an `array<bool>`, updated in place.
- The class `MmapFlags.FlagsDirectory` holds the disk once every completed
  file operation and flush has reached it: the status record and each slot
  file's bits as last flushed or written by a rotation's file operations.
  It is one state a reopen after a system crash may see, and `Open` on it
  models that reopen.

Writes through the mappings (`set`, and the status updates of `set_len`)
reach the `FlagsDirectory` only through `FlushMmap` or `Flush`. The file
operations of a rotation act on it directly: the copy, and the creation at
an exact length. Below, "durable" means held in the `FlagsDirectory`.

**Chunk-file naming and discovery (`chunked_utils`).**

- Each chunk of a chunked store lives in a file named `chunk_<id>.mmap`.
- `read_mmaps` lists a directory and collects the id each regular file's
  name encodes. A later file with the same id replaces an earlier one. It
  then returns the chunks in id order when the distinct ids are exactly
  0, …, n-1. Otherwise it fails, naming the first missing id.
- `create_chunk` creates the chunk file at its canonical name, with
  exactly the requested length.

The model is organised as follows:

- **Module `Disk`.** Paths are lists of components. The file primitives
  are functions on maps from keys to contents: create-and-ensure-length,
  with zero fill on extension, and `join`.
- **Module `Decimal`.** Rust's `usize` formatting and `str::parse::<usize>`.
- **Module `MmapCapacity`.** The sizing rule. The minimal file size is a
  parameter, `minimalSize`: 128 bytes in debug builds and 1 MiB in release
  builds. The scenarios use 128, the value the Rust tests run with, and
  every claim about the store assumes it is a power of two.
- **A directory listing** is a sequence of `DirEntry(name, isFile)`, in the
  order the directory yields it. `isFile` is needed because `read_mmaps`
  skips entries that are not regular files.

Three further points:

- `set_len` and `read_mmaps` both fail with a service error. The model
  gives each its own error datatype: `FlagsError.CannotShrink(len, newLen)`
  and `ReadMmapsError.MissingChunk(chunkId)`.
- The saving test's comment lists a slot for each capacity boundary, and
  `set_len` rotates at most once per call, however many boundaries it
  crosses. The two agree on the slots the test asserts: B after growing to
  5000 flags, and A after growing to 10000.
- The file system of the chunk scenarios holds only files, so every entry
  `ListDirectory` yields is a regular file; `read_mmaps` itself is modelled
  over any listing, directories included.

## Model

| member | source | states |
|---|---|---|
| Disk.FileNameOf | lib/segment/src/vector_storage/chunked_utils.rs:57 | `path.file_name()` exists exactly for a non-empty path, and it is the last component |
| Disk.Join | lib/segment/src/vector_storage/dynamic_mmap_flags.rs:30-32 | `directory.join(name)` extends the directory by one component, and the new path's file name is `name` |
| Disk.Resize | lib/segment/src/vector_storage/dynamic_mmap_flags.rs:163 | a file resized to `n` units keeps its first `min(n, old length)` units and is filled beyond them |
| Disk.EnsureLength | lib/segment/src/vector_storage/chunked_utils.rs:95 | `create_and_ensure_length` adds exactly the one file if it is absent, gives it the requested length, and leaves every other file as it was |
| Disk.FileSystem.CreateAndEnsureLength | lib/segment/src/vector_storage/chunked_utils.rs:95 | the file system after creating a file at an exact length, with zero fill |
| MmapCapacity.MinimalSizesArePowersOfTwo | lib/segment/src/vector_storage/dynamic_mmap_flags.rs:19-22 | both minimal file sizes (128 bytes and 1 MiB) are powers of two |
| MmapCapacity.PowerOfTwoGap | lib/segment/src/vector_storage/dynamic_mmap_flags.rs:115 | of two distinct powers of two, the larger is at least twice the smaller |
| MmapCapacity.DivCeil | lib/segment/src/vector_storage/dynamic_mmap_flags.rs:113 | `div_ceil(a, b)` is the least multiple count that covers `a`: `a <= r*b < a+b` |
| MmapCapacity.PowerOfTwoAtLeast | lib/segment/src/vector_storage/dynamic_mmap_flags.rs:115 | the upward search yields a power of two at least `n` whose half is below `n` |
| MmapCapacity.NextPowerOfTwo | lib/segment/src/vector_storage/dynamic_mmap_flags.rs:115 | `next_power_of_two(n)` is a power of two, at least `n`, and its half is below `n` (or it is 1) |
| MmapCapacity.NextPowerOfTwoIsLeast | lib/segment/src/vector_storage/dynamic_mmap_flags.rs:115 | no power of two at least `n` is smaller than `next_power_of_two(n)` |
| MmapCapacity.MmapCapacityBytes | lib/segment/src/vector_storage/dynamic_mmap_flags.rs:111-116 | the capacity is at least the minimal size, holds `numFlags` bits, and is a power of two when the minimal size is |
| MmapCapacity.CapacityIsLeast | lib/segment/src/vector_storage/dynamic_mmap_flags.rs:111-116 | the capacity is the smallest power of two that is at least the minimal size and holds `numFlags` bits |
| MmapCapacity.CapacityMonotone | lib/segment/src/vector_storage/dynamic_mmap_flags.rs:111-116 | more flags never give a smaller file |
| MmapCapacity.CapacityTestValues | lib/segment/src/vector_storage/dynamic_mmap_flags.rs:340-348 | with the 128-byte minimum: 0, 1, 1023 and 1024 flags need 128 bytes, 1025 need 256, 10000 need 2048 |
| MmapCapacity.SavingScenarioCapacities | lib/segment/src/vector_storage/dynamic_mmap_flags.rs:289-325 | the capacities the saving test passes through: an empty store holds 1024 flags, 5000 flags take 1024 bytes (8192 flags), 10000 flags take 2048 bytes |
| MmapCapacity.MmapMaxCurrentSize | lib/segment/src/vector_storage/dynamic_mmap_flags.rs:118-122 | the number of flags the current file holds is at least the current length and at least 8 times the minimal size |
| MmapCapacity.CapacityStableWithinMax | lib/segment/src/vector_storage/dynamic_mmap_flags.rs:198-216 | growing to at most the current maximum keeps the file size, so no resize is needed |
| MmapCapacity.CapacityGrowsPastMax | lib/segment/src/vector_storage/dynamic_mmap_flags.rs:200-212 | growing past the current maximum at least doubles the file, so the old contents are a strict prefix of the new file |
| Decimal.DigitChar | lib/segment/src/vector_storage/chunked_utils.rs:84-86 | the character written for a digit is a decimal digit with that value |
| Decimal.NatToDecimal | lib/segment/src/vector_storage/chunked_utils.rs:84-86 | `{chunk_id}` formatting gives a non-empty digit string with no leading zero that denotes the number |
| Decimal.ParseUsize | lib/segment/src/vector_storage/chunked_utils.rs:47 | `parse::<usize>` never yields a value above the largest `usize` |
| Decimal.ParseFormatRoundTrip | lib/segment/src/vector_storage/chunked_utils.rs:47 | parsing the decimal text of any `usize` gives it back |
| Decimal.ParseRejectsOverflow | lib/segment/src/vector_storage/chunked_utils.rs:47 | the decimal text of a number above the largest `usize` is refused |
| Decimal.ParseUsizeExamples | lib/segment/src/vector_storage/chunked_utils.rs:47 | `parse` accepts "05" and "+5" as 5, and refuses "", "+", "-1" and "1a" |
| ChunkedUtils.StripPrefix | lib/segment/src/vector_storage/chunked_utils.rs:45 | stripping succeeds exactly when the name starts with the prefix, and the prefix plus the rest is the name |
| ChunkedUtils.StripSuffix | lib/segment/src/vector_storage/chunked_utils.rs:46 | stripping succeeds exactly when the name ends with the suffix, and the rest plus the suffix is the name |
| ChunkedUtils.CheckMmapFileNamePattern | lib/segment/src/vector_storage/chunked_utils.rs:41-48 | an accepted name starts with `chunk_` and ends with `.mmap`, and its id fits a `usize` |
| ChunkedUtils.ChunkFileName | lib/segment/src/vector_storage/chunked_utils.rs:84-86 | the file name `chunk_<id>.mmap` of every `usize` id is accepted by the name check and yields that id |
| ChunkedUtils.ChunkName | lib/segment/src/vector_storage/chunked_utils.rs:83-87 | the chunk path lies directly inside the directory, and its file name is `chunk_<id>.mmap` |
| ChunkedUtils.CheckPatternParsesMiddle | lib/segment/src/vector_storage/chunked_utils.rs:43-48 | a name `chunk_<middle>.mmap` yields exactly what `parse` makes of the middle |
| ChunkedUtils.CheckPatternAcceptsOnlyChunkNames | lib/segment/src/vector_storage/chunked_utils.rs:43-48 | an accepted name is the prefix, a middle that parses to the id, and the suffix |
| ChunkedUtils.CheckPatternNeedsPrefix | lib/segment/src/vector_storage/chunked_utils.rs:45 | a name without the `chunk_` prefix is refused |
| ChunkedUtils.CheckPatternNeedsSuffix | lib/segment/src/vector_storage/chunked_utils.rs:46 | a name without the `.mmap` suffix is refused |
| ChunkedUtils.ChunkNameRoundTrip | lib/segment/src/vector_storage/chunked_utils.rs:83-87 | the file name of `chunk_name(dir, id)` is accepted by the name check and yields `id`, for every `usize` id |
| ChunkedUtils.DistinctNamesSameId | lib/segment/src/vector_storage/chunked_utils.rs:47 | non-canonical names encode ids too: `chunk_00.mmap` gives 0, and `chunk_05.mmap` and `chunk_+5.mmap` both give 5, though neither is `chunk_5.mmap` |
| ChunkedUtils.EntryChunkId | lib/segment/src/vector_storage/chunked_utils.rs:55-59 | an entry that is not a regular file contributes no id; a regular file contributes what the name check yields, an id that fits a `usize` |
| ChunkedUtils.ListingIds | lib/segment/src/vector_storage/chunked_utils.rs:55-59 | each listing entry contributes the id its name encodes if it is a regular file, and nothing otherwise |
| ChunkedUtils.InsertChunks | lib/segment/src/vector_storage/chunked_utils.rs:51-65 | the map the first loop has built after a prefix of the listing; its meaning is stated by `InsertChunksEntry` and `InsertChunksSize` |
| ChunkedUtils.ChunkMap | lib/segment/src/vector_storage/chunked_utils.rs:51-65 | the map the first loop builds from the whole listing; every id in it fits a `usize` |
| ChunkedUtils.InsertChunksSize | lib/segment/src/vector_storage/chunked_utils.rs:62-67 | there are never more distinct ids than listing entries |
| ChunkedUtils.InsertChunksSnoc | lib/segment/src/vector_storage/chunked_utils.rs:61-63 | one more entry inserts its path under its id, overwriting, or leaves the map as it was |
| ChunkedUtils.InsertChunksEntry | lib/segment/src/vector_storage/chunked_utils.rs:52-65 | an id is in the map exactly when some entry contributes it, and it maps to the last such entry's path |
| ChunkedUtils.ChunkMapEntry | lib/segment/src/vector_storage/chunked_utils.rs:52-65 | an id is in the map that the first loop builds exactly when some regular file with a matching name encodes it, and it maps to the last such file |
| ChunkedUtils.InsertChunksSkipsNone | lib/segment/src/vector_storage/chunked_utils.rs:55-63 | an entry contributing no id can be removed from any position without changing the map |
| ChunkedUtils.ChunkMapIgnoresNonMatching | lib/segment/src/vector_storage/chunked_utils.rs:55-63 | a directory or a non-matching file anywhere in the listing does not change the map |
| ChunkedUtils.IdRange | lib/segment/src/vector_storage/chunked_utils.rs:69 | the set `0..n` has exactly the ids below `n`, and `n` of them |
| ChunkedUtils.DenseIffRange | lib/segment/src/vector_storage/chunked_utils.rs:67-75 | the contiguity test (every id below the number of distinct ids is present) holds exactly when the ids are `{0..n-1}`, and then `n` is the number of distinct ids |
| ChunkedUtils.CollectChunkFiles | lib/segment/src/vector_storage/chunked_utils.rs:51-65 | the first loop builds exactly `ChunkMap` of the listing |
| ChunkedUtils.TakeChunksInOrder | lib/segment/src/vector_storage/chunked_utils.rs:67-80 | the second loop succeeds exactly when every id below the map's size is present, then yields chunk `i` from the file with id `i`; otherwise it names the smallest missing id |
| ChunkedUtils.ReadMmaps | lib/segment/src/vector_storage/chunked_utils.rs:50-81 | success exactly when the distinct ids are contiguous from 0. On success there is one chunk per distinct id, and chunk `i` is the file with id `i`. On failure the error names the smallest missing id |
| ChunkedUtils.CreateChunk | lib/segment/src/vector_storage/chunked_utils.rs:89-99 | the chunk is created at `chunk_name(directory, chunk_id)` with exactly `chunk_length_bytes` bytes, and no other file changes |
| ChunkedUtils.ChunkMapOfTwo | lib/segment/src/vector_storage/chunked_utils.rs:61-63 | two matching entries insert in listing order, so the second wins on equal ids |
| ChunkedUtils.ReadMmapsMissingChunk | lib/segment/src/vector_storage/chunked_utils.rs:69-75 | a directory with chunks 0 and 2 fails, naming chunk 1 |
| ChunkedUtils.ReadMmapsDuplicateId | lib/segment/src/vector_storage/chunked_utils.rs:62-67 | `chunk_0.mmap` then `chunk_00.mmap` count as one chunk, and the later file is used |
| ChunkedUtils.ListDirectory | lib/segment/src/vector_storage/chunked_utils.rs:52-54 | `read_dir` yields one regular-file entry per file directly inside the directory, each name once, in an order left open |
| ChunkedUtils.SoleFileListing | lib/segment/src/vector_storage/chunked_utils.rs:52-54 | a directory holding a single file lists exactly that file |
| ChunkedUtils.CreateThenReadMmaps | lib/segment/src/vector_storage/chunked_utils.rs:50-99 | in a directory holding no file, creating chunk 0 and then listing and reading the directory gives exactly that chunk. The chunk is zero-filled at the requested length, and every other file is unchanged |
| MmapFlags.StatusFile | lib/segment/src/vector_storage/dynamic_mmap_flags.rs:30-32 | the status file lies directly inside the directory and is named `status.dat` |
| MmapFlags.DynamicMmapStatus | lib/segment/src/vector_storage/dynamic_mmap_flags.rs:86-90 | the status record: the number of valid flags and the active slot |
| MmapFlags.FileId.FileName | lib/segment/src/vector_storage/dynamic_mmap_flags.rs:77-83 | each slot's file is `flags_a.dat` or `flags_b.dat`, never the status file |
| MmapFlags.FileId.Rotate | lib/segment/src/vector_storage/dynamic_mmap_flags.rs:70-75 | rotation always gives the other slot, whose file name differs |
| MmapFlags.RotateInvolutive | lib/segment/src/vector_storage/dynamic_mmap_flags.rs:67-84 | rotating twice gives the original slot; A rotates to B and B to A |
| MmapFlags.Zeros | lib/segment/src/vector_storage/dynamic_mmap_flags.rs:183 | `n` flags, all false |
| MmapFlags.FlagsDirectory.Empty | lib/segment/src/vector_storage/dynamic_mmap_flags.rs:133-134 | a store directory with no status file and no slot files |
| MmapFlags.FlagsDirectory.EnsureStatusFile | lib/segment/src/vector_storage/dynamic_mmap_flags.rs:92-102 | an absent status file is created all zero (length 0, slot A); an existing one is read as it is |
| MmapFlags.FlagsDirectory.CreateAndEnsureLength | lib/segment/src/vector_storage/dynamic_mmap_flags.rs:161-163 | the slot file is created if absent and resized to `8 * bytes` bits, clear beyond its old contents; other slots are untouched |
| MmapFlags.FlagsDirectory.Copy | lib/segment/src/vector_storage/dynamic_mmap_flags.rs:209-210 | the destination slot becomes an exact copy of the source slot; nothing else changes |
| MmapFlags.FlagsDirectory.WriteSlot | lib/segment/src/vector_storage/dynamic_mmap_flags.rs:49-54 | flushing a slot's mapping makes its bits that slot's durable contents |
| MmapFlags.FlagsDirectory.WriteStatus | lib/segment/src/vector_storage/dynamic_mmap_flags.rs:252-262 | flushing the status mapping makes the record durable |
| MmapFlags.DynamicMmapFlags.Flags | lib/segment/src/vector_storage/dynamic_mmap_flags.rs:104-109 | the logical flag vector has exactly `len` flags |
| MmapFlags.DynamicMmapFlags.FileIdToFile | lib/segment/src/vector_storage/dynamic_mmap_flags.rs:125-127 | a slot's file lies directly inside the store directory and is named by the slot |
| MmapFlags.DynamicMmapFlags.Open | lib/segment/src/vector_storage/dynamic_mmap_flags.rs:133-148 | the status is the durable one, or all zero when there was none. The active slot's file is created or resized for that length, and mapped with its old bits kept and new bits clear. The status becomes durable |
| MmapFlags.DynamicMmapFlags.ReopenMmap | lib/segment/src/vector_storage/dynamic_mmap_flags.rs:150-180 | only a slot other than the mapped one may be opened while a mapping exists. The slot file is sized for `numFlags` flags, and the new mapping shows its bits |
| MmapFlags.DynamicMmapFlags.Len | lib/segment/src/vector_storage/dynamic_mmap_flags.rs:129-131 | `len` is the length of the logical flag vector |
| MmapFlags.DynamicMmapFlags.Get | lib/segment/src/vector_storage/dynamic_mmap_flags.rs:220-229 | every key at or beyond `len` reads false; a key below reads the stored flag |
| MmapFlags.DynamicMmapFlags.Set | lib/segment/src/vector_storage/dynamic_mmap_flags.rs:231-250 | below `len`: returns the previous bit, after which `get(key) == value` and every other key reads as before. At or beyond `len`: returns false and changes nothing |
| MmapFlags.DynamicMmapFlags.FlushMmap | lib/segment/src/vector_storage/dynamic_mmap_flags.rs:49-54 | flushing the active mapping makes its bits the active slot's durable contents |
| MmapFlags.DynamicMmapFlags.Flush | lib/segment/src/vector_storage/dynamic_mmap_flags.rs:252-262 | the flush callback makes the active bits and then the status durable |
| MmapFlags.DynamicMmapFlags.SetLen | lib/segment/src/vector_storage/dynamic_mmap_flags.rs:182-218 | see the four cases listed below the table |
| MmapFlags.DynamicMmapFlags.RotateAndGrow | lib/segment/src/vector_storage/dynamic_mmap_flags.rs:200-214 | the old slot durably holds the old bits. The other slot becomes active and holds them as a prefix, followed by clear bits up to the new capacity. The status names that slot with the new length |
| MmapFlags.DynamicMmapFlags.Files | lib/segment/src/vector_storage/dynamic_mmap_flags.rs:268-273 | the store's files are the status file and the active slot's file, never the inactive slot's |
| MmapFlags.FlushThenReopen | lib/segment/src/vector_storage/dynamic_mmap_flags.rs:327-337 | flushing and then opening the directory again reads back the same length, slot and every flag |
| MmapFlags.SetChosen | lib/segment/src/vector_storage/dynamic_mmap_flags.rs:297-301 | setting the chosen clear flags one by one sets exactly them, and every `set` returns false |
| MmapFlags.OpenAndGrow | lib/segment/src/vector_storage/dynamic_mmap_flags.rs:294-295 | from an empty directory with the 128-byte minimum, opening and growing to 5000 flags lands on slot B with every flag false |
| MmapFlags.OpenGrowAndSet | lib/segment/src/vector_storage/dynamic_mmap_flags.rs:294-312 | from an empty directory with the 128-byte minimum, growing to 5000 flags lands on slot B, and the flags read back as set |
| MmapFlags.GrowAndSetComplement | lib/segment/src/vector_storage/dynamic_mmap_flags.rs:314-325 | growing on to 10000 flags lands on slot A. The first half is kept, and the second half holds the complement |
| MmapFlags.TestBitflagsSaving | lib/segment/src/vector_storage/dynamic_mmap_flags.rs:286-338 | after both halves, a flush and a reopen, the store has length 10000 on slot A. Every flag `i` reads `random[i]`, and flag `5000 + i` reads its negation |
| MmapFlags.RotateTwiceWithoutFlush | lib/segment/src/vector_storage/dynamic_mmap_flags.rs:200-216 | two rotations without a flush come back to the slot the durable status names. Its file is rewritten while that status is still the all-zero record |
| MmapFlags.SetBetweenRotations | lib/segment/src/vector_storage/dynamic_mmap_flags.rs:200-216 | a flag set on slot B between two unflushed rotations is copied onto slot A, whose durable status still has length 0 |
| MmapFlags.ReopenWithStaleBit | lib/segment/src/vector_storage/dynamic_mmap_flags.rs:133-148 | reopening from that durable state gives length 0 on slot A with flag 5 set beyond the length, so `TailClear` fails |
| MmapFlags.StaleBitAfterReopen | lib/segment/src/vector_storage/dynamic_mmap_flags.rs:182-218 | growing the reopened store to 10 flags reads flag 5 as true, although it is one of the grown flags |

`MmapFlags.DynamicMmapFlags.SetLen` states one outcome per case:

- **Shorter:** the shrink error, and nothing changes.
- **Equal:** `Ok`, and nothing changes.
- **Within the current capacity:** only `len` changes, and the slot, the
  file and every slot's durable contents stay the same.
- **Past the capacity:** exactly one rotation, however many boundaries are
  crossed, so the new status is `(newLen, old slot rotated)`. The old slot
  durably holds the old bits. The new active file is a fresh mapping: the
  old bits, then clear bits. The durable status is not written.

In every case the first `old len` flags survive. Under the invariant that
bits beyond `len` are clear, the new flags are the old ones followed by
`newLen - len` false flags.

## Left out

- I/O failures are not modelled. Every `?`, the `IoError` paths of
  create, open, map, copy and flush, assume that file operations succeed.
- Real files and mappings are not modelled: `create_dir_all`,
  `open_write_mmap`, `mmap_to_bitslice`, the `MmapType`/`MmapSlice`
  overlays, and the unsafe `'static` lifetime of the bit slice. Files are
  maps from slots or paths to bits or bytes.
- `ChunkedUtils.ReadMmaps` takes the directory listing as an input, in any
  order. `ChunkedUtils.ListDirectory` models `read_dir` only over the flat
  file system of the chunk scenarios. The order it yields is left open, and
  so is the entry kind: every entry there is a regular file.
- `advise(WillNeed)` is a performance hint with no effect on contents.
- The `Arc<Mutex<…>>` cell behind the flusher is left out, along with the
  cross-thread use of a flusher obtained earlier. The flusher is modelled
  as the action it performs when it is invoked, on the store's current
  mapping.
- `MmapChunk::data`, `data_mut` and `flusher` are left out, as are the
  float element type and `MmapChunk::new`. A chunk is represented by the
  path it maps.
- `get_bitslice` is left out: it only exposes the mapping, and its
  `unwrap` cannot fail on an open store.
- Debug assertions are modelled with release-build semantics.
  `set_len` below the length returns the error, and `set` beyond the
  length is ignored, as the code does when assertions are off. The
  assertion in `reopen_mmap` is kept as `ReopenMmap`'s precondition,
  because every caller in the Rust code meets it.
- `MmapCapacity.NextPowerOfTwo`: does not model `usize` overflow of
  `next_power_of_two`. Integers are unbounded, and flag counts are `nat`.
- `MmapCapacity.MmapCapacityBytes`: does not model `usize` wrap-around of
  `div_ceil(num_flags, 8)` (line 113) or of the product
  `mmap_capacity_bytes * 8` in `mmap_max_current_size` (line 121); both
  are exact here.
- `Decimal.ParseUsize`: the largest `usize` is that of a 64-bit target;
  narrower `usize` targets are not modelled.
- The generic `TKey: AsPrimitive<usize>` key cast is left out; keys are
  `nat`.
- `ChunkedUtils.ReadMmaps`: does not model file names that are not valid
  UTF-8. `to_str` drops them, and in the model every name is a string.
- `MmapFlags.DynamicMmapFlags.SetLen`: the promise that grown flags are
  false holds only under `TailClear` (no bit at or beyond `len` is set).
  The code never clears such bits, and two causes can leave them in the
  active file after a system crash. First, the kernel may write mapped
  pages back before the status is flushed. Second, a second rotation before any flush copies bits set since the last
  flush onto the slot the durable status still names
  (`MmapFlags.StaleBitAfterReopen`). The contract assumes the invariant
  rather than claiming more.
- Crash recovery is not modelled as a separate operation. `Open` on the
  durable `FlagsDirectory` is the recovery.
- `MmapFlags.RotateTwiceWithoutFlush`: a rotation becomes durable only when
  the flush callback writes the status. Until then the durable status still
  names the old slot, so a second unflushed rotation copies the bits onto
  that slot. The code does this and the model follows it.
- `MmapFlags.FlagsDirectory.Copy`: the copy, the resize and the creation of
  the status file are taken as atomic and immediately durable. None of them
  syncs. A crash that loses or tears one of them, or any crash inside
  `set_len`, is not modelled. This matters for the second rotation of
  `MmapFlags.RotateTwiceWithoutFlush`, which overwrites the slot the durable
  status names.
