/**
 * The growable persistent bit-flag store. Flags live in one of two slot
 * files (A and B); a small status record names the active slot and the
 * number of valid flags. Growing past the active file's capacity copies
 * the active file onto the other slot, enlarges the copy and switches to it.
 *
 * State that the running store changes in place (the mapped status record
 * and the bit view over the active slot file) is kept in the store object.
 * The disk, once every completed file operation and flush has reached it, is
 * kept in a `FlagsDirectory`, which only flushes (and the file operations of a
 * rotation) write: it is one state a reopen after a system crash may see. The
 * kernel may write mapped pages back earlier, and a reopen after a plain
 * process restart sees the mapped state.
 */
module MmapFlags {
  import opened Wrappers
  import opened Disk
  import opened MmapCapacity

  const FLAGS_FILE_A: string := "flags_a.dat"
  const FLAGS_FILE_B: string := "flags_b.dat"
  const STATUS_FILE_NAME: string := "status.dat"

  /** `status_file`: path of the status record in a store directory. */
  function StatusFile(directory: Path): (p: Path)
    ensures |p| == |directory| + 1 && p[..|directory|] == directory && FileNameOf(p) == Some(STATUS_FILE_NAME)
  {
    Join(directory, STATUS_FILE_NAME)
  }

  /** Which of the two flags files is in use; an all-zero status file means `A`. */
  datatype FileId = A | B {

    /** The other slot: rotation always targets the file not in use. */
    function Rotate(): (r: FileId)
      ensures r != this
      ensures r.FileName() != FileName()
    {
      match this
      case A => B
      case B => A
    }

    /** `file_name`: the slot's flags file, never the status file. */
    function FileName(): (name: string)
      ensures name == FLAGS_FILE_A || name == FLAGS_FILE_B
      ensures name != STATUS_FILE_NAME
    {
      match this
      case A => FLAGS_FILE_A
      case B => FLAGS_FILE_B
    }
  }

  /** Rotating twice returns to the original slot. */
  lemma RotateInvolutive(id: FileId)
    ensures id.Rotate().Rotate() == id
    ensures id.Rotate() == if id == A then B else A
  {
  }

  /** The persisted status record: number of valid flags and the active slot. */
  datatype DynamicMmapStatus = DynamicMmapStatus(len: nat, currentFileId: FileId)

  /** The record an all-zero status file holds. */
  const ZERO_STATUS: DynamicMmapStatus := DynamicMmapStatus(0, A)

  datatype FlagsError = CannotShrink(len: nat, newLen: nat)

  /** `n` cleared flags. */
  function Zeros(n: nat): (s: seq<bool>)
    ensures |s| == n && forall i :: 0 <= i < n ==> !s[i]
  {
    seq(n, _ => false)
  }

  /**
   * The contents of a store directory once every completed file operation
   * and flush has reached the disk: the status file (absent before the first
   * open) and each slot file present, as its bits.
   */
  class FlagsDirectory {
    const path: Path
    var status: Option<DynamicMmapStatus>
    var slots: map<FileId, seq<bool>>

    /** A directory with none of the store's files in it. */
    constructor Empty(path: Path)
      ensures this.path == path && status == None && slots == map[]
    {
      this.path := path;
      status := None;
      slots := map[];
    }

    /** `ensure_status_file`: creates an all-zero status file if there is none, and reads it. */
    method EnsureStatusFile() returns (s: DynamicMmapStatus)
      modifies this`status
      ensures s == if old(status).Some? then old(status).value else ZERO_STATUS
      ensures status == Some(s)
    {
      if status.None? {
        status := Some(ZERO_STATUS);
      }
      s := status.value;
    }

    /** `create_and_ensure_length` on a slot file: exactly `bytes` bytes, extension cleared. */
    method CreateAndEnsureLength(id: FileId, bytes: nat)
      modifies this`slots
      ensures slots == EnsureLength(old(slots), id, 8 * bytes, false)
    {
      slots := EnsureLength(slots, id, 8 * bytes, false);
    }

    /** `std::fs::copy`: the destination slot file becomes an exact copy of the source. */
    method Copy(source: FileId, destination: FileId)
      requires source in slots
      modifies this`slots
      ensures slots == old(slots)[destination := old(slots)[source]]
    {
      slots := slots[destination := slots[source]];
    }

    /** Flushing a mapping of slot `id` makes `contents` its durable contents. */
    method WriteSlot(id: FileId, contents: seq<bool>)
      modifies this`slots
      ensures slots == old(slots)[id := contents]
    {
      slots := slots[id := contents];
    }

    /** Flushing the status mapping makes `s` the durable status. */
    method WriteStatus(s: DynamicMmapStatus)
      modifies this`status
      ensures status == Some(s)
    {
      status := Some(s);
    }
  }

  /** An open flag store over a store directory. */
  class DynamicMmapFlags {
    /** The store directory and what is durably in it. */
    const directory: FlagsDirectory
    /** The smallest flags file, in bytes (128 in debug builds, 1 MiB in release builds). */
    const minimalSize: nat
    /** The mapped status record; it reaches the directory only when flushed. */
    var status: DynamicMmapStatus
    /** The bit view over the mapped active slot file. */
    var flags: array<bool>
    /** Whether a flags file is mapped (false only while opening). */
    var mapped: bool

    /**
     * The active file is mapped and sized for the current length, and the
     * durable file of the active slot has the same size.
     */
    ghost predicate Valid()
      reads this, directory
    {
      && IsPowerOfTwo(minimalSize)
      && mapped
      && flags.Length == 8 * MmapCapacityBytes(status.len, minimalSize)
      && status.currentFileId in directory.slots
      && |directory.slots[status.currentFileId]| == flags.Length
    }

    /** The logical flag vector: the first `len` bits of the active file. */
    ghost function Flags(): (s: seq<bool>)
      reads this, flags, directory
      requires Valid()
      ensures |s| == status.len
    {
      flags[..status.len]
    }

    /**
     * Every bit of the active file beyond the logical length is clear. Under
     * this invariant, growing the store exposes only cleared flags.
     */
    ghost predicate TailClear()
      reads this, flags
    {
      forall i :: status.len <= i < flags.Length ==> !flags[i]
    }

    /** `file_id_to_file`: path of a slot file in the store directory. */
    function FileIdToFile(fileId: FileId): (p: Path)
      ensures |p| == |directory.path| + 1 && p[..|directory.path|] == directory.path && FileNameOf(p) == Some(fileId.FileName())
    {
      Join(directory.path, fileId.FileName())
    }

    /**
     * `open`: reads the status file (creating an all-zero one if absent)
     * and maps the slot it names, sized for its length.
     */
    constructor Open(directory: FlagsDirectory, minimalSize: nat)
      requires IsPowerOfTwo(minimalSize)
      modifies directory
      ensures Valid() && fresh(flags)
      ensures this.directory == directory && this.minimalSize == minimalSize
      ensures status == if old(directory.status).Some? then old(directory.status).value else ZERO_STATUS
      ensures flags[..] == Resize(Lookup(old(directory.slots), status.currentFileId), flags.Length, false)
      ensures directory.status == Some(status)
      ensures directory.slots == old(directory.slots)[status.currentFileId := flags[..]]
    {
      this.directory := directory;
      this.minimalSize := minimalSize;
      var s := directory.EnsureStatusFile();
      status := s;
      flags := new bool[0];
      mapped := false;
      new;
      ReopenMmap(status.len, status.currentFileId);
    }

    /**
     * `reopen_mmap`: sizes the slot file for `numFlags` flags and maps it,
     * replacing the current mapping. Only a slot other than the active one
     * may be opened while a mapping is open.
     */
    method ReopenMmap(numFlags: nat, currentFileId: FileId)
      requires IsPowerOfTwo(minimalSize)
      requires !mapped || currentFileId != status.currentFileId
      modifies this`flags, this`mapped, directory`slots
      ensures mapped && fresh(flags)
      ensures flags.Length == 8 * MmapCapacityBytes(numFlags, minimalSize)
      ensures flags[..] == Resize(Lookup(old(directory.slots), currentFileId), flags.Length, false)
      ensures directory.slots == old(directory.slots)[currentFileId := flags[..]]
    {
      var capacityBytes := MmapCapacityBytes(numFlags, minimalSize);
      directory.CreateAndEnsureLength(currentFileId, capacityBytes);
      var contents := directory.slots[currentFileId];
      var view := new bool[|contents|](i requires 0 <= i < |contents| => contents[i]);
      assert view[..] == contents;
      flags := view;
      mapped := true;
    }

    /** `len`: the number of valid flags. */
    function Len(): (n: nat)
      reads this, flags, directory
      requires Valid()
      ensures n == |Flags()|
    {
      status.len
    }

    /** `get`: the flag at `key`; every key at or beyond the length reads as false. */
    function Get(key: nat): (b: bool)
      reads this, flags, directory
      requires Valid()
      ensures key >= status.len ==> !b
      ensures key < status.len ==> b == Flags()[key]
    {
      if key >= status.len then false else flags[key]
    }

    /**
     * `set`: replaces the flag at `key` and returns its previous value; a
     * key at or beyond the length is ignored and reads as false.
     */
    method Set(key: nat, value: bool) returns (previous: bool)
      requires Valid()
      modifies flags
      ensures Valid()
      ensures key < status.len ==> previous == old(flags[key]) && flags[..] == old(flags[..])[key := value]
      ensures key >= status.len ==> !previous && flags[..] == old(flags[..])
      ensures key < status.len ==> Get(key) == value
      ensures forall k :: k != key ==> Get(k) == old(Get(k))
      ensures old(TailClear()) ==> TailClear()
    {
      if key >= status.len {
        return false;
      }
      previous := flags[key];
      flags[key] := value;
    }

    /** `RemovableMmap::flush`: the active mapping's bits become the active slot's durable contents. */
    method FlushMmap()
      requires Valid()
      modifies directory`slots
      ensures Valid()
      ensures directory.slots == old(directory.slots)[status.currentFileId := flags[..]]
    {
      directory.WriteSlot(status.currentFileId, flags[..]);
    }

    /**
     * The callback `flusher` returns, run at the moment it is invoked: the
     * active mapping is flushed first, then the status record.
     */
    method Flush()
      requires Valid()
      modifies directory
      ensures Valid()
      ensures directory.slots == old(directory.slots)[status.currentFileId := flags[..]]
      ensures directory.status == Some(status)
    {
      FlushMmap();
      directory.WriteStatus(status);
    }

    /**
     * `set_len`. Equal length: nothing changes. Shorter: an error, nothing
     * changes. Within the active file's capacity: only the length changes.
     * Beyond it: one rotation to the other slot, whatever the number of
     * capacity boundaries crossed. The rotation flushes the active file,
     * copies it onto the other slot, enlarges the copy to the new capacity
     * and maps it; the durable status is not written.
     */
    method SetLen(newLen: nat) returns (r: Result<(), FlagsError>)
      requires Valid()
      modifies this, directory
      ensures Valid()
      ensures newLen < old(status.len) ==> r == Err(CannotShrink(old(status.len), newLen))
      ensures newLen >= old(status.len) ==> r == Ok(())
      ensures newLen <= MmapMaxCurrentSize(old(status.len), minimalSize) ==>
                && status == old(status).(len := if r.Ok? then newLen else old(status.len))
                && flags == old(flags) && flags[..] == old(flags[..])
                && directory.slots == old(directory.slots)
      ensures newLen > MmapMaxCurrentSize(old(status.len), minimalSize) ==>
                && status == DynamicMmapStatus(newLen, old(status.currentFileId).Rotate())
                && fresh(flags)
                && flags[..] == old(flags[..]) + Zeros(flags.Length - old(flags.Length))
                && directory.slots == old(directory.slots)[old(status.currentFileId) := old(flags[..])]
                                                          [status.currentFileId := flags[..]]
      ensures directory.status == old(directory.status)
      ensures r.Ok? ==> flags[..old(status.len)] == old(Flags())
      ensures old(TailClear()) ==> TailClear()
      ensures r.Ok? && old(TailClear()) ==> Flags() == old(Flags()) + Zeros(newLen - old(status.len))
    {
      if newLen == status.len {
        return Ok(());
      }
      if newLen < status.len {
        return Err(CannotShrink(status.len, newLen));
      }
      var currentCapacity := MmapMaxCurrentSize(status.len, minimalSize);
      if newLen > currentCapacity {
        RotateAndGrow(newLen);
      } else {
        CapacityStableWithinMax(status.len, newLen, minimalSize);
        status := status.(len := newLen);
      }
      r := Ok(());
    }

    /**
     * The growing branch of `set_len`: flushes the active file, copies it
     * onto the other slot, enlarges the copy for `newLen` flags and maps it
     * as the active file.
     */
    method RotateAndGrow(newLen: nat)
      requires Valid()
      requires newLen > MmapMaxCurrentSize(status.len, minimalSize)
      modifies this`status, this`flags, this`mapped, directory`slots
      ensures Valid()
      ensures status == DynamicMmapStatus(newLen, old(status.currentFileId).Rotate())
      ensures fresh(flags) && flags.Length > old(flags.Length)
      ensures flags[..] == old(flags[..]) + Zeros(flags.Length - old(flags.Length))
      ensures directory.slots == old(directory.slots)[old(status.currentFileId) := old(flags[..])]
                                                    [status.currentFileId := flags[..]]
    {
      ghost var oldFlags := flags[..];
      var oldFileId := status.currentFileId;
      var newFileId := oldFileId.Rotate();
      FlushMmap();
      directory.Copy(oldFileId, newFileId);
      CapacityGrowsPastMax(status.len, newLen, minimalSize);
      ReopenMmap(newLen, newFileId);
      status := DynamicMmapStatus(newLen, newFileId);
      assert flags[..] == oldFlags + Zeros(flags.Length - |oldFlags|);
    }

    /** `files`: the status file and the active slot file, never the inactive slot. */
    function Files(): (files: seq<Path>)
      reads this
      ensures files == [StatusFile(directory.path), FileIdToFile(status.currentFileId)]
      ensures FileIdToFile(status.currentFileId.Rotate()) !in files
    {
      [StatusFile(directory.path), FileIdToFile(status.currentFileId)]
    }
  }

  /**
   * Flushing and then opening the same directory again reads back the
   * length, the active slot and every flag.
   */
  method FlushThenReopen(store: DynamicMmapFlags) returns (reopened: DynamicMmapFlags)
    requires store.Valid()
    modifies store.directory
    ensures store.Valid() && reopened.Valid()
    ensures reopened.directory == store.directory && reopened.minimalSize == store.minimalSize
    ensures reopened.status == store.status
    ensures reopened.flags[..] == store.flags[..]
    ensures reopened.Flags() == store.Flags()
    ensures forall k :: reopened.Get(k) == store.Get(k)
    ensures store.TailClear() ==> reopened.TailClear()
  {
    store.Flush();
    reopened := new DynamicMmapFlags.Open(store.directory, store.minimalSize);
  }

  /**
   * The setting loop of `test_bitflags_saving`: sets, one by one, each
   * flag `offset + i` for which `chosen[i]` holds. Each of those flags is
   * clear beforehand, so every `set` returns false.
   */
  method SetChosen(store: DynamicMmapFlags, offset: nat, chosen: seq<bool>)
    requires store.Valid() && store.TailClear()
    requires offset + |chosen| <= store.status.len
    requires forall j :: offset <= j < offset + |chosen| ==> !store.flags[j]
    modifies store.flags
    ensures store.Valid() && store.TailClear()
    ensures forall j :: 0 <= j < store.flags.Length ==>
              store.flags[j] == if offset <= j < offset + |chosen| then chosen[j - offset] else old(store.flags[j])
  {
    var i := 0;
    while i < |chosen|
      invariant 0 <= i <= |chosen|
      invariant store.Valid() && store.TailClear()
      invariant forall j :: 0 <= j < store.flags.Length ==>
                  store.flags[j] == if offset <= j < offset + i then chosen[j - offset] else old(store.flags[j])
    {
      if chosen[i] {
        var previous := store.Set(offset + i, true);
        assert !previous;
      }
      i := i + 1;
    }
  }

  /**
   * The start of `test_bitflags_saving`, with the 128-byte minimum: from
   * an empty directory, open and grow to 5000 flags (one rotation, onto
   * slot B). Every flag reads false.
   */
  method OpenAndGrow(directory: FlagsDirectory) returns (store: DynamicMmapFlags)
    requires directory.status.None? && directory.slots == map[]
    modifies directory
    ensures fresh(store) && fresh(store.flags) && store.directory == directory
    ensures store.Valid() && store.TailClear() && store.minimalSize == DEBUG_MINIMAL_MMAP_SIZE
    ensures store.status == DynamicMmapStatus(5000, B)
    ensures store.Flags() == Zeros(5000)
  {
    MinimalSizesArePowersOfTwo();
    assert MmapMaxCurrentSize(0, DEBUG_MINIMAL_MMAP_SIZE) == 1024;
    store := new DynamicMmapFlags.Open(directory, DEBUG_MINIMAL_MMAP_SIZE);
    assert store.status == ZERO_STATUS && store.TailClear();
    var r := store.SetLen(5000);
  }

  /**
   * First half of `test_bitflags_saving`: after growing to 5000 flags on
   * slot B, set the flags `randomFlags` chooses.
   */
  method OpenGrowAndSet(directory: FlagsDirectory, randomFlags: seq<bool>) returns (store: DynamicMmapFlags)
    requires directory.status.None? && directory.slots == map[]
    requires |randomFlags| == 5000
    modifies directory
    ensures fresh(store) && fresh(store.flags) && store.directory == directory
    ensures store.Valid() && store.TailClear() && store.minimalSize == DEBUG_MINIMAL_MMAP_SIZE
    ensures store.status == DynamicMmapStatus(5000, B)
    ensures store.Flags() == randomFlags
  {
    store := OpenAndGrow(directory);
    assert forall j :: 0 <= j < 5000 ==> store.Flags()[j] == Zeros(5000)[j];
    SetChosen(store, 0, randomFlags);
    assert store.Flags() == randomFlags;
  }

  /**
   * Second half of the saving test: grow to 10000 flags (one rotation, back
   * onto slot A) and set the flags of the second half that `randomFlags`
   * leaves clear in the first.
   */
  method GrowAndSetComplement(store: DynamicMmapFlags, randomFlags: seq<bool>)
    requires store.Valid() && store.TailClear() && store.minimalSize == DEBUG_MINIMAL_MMAP_SIZE
    requires store.status == DynamicMmapStatus(5000, B)
    requires store.Flags() == randomFlags
    modifies store, store.directory
    ensures store.Valid() && store.TailClear() && fresh(store.flags)
    ensures store.status == DynamicMmapStatus(10000, A)
    ensures forall i :: 0 <= i < 5000 ==> store.flags[i] == randomFlags[i] && store.flags[5000 + i] == !randomFlags[i]
  {
    SavingScenarioCapacities();
    var numFlags := 5000;
    var r := store.SetLen(numFlags * 2);
    assert store.Flags() == randomFlags + Zeros(numFlags);
    forall j | numFlags <= j < 2 * numFlags
      ensures !store.flags[j]
    {
      assert store.Flags()[j] == Zeros(numFlags)[j - numFlags];
    }
    var complement := seq(numFlags, j requires 0 <= j < numFlags => !randomFlags[j]);
    SetChosen(store, numFlags, complement);
  }

  /**
   * `test_bitflags_saving`: both halves, then flush and reopen. The
   * reopened store has length 10000 on slot A and reads back every flag.
   */
  method TestBitflagsSaving(directory: FlagsDirectory, randomFlags: seq<bool>) returns (reopened: DynamicMmapFlags)
    requires directory.status.None? && directory.slots == map[]
    requires |randomFlags| == 5000
    modifies directory
    ensures reopened.Valid() && reopened.status == DynamicMmapStatus(10000, A)
    ensures forall i :: 0 <= i < 5000 ==> reopened.Get(i) == randomFlags[i]
    ensures forall i :: 0 <= i < 5000 ==> reopened.Get(5000 + i) == !randomFlags[i]
  {
    var store := OpenGrowAndSet(directory, randomFlags);
    GrowAndSetComplement(store, randomFlags);
    reopened := FlushThenReopen(store);
    forall i | 0 <= i < 5000
      ensures reopened.Get(i) == randomFlags[i] && reopened.Get(5000 + i) == !randomFlags[i]
    {
      assert reopened.Get(i) == store.Get(i) && reopened.Get(5000 + i) == store.Get(5000 + i);
    }
  }

  /**
   * The durability window: a second rotation before any flush targets the
   * slot the durable status still names. From an empty directory, growing
   * to 2000 flags rotates to B and growing on to 5000 rotates back to A,
   * rewriting slot A's file while the durable status still reads
   * `len = 0` on slot A.
   */
  method RotateTwiceWithoutFlush(directory: FlagsDirectory) returns (store: DynamicMmapFlags)
    requires directory.status.None? && directory.slots == map[]
    modifies directory
    ensures store.Valid() && store.status == DynamicMmapStatus(5000, A)
    ensures directory.status == Some(ZERO_STATUS)
    ensures A in directory.slots && |directory.slots[A]| == 8 * 1024
  {
    MinimalSizesArePowersOfTwo();
    SavingScenarioCapacities();
    store := new DynamicMmapFlags.Open(directory, DEBUG_MINIMAL_MMAP_SIZE);
    var r := store.SetLen(2000);
    assert store.status == DynamicMmapStatus(2000, B);
    r := store.SetLen(5000);
  }

  /**
   * As in the previous scenario, but with flag 5 set on slot B between the
   * two rotations: the second rotation copies it onto slot A, whose durable
   * status still has length 0.
   */
  method SetBetweenRotations(directory: FlagsDirectory) returns (store: DynamicMmapFlags)
    requires directory.status.None? && directory.slots == map[]
    modifies directory
    ensures store.Valid() && store.status == DynamicMmapStatus(5000, A)
    ensures directory.status == Some(ZERO_STATUS)
    ensures A in directory.slots && |directory.slots[A]| == 8 * 1024 && directory.slots[A][5]
  {
    MinimalSizesArePowersOfTwo();
    SavingScenarioCapacities();
    store := new DynamicMmapFlags.Open(directory, DEBUG_MINIMAL_MMAP_SIZE);
    var r := store.SetLen(2000);
    assert store.status == DynamicMmapStatus(2000, B);
    var previous := store.Set(5, true);
    assert store.flags[5];
    r := store.SetLen(5000);
    assert store.flags[5];
  }

  /**
   * Opening the directory again from its durable state alone, as after a
   * crash before any flush, gives length 0 on slot A with flag 5 set beyond
   * the length. Growing to 10 flags then reads flag 5 as true, although it
   * is one of the grown flags.
   */
  method StaleBitAfterReopen(directory: FlagsDirectory) returns (reopened: DynamicMmapFlags)
    requires directory.status.None? && directory.slots == map[]
    modifies directory
    ensures reopened.Valid() && reopened.status == DynamicMmapStatus(10, A)
    ensures reopened.Get(5)
  {
    var store := SetBetweenRotations(directory);
    reopened := ReopenWithStaleBit(directory);
    var r := reopened.SetLen(10);
    assert reopened.flags[5];
  }

  /** The reopen step of the previous scenario: the reopened store breaks `TailClear`. */
  method ReopenWithStaleBit(directory: FlagsDirectory) returns (reopened: DynamicMmapFlags)
    requires directory.status == Some(ZERO_STATUS)
    requires A in directory.slots && |directory.slots[A]| == 8 * 1024 && directory.slots[A][5]
    modifies directory
    ensures fresh(reopened) && reopened.Valid() && reopened.directory == directory
    ensures reopened.minimalSize == DEBUG_MINIMAL_MMAP_SIZE
    ensures reopened.status == ZERO_STATUS
    ensures reopened.flags.Length > 5 && reopened.flags[5]
    ensures !reopened.TailClear()
  {
    MinimalSizesArePowersOfTwo();
    reopened := new DynamicMmapFlags.Open(directory, DEBUG_MINIMAL_MMAP_SIZE);
    assert reopened.flags[..][5];
  }
}
