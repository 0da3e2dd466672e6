/**
 * Naming and discovery of the chunk files of a chunked vector store: each
 * chunk lives in `chunk_<id>.mmap`, and a store directory is valid when the
 * distinct ids found in it are exactly 0, 1, ..., n - 1.
 */
module ChunkedUtils {
  import opened Wrappers
  import opened Disk
  import opened Decimal

  const MMAP_CHUNKS_PATTERN_START: string := "chunk_"
  const MMAP_CHUNKS_PATTERN_END: string := ".mmap"

  /** Handle of one memory-mapped chunk file, identified by the file it maps. */
  datatype MmapChunk = MmapChunk(path: Path)

  /** One entry of a directory listing: its file name and whether it is a regular file. */
  datatype DirEntry = DirEntry(name: string, isFile: bool)

  datatype ReadMmapsError = MissingChunk(chunkId: nat)

  /** `str::strip_prefix`. */
  function StripPrefix(s: string, prefix: string): (r: Option<string>)
    ensures r.Some? <==> prefix <= s
    ensures r.Some? ==> prefix + r.value == s
  {
    if prefix <= s then Some(s[|prefix|..]) else None
  }

  predicate HasSuffix(s: string, suffix: string)
  {
    |suffix| <= |s| && s[|s| - |suffix|..] == suffix
  }

  /** `str::strip_suffix`. */
  function StripSuffix(s: string, suffix: string): (r: Option<string>)
    ensures r.Some? <==> HasSuffix(s, suffix)
    ensures r.Some? ==> r.value + suffix == s
  {
    if HasSuffix(s, suffix) then Some(s[..|s| - |suffix|]) else None
  }

  /** `check_mmap_file_name_pattern`: the chunk id a file name encodes, if it has the chunk form. */
  function CheckMmapFileNamePattern(fileName: string): (r: Option<nat>)
    ensures r.Some? ==> r.value <= USIZE_MAX
    ensures r.Some? ==> MMAP_CHUNKS_PATTERN_START <= fileName && HasSuffix(fileName, MMAP_CHUNKS_PATTERN_END)
  {
    match StripPrefix(fileName, MMAP_CHUNKS_PATTERN_START)
    case None => None
    case Some(rest) =>
      match StripSuffix(rest, MMAP_CHUNKS_PATTERN_END)
      case None => None
      case Some(middle) =>
        assert fileName == MMAP_CHUNKS_PATTERN_START + middle + MMAP_CHUNKS_PATTERN_END;
        ParseUsize(middle)
  }

  /** File name of chunk `chunkId`: `chunk_<id>.mmap`. */
  function ChunkFileName(chunkId: nat): (name: string)
    ensures chunkId <= USIZE_MAX ==> CheckMmapFileNamePattern(name) == Some(chunkId)
  {
    var digits := NatToDecimal(chunkId);
    CheckPatternParsesMiddle(digits);
    if chunkId <= USIZE_MAX then ParseFormatRoundTrip(chunkId); MMAP_CHUNKS_PATTERN_START + digits + MMAP_CHUNKS_PATTERN_END
    else MMAP_CHUNKS_PATTERN_START + digits + MMAP_CHUNKS_PATTERN_END
  }

  /** `chunk_name`: path of chunk `chunkId` inside `directory`. */
  function ChunkName(directory: Path, chunkId: nat): (p: Path)
    ensures |p| == |directory| + 1 && p[..|directory|] == directory
    ensures FileNameOf(p) == Some(ChunkFileName(chunkId))
  {
    Join(directory, ChunkFileName(chunkId))
  }

  /** A name of the form `chunk_<middle>.mmap` yields whatever `parse` makes of the middle. */
  lemma CheckPatternParsesMiddle(middle: string)
    ensures CheckMmapFileNamePattern(MMAP_CHUNKS_PATTERN_START + middle + MMAP_CHUNKS_PATTERN_END)
            == ParseUsize(middle)
  {
    var name := MMAP_CHUNKS_PATTERN_START + middle + MMAP_CHUNKS_PATTERN_END;
    assert name[|MMAP_CHUNKS_PATTERN_START|..] == middle + MMAP_CHUNKS_PATTERN_END;
    var rest := middle + MMAP_CHUNKS_PATTERN_END;
    assert rest[|rest| - |MMAP_CHUNKS_PATTERN_END|..] == MMAP_CHUNKS_PATTERN_END;
    assert rest[..|rest| - |MMAP_CHUNKS_PATTERN_END|] == middle;
  }

  /**
   * Conversely, an accepted name consists of the prefix, a middle that
   * parses to the id, and the suffix.
   */
  lemma CheckPatternAcceptsOnlyChunkNames(fileName: string)
    requires CheckMmapFileNamePattern(fileName).Some?
    ensures |fileName| >= |MMAP_CHUNKS_PATTERN_START| + |MMAP_CHUNKS_PATTERN_END|
    ensures var middle := fileName[|MMAP_CHUNKS_PATTERN_START|..|fileName| - |MMAP_CHUNKS_PATTERN_END|];
            fileName == MMAP_CHUNKS_PATTERN_START + middle + MMAP_CHUNKS_PATTERN_END
            && ParseUsize(middle) == CheckMmapFileNamePattern(fileName)
  {
    var rest := fileName[|MMAP_CHUNKS_PATTERN_START|..];
    assert MMAP_CHUNKS_PATTERN_START + rest == fileName;
    var middle := rest[..|rest| - |MMAP_CHUNKS_PATTERN_END|];
    assert middle == fileName[|MMAP_CHUNKS_PATTERN_START|..|fileName| - |MMAP_CHUNKS_PATTERN_END|];
    assert rest == middle + MMAP_CHUNKS_PATTERN_END;
  }

  /** Without the `chunk_` prefix a name is refused. */
  lemma CheckPatternNeedsPrefix(fileName: string)
    requires !(MMAP_CHUNKS_PATTERN_START <= fileName)
    ensures CheckMmapFileNamePattern(fileName) == None
  {
  }

  /** Without the `.mmap` suffix a name is refused. */
  lemma CheckPatternNeedsSuffix(fileName: string)
    requires !HasSuffix(fileName, MMAP_CHUNKS_PATTERN_END)
    ensures CheckMmapFileNamePattern(fileName) == None
  {
  }

  /** The file name of every chunk path parses back to its id. */
  lemma ChunkNameRoundTrip(directory: Path, chunkId: nat)
    requires chunkId <= USIZE_MAX
    ensures FileNameOf(ChunkName(directory, chunkId)).Some?
    ensures CheckMmapFileNamePattern(FileNameOf(ChunkName(directory, chunkId)).value) == Some(chunkId)
  {
  }

  /**
   * Names other than the canonical one can encode the same id: `chunk_05.mmap`
   * and `chunk_+5.mmap` both parse to 5, like `chunk_5.mmap`, and
   * `chunk_00.mmap` parses to 0.
   */
  lemma DistinctNamesSameId()
    ensures CheckMmapFileNamePattern(MMAP_CHUNKS_PATTERN_START + "00" + MMAP_CHUNKS_PATTERN_END) == Some(0)
    ensures CheckMmapFileNamePattern(MMAP_CHUNKS_PATTERN_START + "05" + MMAP_CHUNKS_PATTERN_END) == Some(5)
    ensures CheckMmapFileNamePattern(MMAP_CHUNKS_PATTERN_START + "+5" + MMAP_CHUNKS_PATTERN_END) == Some(5)
    ensures MMAP_CHUNKS_PATTERN_START + "05" + MMAP_CHUNKS_PATTERN_END != ChunkFileName(5)
  {
    CheckPatternParsesMiddle("05");
    CheckPatternParsesMiddle("+5");
    CheckPatternParsesMiddle("00");
    assert "00"[..1] == "0" && "0"[..0] == "";
    ParseUsizeExamples();
    assert NatToDecimal(5) == "5";
    assert (MMAP_CHUNKS_PATTERN_START + "05" + MMAP_CHUNKS_PATTERN_END)[|MMAP_CHUNKS_PATTERN_START|] == '0';
    assert ChunkFileName(5)[|MMAP_CHUNKS_PATTERN_START|] == '5';
  }

  /** The chunk id a listing entry contributes: regular files with a matching name only. */
  function EntryChunkId(entry: DirEntry): (r: Option<nat>)
    ensures !entry.isFile ==> r == None
    ensures entry.isFile ==> r == CheckMmapFileNamePattern(entry.name)
    ensures r.Some? ==> r.value <= USIZE_MAX
  {
    if entry.isFile then CheckMmapFileNamePattern(entry.name) else None
  }

  /** The chunk id each entry of a listing contributes, in listing order. */
  function ListingIds(listing: seq<DirEntry>): (ids: seq<Option<nat>>)
    ensures |ids| == |listing|
    ensures forall i :: 0 <= i < |listing| ==> ids[i] == EntryChunkId(listing[i])
  {
    seq(|listing|, i requires 0 <= i < |listing| => EntryChunkId(listing[i]))
  }

  /**
   * Inserting, in listing order, each entry's path under the id it
   * contributes; a later entry with the same id replaces an earlier one.
   */
  function InsertChunks(directory: Path, listing: seq<DirEntry>, ids: seq<Option<nat>>): (m: map<nat, Path>)
    requires |ids| == |listing|
    decreases |listing|
  {
    if listing == [] then map[]
    else
      var n := |listing| - 1;
      var m := InsertChunks(directory, listing[..n], ids[..n]);
      match ids[n]
      case Some(chunkId) => m[chunkId := Join(directory, listing[n].name)]
      case None => m
  }

  /** The id-to-path map the first loop of `read_mmaps` builds from a listing. */
  function ChunkMap(directory: Path, listing: seq<DirEntry>): (m: map<nat, Path>)
    ensures forall chunkId :: chunkId in m ==> chunkId <= USIZE_MAX
  {
    var ids := ListingIds(listing);
    var m := InsertChunks(directory, listing, ids);
    assert forall chunkId :: chunkId in m ==> chunkId <= USIZE_MAX by {
      forall chunkId | chunkId in m
        ensures chunkId <= USIZE_MAX
      {
        InsertChunksEntry(directory, listing, ids, chunkId);
      }
    }
    m
  }

  /** Inserting one more entry after the others. */
  lemma InsertChunksSnoc(directory: Path, listing: seq<DirEntry>, ids: seq<Option<nat>>, entry: DirEntry, id: Option<nat>)
    requires |ids| == |listing|
    ensures InsertChunks(directory, listing + [entry], ids + [id])
            == match id
               case Some(chunkId) => InsertChunks(directory, listing, ids)[chunkId := Join(directory, entry.name)]
               case None => InsertChunks(directory, listing, ids)
  {
    assert (listing + [entry])[..|listing|] == listing;
    assert (ids + [id])[..|ids|] == ids;
  }

  /** Each entry adds at most one id, so there are never more chunks than entries. */
  lemma {:induction false} InsertChunksSize(directory: Path, listing: seq<DirEntry>, ids: seq<Option<nat>>)
    requires |ids| == |listing|
    ensures |InsertChunks(directory, listing, ids)| <= |listing|
    decreases |listing|
  {
    if listing != [] {
      var n := |listing| - 1;
      InsertChunksSize(directory, listing[..n], ids[..n]);
    }
  }

  /** Position `i` is the last one in `ids` that holds `chunkId`. */
  ghost predicate LastWithId(ids: seq<Option<nat>>, chunkId: nat, i: int)
  {
    && 0 <= i < |ids|
    && ids[i] == Some(chunkId)
    && forall k :: i < k < |ids| ==> ids[k] != Some(chunkId)
  }

  lemma {:induction false} InsertChunksEntry(directory: Path, listing: seq<DirEntry>, ids: seq<Option<nat>>, chunkId: nat)
    requires |ids| == |listing|
    ensures chunkId in InsertChunks(directory, listing, ids)
            <==> exists i :: 0 <= i < |ids| && ids[i] == Some(chunkId)
    ensures chunkId in InsertChunks(directory, listing, ids)
            ==> exists i :: LastWithId(ids, chunkId, i)
                            && InsertChunks(directory, listing, ids)[chunkId] == Join(directory, listing[i].name)
    decreases |listing|
  {
    if listing != [] {
      var n := |listing| - 1;
      var init, initIds := listing[..n], ids[..n];
      InsertChunksEntry(directory, init, initIds, chunkId);
      if ids[n] == Some(chunkId) {
        assert LastWithId(ids, chunkId, n);
      } else if chunkId in InsertChunks(directory, init, initIds) {
        var i :| LastWithId(initIds, chunkId, i)
                 && InsertChunks(directory, init, initIds)[chunkId] == Join(directory, init[i].name);
        assert LastWithId(ids, chunkId, i);
      } else {
        forall i | 0 <= i < |ids|
          ensures ids[i] != Some(chunkId)
        {
          if i < n {
            assert ids[i] == initIds[i];
          }
        }
      }
    }
  }

  /**
   * An id is in the map exactly when some regular, matching entry encodes
   * it, and it maps to the path of the last such entry.
   */
  lemma ChunkMapEntry(directory: Path, listing: seq<DirEntry>, chunkId: nat)
    ensures chunkId in ChunkMap(directory, listing)
            <==> exists i :: 0 <= i < |listing| && EntryChunkId(listing[i]) == Some(chunkId)
    ensures chunkId in ChunkMap(directory, listing)
            ==> exists i :: LastWithId(ListingIds(listing), chunkId, i)
                            && ChunkMap(directory, listing)[chunkId] == Join(directory, listing[i].name)
  {
    InsertChunksEntry(directory, listing, ListingIds(listing), chunkId);
  }

  lemma {:induction false} InsertChunksSkipsNone(directory: Path, before: seq<DirEntry>, entry: DirEntry, after: seq<DirEntry>,
                                                  beforeIds: seq<Option<nat>>, afterIds: seq<Option<nat>>)
    requires |beforeIds| == |before| && |afterIds| == |after|
    ensures InsertChunks(directory, before + [entry] + after, beforeIds + [None] + afterIds)
            == InsertChunks(directory, before + after, beforeIds + afterIds)
    decreases |after|
  {
    var with, withIds := before + [entry] + after, beforeIds + [None] + afterIds;
    var without, withoutIds := before + after, beforeIds + afterIds;
    if after == [] {
      assert with[..|with| - 1] == before && withIds[..|withIds| - 1] == beforeIds;
      assert without == before && withoutIds == beforeIds;
    } else {
      var n := |after| - 1;
      InsertChunksSkipsNone(directory, before, entry, after[..n], beforeIds, afterIds[..n]);
      assert with[..|with| - 1] == before + [entry] + after[..n];
      assert withIds[..|withIds| - 1] == beforeIds + [None] + afterIds[..n];
      assert without[..|without| - 1] == before + after[..n];
      assert withoutIds[..|withoutIds| - 1] == beforeIds + afterIds[..n];
      assert with[|with| - 1] == after[n] == without[|without| - 1];
      assert withIds[|withIds| - 1] == afterIds[n] == withoutIds[|withoutIds| - 1];
    }
  }

  /**
   * An entry that is not a regular file, or whose name does not match the
   * chunk pattern, can be dropped from the listing without effect.
   */
  lemma ChunkMapIgnoresNonMatching(directory: Path, before: seq<DirEntry>, entry: DirEntry, after: seq<DirEntry>)
    requires EntryChunkId(entry) == None
    ensures ChunkMap(directory, before + [entry] + after) == ChunkMap(directory, before + after)
  {
    assert ListingIds(before + [entry] + after) == ListingIds(before) + [None] + ListingIds(after);
    assert ListingIds(before + after) == ListingIds(before) + ListingIds(after);
    InsertChunksSkipsNone(directory, before, entry, after, ListingIds(before), ListingIds(after));
  }

  /** The ids 0, ..., n - 1. */
  function IdRange(n: nat): (r: set<nat>)
    ensures forall i: nat :: i in r <==> i < n
    ensures |r| == n
  {
    if n == 0 then {} else IdRange(n - 1) + {n - 1}
  }

  /**
   * The contiguity test of `read_mmaps` (every id below the number of
   * distinct ids is present) holds exactly when the ids are 0, ..., n - 1
   * for some n, and then n is the number of distinct ids.
   */
  lemma DenseIffRange(m: map<nat, Path>, n: nat)
    ensures (forall i :: 0 <= i < |m| ==> i in m) <==> m.Keys == IdRange(|m|)
    ensures m.Keys == IdRange(n) ==> n == |m|
  {
    var range := IdRange(|m|);
    if forall i :: 0 <= i < |m| ==> i in m {
      assert range <= m.Keys;
      assert |m.Keys - range| == |m.Keys| - |range|;
      assert m.Keys - range == {};
    }
  }

  /**
   * The first loop of `read_mmaps`: each regular file whose name encodes a
   * chunk id is inserted under that id, a later file replacing an earlier one.
   */
  method CollectChunkFiles(directory: Path, listing: seq<DirEntry>) returns (mmapFiles: map<nat, Path>)
    ensures mmapFiles == ChunkMap(directory, listing)
  {
    ghost var ids := ListingIds(listing);
    mmapFiles := map[];
    var k := 0;
    while k < |listing|
      invariant 0 <= k <= |listing|
      invariant mmapFiles == InsertChunks(directory, listing[..k], ids[..k])
    {
      var entry := listing[k];
      if entry.isFile {
        var path := Join(directory, entry.name);
        var chunkId := match FileNameOf(path)
          case Some(fileName) => CheckMmapFileNamePattern(fileName)
          case None => None;
        assert chunkId == ids[k];
        if chunkId.Some? {
          mmapFiles := mmapFiles[chunkId.value := path];
        }
      }
      assert listing[..k + 1][..k] == listing[..k] && ids[..k + 1][..k] == ids[..k];
      k := k + 1;
    }
    assert listing[..k] == listing && ids[..k] == ids;
  }

  /**
   * The second loop of `read_mmaps`: takes the files for ids 0, 1, ... out
   * of the map in order, failing at the first id below the map's size that
   * is missing.
   */
  method TakeChunksInOrder(found: map<nat, Path>) returns (r: Result<seq<MmapChunk>, ReadMmapsError>)
    ensures r.Ok? <==> forall i :: 0 <= i < |found| ==> i in found
    ensures r.Ok? ==> |r.value| == |found| && forall i :: 0 <= i < |r.value| ==> r.value[i] == MmapChunk(found[i])
    ensures r.Err? ==> r.error.chunkId < |found| && r.error.chunkId !in found
                       && forall i :: 0 <= i < r.error.chunkId ==> i in found
  {
    var mmapFiles := found;
    var numChunks := |mmapFiles|;
    var result: seq<MmapChunk> := [];
    var chunkId := 0;
    while chunkId < numChunks
      invariant 0 <= chunkId <= numChunks
      invariant |result| == chunkId
      invariant forall i :: 0 <= i < chunkId ==> i in found && result[i] == MmapChunk(found[i])
      invariant forall i :: i in mmapFiles <==> i in found && i >= chunkId
      invariant forall i :: i in mmapFiles ==> mmapFiles[i] == found[i]
    {
      if chunkId !in mmapFiles {
        assert chunkId !in found;
        return Err(MissingChunk(chunkId));
      }
      var mmapFile := mmapFiles[chunkId];
      mmapFiles := mmapFiles - {chunkId};
      result := result + [MmapChunk(mmapFile)];
      chunkId := chunkId + 1;
    }
    return Ok(result);
  }

  /**
   * `read_mmaps` over a directory listing (in the order the directory
   * yields it): the chunks in id order when the distinct ids found are
   * contiguous from 0, otherwise the smallest missing id.
   */
  method ReadMmaps(directory: Path, listing: seq<DirEntry>) returns (r: Result<seq<MmapChunk>, ReadMmapsError>)
    ensures var m := ChunkMap(directory, listing);
            r.Ok? <==> forall i :: 0 <= i < |m| ==> i in m
    ensures var m := ChunkMap(directory, listing);
            r.Ok? ==> |r.value| == |m| && forall i :: 0 <= i < |r.value| ==> r.value[i] == MmapChunk(m[i])
    ensures var m := ChunkMap(directory, listing);
            r.Err? ==> r.error.chunkId < |m| && r.error.chunkId !in m
                       && forall i :: 0 <= i < r.error.chunkId ==> i in m
  {
    var mmapFiles := CollectChunkFiles(directory, listing);
    r := TakeChunksInOrder(mmapFiles);
  }

  /** `create_chunk`: the chunk file is created at the canonical name with exactly the requested length. */
  method CreateChunk(fs: FileSystem, directory: Path, chunkId: nat, chunkLengthBytes: nat) returns (chunk: MmapChunk)
    modifies fs
    ensures chunk.path == ChunkName(directory, chunkId)
    ensures fs.files == EnsureLength(old(fs.files), chunk.path, chunkLengthBytes, 0)
    ensures |fs.files[chunk.path]| == chunkLengthBytes
  {
    var chunkFilePath := ChunkName(directory, chunkId);
    fs.CreateAndEnsureLength(chunkFilePath, chunkLengthBytes);
    chunk := MmapChunk(chunkFilePath);
  }

  /** The map built from a listing of two entries that contribute ids. */
  lemma ChunkMapOfTwo(directory: Path, first: DirEntry, second: DirEntry, firstId: nat, secondId: nat)
    requires EntryChunkId(first) == Some(firstId) && EntryChunkId(second) == Some(secondId)
    ensures ChunkMap(directory, [first, second])
            == map[firstId := Join(directory, first.name)][secondId := Join(directory, second.name)]
  {
    var listing := [first, second];
    assert ListingIds(listing) == [Some(firstId), Some(secondId)];
    InsertChunksSnoc(directory, [], [], first, Some(firstId));
    InsertChunksSnoc(directory, [first], [Some(firstId)], second, Some(secondId));
    assert [] + [first] == [first] && [] + [Some(firstId)] == [Some(firstId)];
    assert [first] + [second] == listing && [Some(firstId)] + [Some(secondId)] == [Some(firstId), Some(secondId)];
  }

  /** A directory holding chunks 0 and 2 but not 1 is refused, naming chunk 1. */
  method ReadMmapsMissingChunk(directory: Path) returns (r: Result<seq<MmapChunk>, ReadMmapsError>)
    ensures r == Err(MissingChunk(1))
  {
    var listing := [DirEntry(ChunkFileName(0), true), DirEntry(ChunkFileName(2), true)];
    ChunkNameRoundTrip(directory, 0);
    ChunkNameRoundTrip(directory, 2);
    ChunkMapOfTwo(directory, listing[0], listing[1], 0, 2);
    var m := ChunkMap(directory, listing);
    assert m == map[0 := ChunkName(directory, 0), 2 := ChunkName(directory, 2)];
    assert 1 !in m && |m| == 2;
    r := ReadMmaps(directory, listing);
  }

  /** Two files encoding id 0 count once, and the later one in the listing is the chunk used. */
  method ReadMmapsDuplicateId(directory: Path) returns (r: Result<seq<MmapChunk>, ReadMmapsError>)
    ensures r == Ok([MmapChunk(Join(directory, MMAP_CHUNKS_PATTERN_START + "00" + MMAP_CHUNKS_PATTERN_END))])
  {
    var padded := MMAP_CHUNKS_PATTERN_START + "00" + MMAP_CHUNKS_PATTERN_END;
    var listing := [DirEntry(ChunkFileName(0), true), DirEntry(padded, true)];
    ChunkNameRoundTrip(directory, 0);
    DistinctNamesSameId();
    ChunkMapOfTwo(directory, listing[0], listing[1], 0, 0);
    var m := ChunkMap(directory, listing);
    assert m == map[0 := Join(directory, padded)];
    assert |m| == 1;
    r := ReadMmaps(directory, listing);
    assert r.value == [MmapChunk(Join(directory, padded))];
  }

  /** Whether `p` names an entry directly inside `directory`. */
  predicate InDirectory(directory: Path, p: Path)
  {
    |p| == |directory| + 1 && p[..|directory|] == directory
  }

  /**
   * `listing` is a listing of `directory` over `files`: one regular-file
   * entry per file directly inside the directory, each name once, in any
   * order.
   */
  ghost predicate IsListingOf(files: map<Path, seq<bv8>>, directory: Path, listing: seq<DirEntry>)
  {
    && (forall i :: 0 <= i < |listing| ==> listing[i].isFile && Join(directory, listing[i].name) in files)
    && (forall i, j :: 0 <= i < j < |listing| ==> listing[i].name != listing[j].name)
    && (forall p :: p in files && InDirectory(directory, p) ==>
          exists i :: 0 <= i < |listing| && Join(directory, listing[i].name) == p)
  }

  /** `read_dir`: the entries directly inside `directory`, in an order the model leaves open. */
  method ListDirectory(fs: FileSystem, directory: Path) returns (listing: seq<DirEntry>)
    ensures IsListingOf(fs.files, directory, listing)
  {
    var remaining := fs.files.Keys;
    listing := [];
    while remaining != {}
      invariant remaining <= fs.files.Keys
      invariant forall i :: 0 <= i < |listing| ==>
                  listing[i].isFile && Join(directory, listing[i].name) in fs.files
                  && Join(directory, listing[i].name) !in remaining
      invariant forall i, j :: 0 <= i < j < |listing| ==> listing[i].name != listing[j].name
      invariant forall p :: p in fs.files && InDirectory(directory, p) && p !in remaining ==>
                  DirEntry(p[|directory|], true) in listing && Join(directory, p[|directory|]) == p
      decreases |remaining|
    {
      var p :| p in remaining;
      if InDirectory(directory, p) {
        var name := p[|directory|];
        assert Join(directory, name) == p;
        listing := listing + [DirEntry(name, true)];
        assert Join(directory, listing[|listing| - 1].name) == p;
      }
      remaining := remaining - {p};
    }
    forall p | p in fs.files && InDirectory(directory, p)
      ensures exists i :: 0 <= i < |listing| && Join(directory, listing[i].name) == p
    {
      var i :| 0 <= i < |listing| && listing[i] == DirEntry(p[|directory|], true);
    }
  }

  /** A directory holding one file has the one-entry listing naming it. */
  lemma SoleFileListing(files: map<Path, seq<bv8>>, directory: Path, name: string, listing: seq<DirEntry>)
    requires IsListingOf(files, directory, listing)
    requires Join(directory, name) in files
    requires forall p :: p in files && InDirectory(directory, p) ==> p == Join(directory, name)
    ensures listing == [DirEntry(name, true)]
  {
    assert InDirectory(directory, Join(directory, name));
    var i :| 0 <= i < |listing| && Join(directory, listing[i].name) == Join(directory, name);
    forall j | 0 <= j < |listing|
      ensures listing[j] == listing[i] && j == i
    {
      var q := Join(directory, listing[j].name);
      assert InDirectory(directory, q);
      assert FileNameOf(q) == Some(listing[j].name);
    }
    assert listing[|listing| - 1] == listing[i];
    assert listing[0] == listing[i];
    assert listing[0] == DirEntry(name, true);
  }

  /**
   * Creating chunk 0 in a directory holding no other file, then reading the
   * directory, yields exactly that chunk, zero-filled at the requested
   * length; every other file is left as it was.
   */
  method CreateThenReadMmaps(fs: FileSystem, directory: Path, chunkLengthBytes: nat)
    returns (r: Result<seq<MmapChunk>, ReadMmapsError>)
    requires forall p :: p in fs.files ==> !InDirectory(directory, p)
    modifies fs
    ensures r == Ok([MmapChunk(ChunkName(directory, 0))])
    ensures fs.files.Keys == old(fs.files.Keys) + {ChunkName(directory, 0)}
    ensures fs.files[ChunkName(directory, 0)] == seq(chunkLengthBytes, _ => 0)
    ensures forall p :: p in old(fs.files) ==> fs.files[p] == old(fs.files[p])
  {
    var chunk := CreateChunk(fs, directory, 0, chunkLengthBytes);
    assert InDirectory(directory, chunk.path);
    var listing := ListDirectory(fs, directory);
    SoleFileListing(fs.files, directory, ChunkFileName(0), listing);
    ChunkNameRoundTrip(directory, 0);
    assert ListingIds(listing) == [Some(0)];
    InsertChunksSnoc(directory, [], [], listing[0], Some(0));
    assert [] + [listing[0]] == listing;
    assert ChunkMap(directory, listing) == map[0 := ChunkName(directory, 0)];
    r := ReadMmaps(directory, listing);
    assert r.value == [MmapChunk(ChunkName(directory, 0))];
  }
}
