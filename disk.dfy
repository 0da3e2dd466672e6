/**
 * An abstract file system: paths as lists of components, and the effect of
 * the file primitives the storage layer relies on (create a file with an
 * exact length; extension fills with zeros).
 */
module Disk {
  import opened Wrappers

  /** A path as its list of components. */
  type Path = seq<string>

  /** `directory.join(name)`: the path of an entry inside a directory. */
  function Join(directory: Path, name: string): (p: Path)
    ensures |p| == |directory| + 1 && p[..|directory|] == directory
    ensures FileNameOf(p) == Some(name)
  {
    directory + [name]
  }

  /** `path.file_name()`: the last component, if any. */
  function FileNameOf(p: Path): (r: Option<string>)
    ensures r.Some? <==> |p| > 0
    ensures r.Some? ==> p == p[..|p| - 1] + [r.value]
  {
    if p == [] then None else Some(p[|p| - 1])
  }

  /** The contents stored under `key`, or the empty file when there is none. */
  function Lookup<K, T>(files: map<K, seq<T>>, key: K): seq<T>
  {
    if key in files then files[key] else []
  }

  /** Contents of a file truncated, or extended with `fill`, to exactly `n` units. */
  function Resize<T>(s: seq<T>, n: nat, fill: T): (r: seq<T>)
    ensures |r| == n
    ensures forall i :: 0 <= i < n ==> r[i] == if i < |s| then s[i] else fill
  {
    if n <= |s| then s[..n] else s + seq(n - |s|, _ => fill)
  }

  /**
   * The file map after `create_and_ensure_length(key, n)`: the file is
   * created if absent and then truncated or extended to `n` units.
   */
  function EnsureLength<K, T>(files: map<K, seq<T>>, key: K, n: nat, fill: T): (r: map<K, seq<T>>)
    ensures r.Keys == files.Keys + {key}
    ensures |r[key]| == n
    ensures r[key] == Resize(Lookup(files, key), n, fill)
    ensures forall k :: k in files && k != key ==> r[k] == files[k]
  {
    files[key := Resize(Lookup(files, key), n, fill)]
  }

  /** A directory tree of byte files, addressed by path. */
  class FileSystem {
    var files: map<Path, seq<bv8>>

    constructor (files: map<Path, seq<bv8>>)
      ensures this.files == files
    {
      this.files := files;
    }

    /** `create_and_ensure_length`: afterwards the file exists with exactly `length` bytes. */
    method CreateAndEnsureLength(path: Path, length: nat)
      modifies this
      ensures files == EnsureLength(old(files), path, length, 0)
    {
      files := EnsureLength(files, path, length, 0);
    }
  }
}
