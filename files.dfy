/**
 * The album file record, the local filesystem and file validation
 * (Json/PageData.cs: AlbumFile; Program.cs: both TestFile overloads).
 */
module Files {
  import opened Wrappers

  /** The fields of an album entry the downloader reads (Json/PageData.cs:29-42). */
  datatype AlbumFile = AlbumFile(name: string, size: int, cdn: string)

  /** The local filesystem: every existing file path with its byte length. */
  class Disk {
    var files: map<string, nat>

    constructor (initial: map<string, nat>)
      ensures files == initial
    {
      files := initial;
    }

    /** `File.Exists`. */
    predicate Exists(path: string)
      reads this
    {
      path in files
    }

    /** `FileInfo.Length` of an existing file. */
    function Length(path: string): nat
      reads this
      requires Exists(path)
    {
      files[path]
    }

    /** `File.Delete`, which does nothing when there is no file. */
    method Delete(path: string)
      modifies this
      ensures files == old(files) - {path}
    {
      files := files - {path};
    }

    /** A transfer into `path`: it leaves a file of the given length, or none. */
    method Store(path: string, length: Option<nat>)
      modifies this
      ensures files == Stored(old(files), path, length)
    {
      files := Stored(files, path, length);
    }
  }

  /** The disk after a transfer into `path` that leaves `length` bytes, or no file. */
  function Stored(files: map<string, nat>, path: string, length: Option<nat>): (r: map<string, nat>)
    ensures path in r <==> length.Some?
    ensures length.Some? ==> r[path] == length.value
    ensures r - {path} == files - {path}
  {
    if length.Some? then files[path := length.value] else files - {path}
  }

  predicate IsSeparator(c: char)
  {
    c == '\\' || c == '/'
  }

  /** `Path.IsPathRooted` on Windows. */
  predicate IsRooted(p: string)
  {
    (1 <= |p| && IsSeparator(p[0])) || (2 <= |p| && p[1] == ':')
  }

  /** `Path.Combine(folder, name)` on Windows. */
  function Combine(folder: string, name: string): (r: string)
    ensures folder != [] && name != [] && !IsRooted(name) ==>
      && |folder| + |name| <= |r| && r[..|folder|] == folder && r[|r| - |name|..] == name
    ensures IsRooted(name) || folder == [] ==> r == name
    ensures name == [] ==> r == folder
    ensures folder != [] && name != [] && !IsRooted(name) ==>
      r == if IsSeparator(folder[|folder| - 1]) || folder[|folder| - 1] == ':' then folder + name else folder + "\\" + name
  {
    if name == [] then folder
    else if folder == [] then name
    else if IsRooted(name) then name
    else
      var last := folder[|folder| - 1];
      if IsSeparator(last) || last == ':' then folder + name else folder + "\\" + name
  }

  /** Combining one folder with two different relative names gives two different paths. */
  lemma CombineInjective(folder: string, a: string, b: string)
    requires folder != [] && a != [] && b != [] && !IsRooted(a) && !IsRooted(b)
    requires Combine(folder, a) == Combine(folder, b)
    ensures a == b
  {
    var last := folder[|folder| - 1];
    var prefix := if IsSeparator(last) || last == ':' then folder else folder + "\\";
    assert Combine(folder, a) == prefix + a && Combine(folder, b) == prefix + b;
    assert a == (prefix + a)[|prefix|..];
    assert b == (prefix + b)[|prefix|..];
  }

  /** The length TestFile reports through `detectedFileLength`. */
  function Probe(files: map<string, nat>, path: string): (r: Option<nat>)
    ensures r.None? <==> path !in files
    ensures r.Some? ==> r.value == files[path]
  {
    if path in files then Some(files[path]) else None
  }

  /** What TestFile answers: a file exists at `path` with exactly `file.size` bytes. */
  predicate Passes(files: map<string, nat>, file: AlbumFile, path: string)
  {
    Probe(files, path) == Some(file.size)
  }

  /** The disk after TestFile: a wrong-sized file is deleted when `delete` holds. */
  function AfterTest(files: map<string, nat>, file: AlbumFile, path: string, delete: bool): (r: map<string, nat>)
    ensures r - {path} == files - {path}
    ensures path in r ==> path in files && r[path] == files[path]
    ensures Passes(files, file, path) ==> r == files
    ensures !delete ==> r == files
    ensures delete ==> (path in r <==> Passes(files, file, path))
  {
    if path in files && files[path] != file.size && delete then files - {path} else files
  }

  /**
   * TestFile with the `detectedFileLength` out parameter (Program.cs:394-413).
   */
  method TestFile(disk: Disk, file: AlbumFile, localFilePath: string, delete: bool)
    returns (success: bool, detectedFileLength: Option<nat>)
    modifies disk
    ensures success <==> Passes(old(disk.files), file, localFilePath)
    ensures detectedFileLength == Probe(old(disk.files), localFilePath)
    ensures disk.files == AfterTest(old(disk.files), file, localFilePath, delete)
  {
    detectedFileLength := None;
    if !disk.Exists(localFilePath) {
      return false, detectedFileLength;
    }
    detectedFileLength := Some(disk.Length(localFilePath));
    success := detectedFileLength.value == file.size;
    if !success && delete {
      disk.Delete(localFilePath);
    }
  }

  /** TestFile without the length (Program.cs:381-384). */
  method TestFileOnly(disk: Disk, file: AlbumFile, localFilePath: string, delete: bool)
    returns (success: bool)
    modifies disk
    ensures success <==> Passes(old(disk.files), file, localFilePath)
    ensures disk.files == AfterTest(old(disk.files), file, localFilePath, delete)
  {
    var ignored;
    success, ignored := TestFile(disk, file, localFilePath, delete);
  }
}
