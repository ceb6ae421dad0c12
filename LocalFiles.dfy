/** The local side: a directory tree seen as a name-keyed map of file
    contents, the enumeration `Directory.EnumerateFiles` yields, and the
    two file-system writes the pull driver performs. */
module LocalFiles {
  import opened BlobTypes

  predicate IsSeparator(c: char)
  {
    c == '/' || c == '\\'
  }

  /** `Replace("\\", "/")` on a root-relative path. */
  function Normalize(p: string): (r: string)
    ensures |r| == |p|
    ensures forall i :: 0 <= i < |p| ==> r[i] == (if p[i] == '\\' then '/' else p[i])
  {
    if p == [] then [] else [if p[0] == '\\' then '/' else p[0]] + Normalize(p[1..])
  }

  lemma NormalizeIsCanonical(p: string)
    ensures '\\' !in Normalize(p)
    ensures Normalize(Normalize(p)) == Normalize(p)
    ensures '\\' !in p ==> Normalize(p) == p
  {
    var r := Normalize(p);
    assert forall i :: 0 <= i < |r| ==> r[i] != '\\';
    assert '\\' !in p ==> forall i :: 0 <= i < |p| ==> p[i] != '\\';
  }

  /** A path that names a direct child of the root. */
  predicate IsTopLevel(p: string)
  {
    forall i :: 0 <= i < |p| ==> !IsSeparator(p[i])
  }

  /** The entries of a recursive enumeration that a non-recursive one yields. */
  function TopLevel(paths: seq<string>): (r: seq<string>)
    ensures |r| <= |paths|
    ensures forall x :: x in r <==> x in paths && IsTopLevel(x)
  {
    if paths == [] then []
    else TopLevel(paths[..|paths| - 1])
         + (if IsTopLevel(paths[|paths| - 1]) then [paths[|paths| - 1]] else [])
  }

  /** What `Directory.EnumerateFiles` with `RecurseSubdirectories = recursive`
      yields, given the recursive enumeration `paths` of the tree. */
  function Enumerate(paths: seq<string>, recursive: bool): (found: seq<string>)
  {
    if recursive then paths else TopLevel(paths)
  }

  /** The bytes of a file after `File.OpenWrite` and writing `data`: the
      stream starts at offset zero but does not truncate, so bytes of a
      longer previous file survive past the end of `data`. */
  function OverwritePrefix(previous: Bytes, data: Bytes): (r: Bytes)
    ensures |r| == if |previous| <= |data| then |data| else |previous|
    ensures r[..|data|] == data
    ensures r[|data|..] == if |previous| <= |data| then [] else previous[|data|..]
  {
    if |previous| <= |data| then data else data + previous[|data|..]
  }

  lemma OverwriteExact(previous: Bytes, data: Bytes)
    requires |previous| <= |data| || previous[..|data|] == data
    ensures OverwritePrefix(previous, data) == (if |previous| <= |data| then data else previous)
  {
  }

  /** The contents a file at `name` has after it is opened for writing and
      `data` is written. */
  function Written(files: map<string, Bytes>, name: string, data: Bytes): (content: Bytes)
  {
    OverwritePrefix(if name in files then files[name] else [], data)
  }

  /** The local directory tree, keyed by root-relative forward-slash names. */
  class LocalDirectory {
    var files: map<string, Bytes>

    constructor (files: map<string, Bytes>)
      ensures this.files == files
    {
      this.files := files;
    }

    /** `Directory.CreateDirectory` of the parent, then `File.OpenWrite` and
        a download of `data` into the stream. */
    method WriteFile(name: string, data: Bytes)
      modifies this
      ensures files == old(files)[name := Written(old(files), name, data)]
    {
      files := files[name := Written(files, name, data)];
    }

    /** `File.Delete`: removing a missing file is not an error. */
    method DeleteFile(name: string)
      modifies this
      ensures files == old(files) - {name}
    {
      files := files - {name};
    }
  }
}
