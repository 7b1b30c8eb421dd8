/** The part of the file system the fetchers touch: a set of directories and a map from
    file path to contents. Paths are strings joined with "/". */
module FileStore {
  import opened Wrappers

  type Bytes = seq<bv8>

  /** `ZipFile(...)` read back as its members, or None for BadZipFile. */
  type Unzip = Bytes -> Option<map<string, Bytes>>

  function Join(dir: string, name: string): string
  {
    dir + "/" + name
  }

  /** Where `extractall(dir)` puts each archive member. */
  function Placed(dir: string, members: map<string, Bytes>): (r: map<string, Bytes>)
    ensures forall m :: m in members ==> Join(dir, m) in r && r[Join(dir, m)] == members[m]
    ensures forall p :: p in r ==> exists m :: m in members && p == Join(dir, m)
  {
    var paths := set m | m in members :: Join(dir, m);
    map p | p in paths :: members[p[|dir| + 1..]]
  }

  class Disk {
    var dirs: set<string>
    var files: map<string, Bytes>

    constructor (dirs0: set<string>, files0: map<string, Bytes>)
      ensures dirs == dirs0 && files == files0
    {
      dirs, files := dirs0, files0;
    }

    /** `mkdir(exist_ok=True)`. */
    method MakeDir(d: string)
      modifies this
      ensures dirs == old(dirs) + {d} && files == old(files)
    {
      dirs := dirs + {d};
    }

    /** `open(path, "wb").write(content)`. */
    method WriteFile(path: string, content: Bytes)
      modifies this
      ensures files == old(files)[path := content] && dirs == old(dirs)
    {
      files := files[path := content];
    }

    /** `ZipFile.extractall(dir)` with the archive's members already decoded. */
    method ExtractAll(dir: string, members: map<string, Bytes>)
      modifies this
      ensures files == old(files) + Placed(dir, members) && dirs == old(dirs)
    {
      files := files + Placed(dir, members);
    }
  }
}
