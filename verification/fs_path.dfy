/** The filesystem vocabulary the repository needs: paths and directory listings. */
module FsPath {

  /**
   * `fs::path::filename()` of a path that does not end in '/': the text
   * after the last '/', or the whole text when there is none.
   */
  function FileName(s: string): string
  {
    if s == [] then []
    else if s[|s| - 1] == '/' then []
    else FileName(s[..|s| - 1]) + [s[|s| - 1]]
  }

  /** A name without separators is what `filename()` gives back after a directory and one '/'. */
  lemma {:induction false} FileNameAfterSeparator(dir: string, name: string)
    ensures '/' !in name ==> FileName(dir + "/" + name) == name
  {
    if '/' !in name {
      var s := dir + "/" + name;
      if name == [] {
        assert s[|s| - 1] == '/';
      } else {
        var init := name[..|name| - 1];
        assert s[..|s| - 1] == dir + "/" + init;
        assert s[|s| - 1] == name[|name| - 1];
        assert '/' !in init by {
          forall i | 0 <= i < |init| ensures init[i] != '/' {
            assert init[i] == name[i];
          }
        }
        FileNameAfterSeparator(dir, init);
        assert init + [name[|name| - 1]] == name;
      }
    }
  }

  /**
   * `fs::path / name`: the directory, one separator, then the name. The
   * joined path's `filename()` is the name again whenever the name holds no
   * separator, as for every entry of a directory listing.
   */
  function Join(dir: string, name: string): (r: string)
    ensures '/' !in name ==> FileName(r) == name
  {
    FileNameAfterSeparator(dir, name);
    dir + "/" + name
  }

  /** A file path as a directory and the file name inside it (`filename()`). */
  datatype Path = Path(dir: string, name: string)
  {
    function ToString(): string
    {
      Join(dir, name)
    }
  }

  /** One entry of a directory listing: its name, whether it is a regular file, its last write time. */
  datatype DirEntry = DirEntry(name: string, isRegularFile: bool, mtime: int)
}
