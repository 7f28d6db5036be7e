/**
 * FileRepository: the directory of stored files, its MRU listings (names
 * and JSON records), storing a file, and packaging files into zip archives.
 * Filesystem calls arrive as parameters: their answers for this call.
 */
module Repository {
  import opened Wrappers
  import opened FsPath
  import opened TimeOrdered
  import opened JsonListing
  import opened Cache
  import opened ZipCodec
  import opened Archive
  import opened Packaging

  /** A path that names the home directory itself or something under it. */
  predicate IsHomeRelative(path: string)
  {
    path == "~" || (|path| >= 2 && path[..2] == "~/")
  }

  /**
   * The home-prefix resolution at the start of init: "~" becomes the home
   * directory plus "/", "~/rest" becomes home + "/" + rest, and every other
   * path (the empty one, "~x", "/abs", ...) is kept as it is.
   */
  function ResolveHomePrefix(path: string, homeDir: string): (r: string)
    ensures path == "~" ==> r == homeDir + "/"
    ensures |path| >= 2 && path[..2] == "~/" ==> r == homeDir + "/" + path[2..]
    ensures !IsHomeRelative(path) ==> r == path
  {
    if path == "" then ""
    else
      var prefixSize := if |path| > 1 then 2 else 1;
      if (prefixSize > 1 && path[..2] == "~/") || path == "~" then
        homeDir + "/" + path[prefixSize..]
      else path
  }

  /**
   * When the home directory does not itself start with '~', a resolved path
   * is no longer home-relative, so resolving again changes nothing.
   */
  lemma ResolveHomePrefixIdempotent(path: string, homeDir: string)
    requires homeDir == "" || homeDir[0] != '~'
    ensures !IsHomeRelative(ResolveHomePrefix(path, homeDir)) || ResolveHomePrefix(path, homeDir) == path
    ensures ResolveHomePrefix(ResolveHomePrefix(path, homeDir), homeDir) == ResolveHomePrefix(path, homeDir)
  {
    var r := ResolveHomePrefix(path, homeDir);
    if IsHomeRelative(path) {
      assert r == homeDir + "/" + (if path == "~" then "" else path[2..]);
      assert r[0] != '~';
    }
  }

  /** The shared handle of a DirectoryRipper that deletes a temporary directory when released. */
  datatype CleanerHandle = NoCleaner | Ripper(dir: string)

  datatype CreateFileZipRes = IdNotFound | CantCreateTmpDir | CantZipFile | Success

  class FileRepository {
    var path: string
    const mrufilesN: int
    const cache: IdFileNameCache
    const hashCode: string -> string
    const mruFilesZipName: string

    constructor (path: string, mrufilesN: int, cache: IdFileNameCache, hashCode: string -> string, mruFilesZipName: string)
      ensures this.path == path && this.mrufilesN == mrufilesN && this.cache == cache
      ensures this.hashCode == hashCode && this.mruFilesZipName == mruFilesZipName
    {
      this.path := path;
      this.mrufilesN := mrufilesN;
      this.cache := cache;
      this.hashCode := hashCode;
      this.mruFilesZipName := mruFilesZipName;
    }

    /**
     * Resolves the home prefix, creates the directory if needed and makes the
     * path canonical. `touchDir` answers the full path of the directory it
     * ensured, `canonical` the canonical path (None where it throws). On
     * failure the path is left as it was.
     */
    method Init(homeDir: string, touchDir: string -> Option<string>, canonical: string -> Option<string>) returns (ok: bool)
      modifies this
      ensures var resPath := ResolveHomePrefix(old(path), homeDir);
        if touchDir(resPath).None? then !ok && path == old(path)
        else if canonical(touchDir(resPath).value).None? then !ok && path == old(path)
        else ok && path == canonical(touchDir(resPath).value).value
    {
      var resPath := ResolveHomePrefix(path, homeDir);
      var repositoryPath := touchDir(resPath);
      if repositoryPath.None? {
        return false;
      }
      var cPath := canonical(repositoryPath.value);
      if cPath.None? {
        return false;
      }
      path := cPath.value;
      ok := true;
    }

    /**
     * Lists the repository directory into `list`. `listDir` answers None
     * when the path does not exist or is not a directory; then `list` is
     * left untouched. Otherwise `list` is rebuilt from the regular files,
     * keyed by write time.
     */
    method CreateTimeOrderedFilesList(listDir: string -> Option<seq<DirEntry>>, list: TimeOrderedFileList)
      returns (ok: bool, list': TimeOrderedFileList)
      ensures ok <==> listDir(path).Some?
      ensures !ok ==> list' == list
      ensures ok ==> list' == BuildTimeOrdered(path, listDir(path).value)
    {
      var scan := listDir(path);
      if scan.None? {
        return false, list;
      }
      var entries := scan.value;
      list' := [];
      var i := 0;
      while i < |entries|
        invariant 0 <= i <= |entries|
        invariant list' == BuildTimeOrdered(path, entries[..i])
      {
        var entry := entries[i];
        BuildTimeOrderedStep(path, entries, i);
        if entry.isRegularFile {
          list' := InsertByTime(list', TimedPath(entry.mtime, Path(path, entry.name)));
        }
        i := i + 1;
      }
      assert entries[..i] == entries;
      ok := true;
    }

    /**
     * The loop of createMruFilesList: walks the time-ordered list from its
     * newest end, appending the names of at most `mrufilesN` entries.
     */
    method AppendMruNames(timeOrderedFileList: TimeOrderedFileList, mrufiles: seq<string>)
      returns (mrufiles': seq<string>)
      ensures mrufiles' == mrufiles + FileNames(MostRecent(timeOrderedFileList, mrufilesN))
    {
      mrufiles' := mrufiles;
      var k := |timeOrderedFileList|;
      var fileCnt := 0;
      while k > 0 && fileCnt < mrufilesN
        invariant 0 <= k <= |timeOrderedFileList|
        invariant fileCnt == |timeOrderedFileList| - k
        invariant fileCnt <= mrufilesN || fileCnt == 0
        invariant mrufiles' == mrufiles + FileNames(MostRecent(timeOrderedFileList, fileCnt))
      {
        AppendNameStep(mrufiles', mrufiles, timeOrderedFileList, fileCnt);
        k := k - 1;
        mrufiles' := mrufiles' + [timeOrderedFileList[k].path.name];
        fileCnt := fileCnt + 1;
      }
      assert MostRecent(timeOrderedFileList, fileCnt) == MostRecent(timeOrderedFileList, mrufilesN);
    }

    /**
     * Appends the names of the `mrufilesN` most recently written files,
     * newest first, to `mrufiles`; nothing is appended when the directory
     * cannot be listed.
     */
    method CreateMruFilesList(listDir: string -> Option<seq<DirEntry>>, mrufiles: seq<string>)
      returns (ok: bool, mrufiles': seq<string>)
      ensures ok <==> listDir(path).Some?
      ensures !ok ==> mrufiles' == mrufiles
      ensures ok ==> mrufiles' == mrufiles + FileNames(MostRecent(BuildTimeOrdered(path, listDir(path).value), mrufilesN))
    {
      var listed, timeOrderedFileList := CreateTimeOrderedFilesList(listDir, []);
      if !listed {
        return false, mrufiles;
      }
      mrufiles' := AppendMruNames(timeOrderedFileList, mrufiles);
      ok := true;
    }

    /**
     * The loop of createJsonMruFilesList: walks the time-ordered list from its
     * newest end, appending the record of each of the first `mrufilesN`
     * entries whose jsonStat succeeds.
     */
    method AppendMruRecords(timeOrderedFileList: TimeOrderedFileList, jsonStat: JsonStat, json: string)
      returns (json': string)
      ensures json' == json + Concat(Records(MostRecent(timeOrderedFileList, mrufilesN), jsonStat, hashCode))
    {
      json' := json;
      var k := |timeOrderedFileList|;
      var fileCnt := 0;
      while k > 0 && fileCnt < mrufilesN
        invariant 0 <= k <= |timeOrderedFileList|
        invariant fileCnt == |timeOrderedFileList| - k
        invariant fileCnt <= mrufilesN || fileCnt == 0
        invariant json' == json + Concat(Records(MostRecent(timeOrderedFileList, fileCnt), jsonStat, hashCode))
      {
        k := k - 1;
        var entry := timeOrderedFileList[k];
        var fName := entry.path.name;
        var id := hashCode(fName);
        var jsonEntry := jsonStat(entry.path.ToString(), fName, id, ListBegin, ListEnd);
        assert jsonEntry == StatOf(entry, jsonStat, hashCode);
        AppendRecordStep(json', json, timeOrderedFileList, fileCnt, jsonStat, hashCode);
        if jsonEntry.Some? {
          json' := json' + jsonEntry.value;
        } else {
          assert json' + RecordText(jsonEntry) == json';
        }
        fileCnt := fileCnt + 1;
      }
      assert MostRecent(timeOrderedFileList, fileCnt) == MostRecent(timeOrderedFileList, mrufilesN);
    }

    /**
     * The MRU listing as JSON: the records of the `mrufilesN` most recent
     * files (an entry whose jsonStat fails is skipped but still takes its
     * slot), the trailing ",\n" trimmed, inside "[\n" and "\n]\n".
     */
    method CreateJsonMruFilesList(listDir: string -> Option<seq<DirEntry>>, jsonStat: JsonStat, json: string)
      returns (ok: bool, json': string)
      ensures ok <==> listDir(path).Some?
      ensures !ok ==> json' == json
      ensures ok ==> json' == JsonArray(Records(MostRecent(BuildTimeOrdered(path, listDir(path).value), mrufilesN), jsonStat, hashCode))
    {
      var listed, timeOrderedFileList := CreateTimeOrderedFilesList(listDir, []);
      if !listed {
        return false, json;
      }
      json' := AppendMruRecords(timeOrderedFileList, jsonStat, "[\n");
      if |json'| > 2 {
        json' := json'[..|json'| - 2];
      }
      json' := json' + "\n]\n";
      ok := true;
    }

    /**
     * Writes `fileContent` to the repository as `fileName` (`write` answers
     * whether the write succeeded), then asks jsonStat for the file's record.
     * Only when both succeed is (hashCode(fileName), fileName) inserted into
     * the cache; a failed record leaves `json` empty.
     */
    method Store(fileName: string, fileContent: string, json: string,
                 write: (string, string) -> bool, jsonStat: JsonStat)
      returns (ok: bool, json': string)
      modifies cache
      ensures var filePath := Join(path, fileName);
        var id := hashCode(fileName);
        if !write(filePath, fileContent) then
          !ok && json' == json && cache.data == old(cache.data)
        else if jsonStat(filePath, fileName, id, "", "\n").None? then
          !ok && json' == "" && cache.data == old(cache.data)
        else
          ok && json' == jsonStat(filePath, fileName, id, "", "\n").value
          && cache.data == Inserted(old(cache.data), id, fileName)
    {
      var filePath := Join(path, fileName);
      if write(filePath, fileContent) {
        var id := hashCode(fileName);
        var record := jsonStat(filePath, fileName, id, "", "\n");
        if record.None? {
          json' := "";
        } else {
          json' := record.value;
          cache.Insert(id, fileName);
          return true, json';
        }
      } else {
        json' := json;
      }
      ok := false;
    }

    /**
     * Zips the MRU files into `mruFilesZipName` inside a new temporary
     * directory. The cleaner is set as soon as the directory exists; the zip
     * file name only on success. Every exit after the archive exists closes it.
     */
    method CreateMruFilesZip(createTemporaryDir: Option<string>, listDir: string -> Option<seq<DirEntry>>,
                             codec: Codec, zipFileName: string, zipCleaner: CleanerHandle)
      returns (ok: bool, zipFileName': string, zipCleaner': CleanerHandle)
      modifies codec
      ensures zipCleaner' == if createTemporaryDir.Some? then Ripper(createTemporaryDir.value) else zipCleaner
      ensures createTemporaryDir.None? || listDir(path).None? ==>
        !ok && zipFileName' == zipFileName && codec.log == old(codec.log)
      ensures createTemporaryDir.Some? && listDir(path).Some? ==>
        var zipPath := Join(createTemporaryDir.value, mruFilesZipName);
        var names := FileNames(MostRecent(BuildTimeOrdered(path, listDir(path).value), mrufilesN));
        var session := ArchiveSession(codec.answer, old(codec.log), zipPath, path, names);
        codec.log == old(codec.log) + session.events
        && ok == session.ok
        && zipFileName' == (if ok then zipPath else zipFileName)
    {
      zipFileName', zipCleaner' := zipFileName, zipCleaner;
      if createTemporaryDir.None? {
        return false, zipFileName', zipCleaner';
      }
      var tempDir := createTemporaryDir.value;
      zipCleaner' := Ripper(tempDir);
      var listed, fileList := CreateMruFilesList(listDir, []);
      if !listed {
        return false, zipFileName', zipCleaner';
      }
      ghost var names := FileNames(MostRecent(BuildTimeOrdered(path, listDir(path).value), mrufilesN));
      assert fileList == names by { assert [] + names == names; }
      var zipPath := Join(tempDir, mruFilesZipName);
      ok := ZipFiles(zipPath, fileList, codec);
      if ok {
        zipFileName' := zipPath;
      }
    }

    /**
     * Adds every file of `fileList`, in order, to an archive that is already
     * open, stopping at the first file the archive refuses.
     */
    method AddFiles(zipArchive: ZipArchive, fileList: seq<string>) returns (ok: bool)
      modifies zipArchive.codec
      ensures zipArchive.codec.log == old(zipArchive.codec.log)
        + AddEach(zipArchive.codec.answer, old(zipArchive.codec.log), zipArchive.zipHandler, path, fileList).events
      ensures ok == AddEach(zipArchive.codec.answer, old(zipArchive.codec.log), zipArchive.zipHandler, path, fileList).ok
    {
      var codec := zipArchive.codec;
      ghost var log1 := codec.log;
      ghost var h := zipArchive.zipHandler;
      var i := 0;
      while i < |fileList|
        invariant 0 <= i <= |fileList|
        invariant AddEach(codec.answer, log1, h, path, fileList[..i]).ok
        invariant codec.log == log1 + AddEach(codec.answer, log1, h, path, fileList[..i]).events
      {
        AddEachLogStep(codec.answer, log1, h, path, fileList, i, codec.log);
        var added := zipArchive.Add(Join(path, fileList[i]), fileList[i]);
        if !added {
          return false;
        }
        i := i + 1;
      }
      assert fileList[..i] == fileList;
      ok := true;
    }

    /**
     * The archive part of createMruFilesZip: create `zipPath`, add each named
     * repository file under its own name, stopping at the first failing add,
     * then close. The archive is closed on every exit, by the destructor when
     * not before.
     */
    method ZipFiles(zipPath: string, fileList: seq<string>, codec: Codec) returns (ok: bool)
      modifies codec
      ensures codec.log == old(codec.log) + ArchiveSession(codec.answer, old(codec.log), zipPath, path, fileList).events
      ensures ok == ArchiveSession(codec.answer, old(codec.log), zipPath, path, fileList).ok
    {
      ghost var log0 := codec.log;
      var zipArchive := new ZipArchive(zipPath, codec);
      var created := zipArchive.Create();
      ghost var h := zipArchive.zipHandler;
      ghost var openEvent := Event(ZipOpen(zipPath), h);
      if !created {
        zipArchive.Destroy();
        ArchiveSessionNotOpened(codec.answer, log0, zipPath, path, fileList);
        return false;
      }
      ghost var log1 := codec.log;
      ghost var adds := AddEach(codec.answer, log1, h, path, fileList);
      ArchiveSessionOpened(codec.answer, log0, zipPath, path, fileList);
      ok := AddFiles(zipArchive, fileList);
      assert codec.log == log1 + adds.events && ok == adds.ok;
      zipArchive.Destroy();
      ghost var closeEvent := Event(ZipClose(h), codec.answer(log1 + adds.events, ZipClose(h)));
      assert codec.log == log1 + adds.events + [closeEvent];
      LogRegroup(log0, openEvent, adds.events, closeEvent);
    }

    /**
     * Zips the single file that `id` names into "<fileName>.zip" inside a new
     * temporary directory. An unknown id is reported before any directory is
     * created; a file that `touch` cannot find is reported before the archive
     * is opened.
     */
    method CreateFileZip(id: string, createTemporaryDir: Option<string>, touch: string -> bool,
                         codec: Codec, zipFileName: string, zipCleaner: CleanerHandle)
      returns (res: CreateFileZipRes, zipFileName': string, zipCleaner': CleanerHandle)
      modifies codec
      ensures id !in cache.data ==>
        res == IdNotFound && zipFileName' == zipFileName && zipCleaner' == zipCleaner && codec.log == old(codec.log)
      ensures id in cache.data && createTemporaryDir.None? ==>
        res == CantCreateTmpDir && zipFileName' == zipFileName && zipCleaner' == zipCleaner && codec.log == old(codec.log)
      ensures id in cache.data && createTemporaryDir.Some? ==>
        var fileName := cache.data[id];
        var zipPath := Join(createTemporaryDir.value, fileName + ".zip");
        var session := ArchiveSession(codec.answer, old(codec.log), zipPath, path, [fileName]);
        zipCleaner' == Ripper(createTemporaryDir.value)
        && (!touch(Join(path, fileName)) ==>
              res == CantZipFile && zipFileName' == zipFileName && codec.log == old(codec.log))
        && (touch(Join(path, fileName)) ==>
              codec.log == old(codec.log) + session.events
              && res == (if session.ok then Success else CantZipFile)
              && zipFileName' == (if session.ok then zipPath else zipFileName))
    {
      zipFileName', zipCleaner' := zipFileName, zipCleaner;
      var found, fileName := cache.SearchId(id, "");
      if !found {
        return IdNotFound, zipFileName', zipCleaner';
      }
      if createTemporaryDir.None? {
        return CantCreateTmpDir, zipFileName', zipCleaner';
      }
      var tempDir := createTemporaryDir.value;
      zipCleaner' := Ripper(tempDir);
      var zipPath := Join(tempDir, fileName + ".zip");
      var updated := touch(Join(path, fileName));
      if !updated {
        // the archive object already exists here; its destructor finds it closed
        var zipArchive := new ZipArchive(zipPath, codec);
        zipArchive.Destroy();
        return CantZipFile, zipFileName', zipCleaner';
      }
      var zipped := ZipFiles(zipPath, [fileName], codec);
      if !zipped {
        return CantZipFile, zipFileName', zipCleaner';
      }
      zipFileName' := zipPath;
      res := Success;
    }
  }
}
