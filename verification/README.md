# httpsrv file repository — a Dafny model

This project models the file-storage core of httpsrv, a file-sharing HTTP
server:

- **FileRepository**: the repository directory and how its path is resolved at
  `init`. It builds the time-ordered listing of the directory, the list of
  most recently used (MRU) files as names and as a JSON array, and `store`
  for an upload. It also packages files into zip archives: the MRU set
  (`createMruFilesZip`) or one file found by id (`createFileZip`).
- **IdFileNameCache**: the id → file name map.
- **ZipArchive**: the small state machine around the zip library's handle.
- **SysUtils::convertDurationInTimeval**.

Modules, one per file:

| module | file | models |
|---|---|---|
| `Wrappers` | wrappers.dfy | `Option` |
| `SysUtils` | sys_utils.dfy | duration → `timeval` |
| `Cache` | id_file_name_cache.dfy | class `IdFileNameCache` over a `map<string, string>` |
| `ZipCodec` | zip_codec.dfy | the zip library: an oracle answers every call, and every call is logged with its answer |
| `Archive` | zip_archive.dfy | class `ZipArchive`, whose `zipHandler` is null while closed |
| `FsPath` | fs_path.dfy | `fs::path` joining, directory entries |
| `TimeOrdered` | time_ordered_list.dfy | `TimeOrderedFileList`, MRU selection |
| `JsonListing` | json_listing.dfy | the JSON text of the MRU listing |
| `Packaging` | packaging.dfy | the sequence of zip-library calls a packaging run makes |
| `Repository` | file_repository.dfy | class `FileRepository` |

Modelling choices:

- **Filesystem calls are parameters** that stand for the answer each one
  gives during this call:
  - `listDir` (exists + is_directory + directory_iterator + last_write_time);
  - `touchDir`, `canonical` (`None` where it throws), `touch`;
  - `write` (the `ofstream` write);
  - `jsonStat`;
  - `createTemporaryDir` (`None` on failure).
- **The home directory** is a parameter of `Init`.
- **`hashCode`** is a function fixed when the repository is built.
- **`TimeOrderedFileList`**, a `std::multimap<time_t, path>`, is a sequence
  in iteration order. An insert goes to the upper bound of its key, as
  `multimap::insert` does since C++11. Files with equal write times therefore
  keep the order in which the directory listing produced them.
- **The zip library** is a `Codec` object. It records every call in `log`,
  and each answer comes from an oracle that may depend on the whole history.
  The packaging operations are specified by the exact log they produce.
  `Packaging.ArchiveSession` states that an archive whose handle is not null
  is closed exactly once, as the last call, on every path.
- **The destructor** `~ZipArchive` is the method `Destroy`. It is called
  wherever the C++ object goes out of scope after it was constructed. In
  `createFileZip` the archive object is built before the `touch` result is
  tested (src/FileRepository.cc:245-247); on the `touch` failure path the
  model builds it and destroys it unopened, which makes no library call. On
  the other paths the archive is built, used and destroyed by `ZipFiles`,
  after the `touch` test; the library calls are the same.
- **The listing loops** of `createMruFilesList`, `createJsonMruFilesList` and
  `createMruFilesZip` are separate methods (`AppendMruNames`,
  `AppendMruRecords`, `AddFiles`). Each is called from its operation at the
  point where the loop stands.

Where the code's behaviour may be unexpected, the model follows the code:

- `store` with a failed write leaves `json` unchanged
  (src/FileRepository.cc:163-179). It is cleared only when `jsonStat` fails
  after a successful write.
- `store` adds the id with the unsynchronised `insert`
  (src/FileRepository.cc:174), not `locked_insert`.
- `insert` never overwrites an existing id (include/IdFileNameCache.h:61). A
  successful `store` therefore makes `searchId(hashCode(fileName))` answer
  `fileName` only when that id was absent or already mapped to it
  (`Cache.InsertedThenLookup`).
- Only `"~"` and paths starting with `"~/"` are home-relative. `"~x"` is kept
  as it is (src/FileRepository.cc:31-41).
- The time-ordered listing breaks ties between equal write times by listing
  order, because of the multimap's insertion rule. No other tie-break is
  applied.

Some parts of the source do not agree with each other; the model follows the
call sites:

- `FileRepository.cc` calls a two-argument `ZipArchive::add(src, entryName)`
  (src/FileRepository.cc:209,246). `include/ZipArchive.h:36` declares
  `add(fileName)`. The model's `Add(src, entryName)` opens the entry under
  `entryName` and writes `src`. The header's version is the case
  `src == entryName`.
- `createFileZip` calls `locked_search` (src/FileRepository.cc:228). The cache
  declares `searchId` (include/IdFileNameCache.h:87). The model uses
  `SearchId`.
- `FileUtils::touch` is called with a "do not create" flag. Here it is a
  predicate on the path that answers whether the file exists and was touched.

## Model

| member | source | states |
|---|---|---|
| SysUtils.ConvertDurationInTimeval | src/SysUtils.cc:20-33 | a non-positive duration gives tv_sec = tv_usec = 0; a positive count u gives tv_sec * 1000000 + tv_usec == u with 0 <= tv_usec < 1000000 and tv_sec >= 0 |
| SysUtils.ConvertDurationIsUniqueSplit | src/SysUtils.cc:30-31 | the result is the only seconds/remainder split of u with a remainder below one second, so tv_sec == u / 1000000 |
| Cache.Inserted | include/IdFileNameCache.h:60-62 | `unordered_map::insert`: an absent id gains exactly (id, fileName); a present id leaves the map unchanged; other keys keep their values; the key set grows by id only |
| Cache.InsertedThenLookup | include/IdFileNameCache.h:60-62 | after an insert, the id maps to the inserted name iff the id was absent or already mapped to that name |
| Cache.IdFileNameCache.constructor | include/IdFileNameCache.h:98-103 | a new cache is empty |
| Cache.IdFileNameCache.Insert | include/IdFileNameCache.h:60-62 | absent id: the map becomes old map + (id, fileName); present id: the map is unchanged |
| Cache.IdFileNameCache.LockedInsert | include/IdFileNameCache.h:50-53 | the same effect on the map as Insert |
| Cache.IdFileNameCache.Clear | include/IdFileNameCache.h:67-71 | the map is empty afterwards |
| Cache.IdFileNameCache.LockedReplace | include/IdFileNameCache.h:76-79 | the map becomes newCache's map as it was before the call |
| Cache.IdFileNameCache.SearchId | include/IdFileNameCache.h:87-96 | found iff id is a key; then the result is its file name, otherwise the caller's fileName untouched; the cache is not modified |
| Archive.AddSteps | include/ZipArchive.h:36-43 | the calls of one add: entry open, then write, then entry close on the archive's handle, each made only if the previous one returned 0 |
| Archive.ZipArchive.constructor | include/ZipArchive.h:26-28 | the archive keeps its file name and starts with a null handle (closed) |
| Archive.ZipArchive.Create | include/ZipArchive.h:30-34 | one zip_open call on the file name; the handle is its answer; true iff the handle is non-null |
| Archive.ZipArchive.Add | include/ZipArchive.h:36-43 | the log grows by exactly the AddSteps calls; true iff all three calls were made and returned 0 |
| Archive.ZipArchive.Close | include/ZipArchive.h:45-50 | null handle: no call; open handle: exactly one zip_close on it; the handle is null afterwards, so a second close makes no call |
| Archive.ZipArchive.Destroy | include/ZipArchive.h:52-54 | the destructor closes: same calls and final state as Close |
| FsPath.Join | src/FileRepository.cc:156-157 | `filename()` of `dir / name` gives back `name` whenever the name holds no '/' |
| FsPath.FileNameAfterSeparator | src/FileRepository.cc:133 | `filename()` of a directory, one '/' and a separator-free name is that name |
| TimeOrdered.InsertByTime | src/FileRepository.cc:83 | multimap insert adds exactly the new pair (multiset grows by it) |
| TimeOrdered.InsertByTimeSorted | include/FileUtils.h:28 | inserting into a key-ordered multimap keeps it key-ordered |
| TimeOrdered.InsertByTimeKeepsTies | include/FileUtils.h:28 | the new pair goes after every pair with the same key, and every other key's pairs keep their order |
| TimeOrdered.RegularFilesFromScan | src/FileRepository.cc:70-83 | every listed pair comes from a regular file of the directory, under the repository path, keyed by its write time |
| TimeOrdered.RegularFilesComplete | src/FileRepository.cc:70-83 | every regular file of the directory is listed with its write time |
| TimeOrdered.BuildTimeOrdered | src/FileRepository.cc:69-85 | the rebuilt list is key-ordered and holds exactly the regular files of the listing (as a multiset) |
| TimeOrdered.BuildTimeOrderedKeepsTies | src/FileRepository.cc:70-85 | files with equal write times appear in listing order |
| TimeOrdered.MostRecentIsNewestFirst | src/FileRepository.cc:101-109 | the reverse walk stopped at n takes min(n, size) pairs (none when n <= 0), with non-increasing times, none older than any pair left out, all drawn from the list |
| TimeOrdered.FileNames | src/FileRepository.cc:108 | one name per pair, in order, each equal to `filename()` of the pair's full path when the name holds no '/' |
| JsonListing.Records | src/FileRepository.cc:127-139 | at most one record per attempted entry; a failing jsonStat is skipped but used its slot |
| JsonListing.RecordsAllSucceed | src/FileRepository.cc:127-139 | when every jsonStat succeeds there is one record per attempted entry |
| JsonListing.JsonArrayShape | src/FileRepository.cc:123-146 | the listing starts with "[\n" and ends with "\n]\n"; with no record text it is exactly "[\n\n]\n" |
| JsonListing.JsonArrayTrimsLastSeparator | src/FileRepository.cc:141-145 | when every record ends with ",\n", the trim removes exactly the last separator: the records joined by ",\n" inside "[\n" … "\n]\n" |
| Packaging.AddEach | src/FileRepository.cc:204-211 | the adds on the archive's handle only; on success three calls per file, all answered 0 |
| Packaging.AddEachStopsAtFailure | src/FileRepository.cc:209-210 | after the first failing add no further add is made and the run stays failed |
| Packaging.ArchiveSession | src/FileRepository.cc:199-216 | one zip_open first; a null handle ends the session there, failed; otherwise the adds follow and one zip_close on that handle is the last call; success means 3 calls per file plus open and close |
| Repository.ResolveHomePrefix | src/FileRepository.cc:29-42 | "~" becomes home + "/", "~/rest" becomes home + "/" + rest, any other path (including "", "~x", "/abs") is unchanged |
| Repository.ResolveHomePrefixIdempotent | src/FileRepository.cc:29-42 | with a home directory not starting with '~', resolving twice equals resolving once |
| Repository.FileRepository.Init | src/FileRepository.cc:22-58 | touchDir failure or a throwing canonical: false with the path unchanged; otherwise true and the path is the canonical form of the directory touchDir ensured for the resolved path |
| Repository.FileRepository.CreateTimeOrderedFilesList | src/FileRepository.cc:62-90 | false and list untouched iff the directory cannot be listed; otherwise list is rebuilt as BuildTimeOrdered of the listing |
| Repository.FileRepository.AppendMruNames | src/FileRepository.cc:101-109 | appends the names of the mrufilesN most recent pairs, newest first, after the prior contents |
| Repository.FileRepository.CreateMruFilesList | src/FileRepository.cc:94-112 | false and nothing appended iff listing fails; otherwise the prior contents followed by the MRU names of the rebuilt list |
| Repository.FileRepository.AppendMruRecords | src/FileRepository.cc:125-139 | appends the records of the mrufilesN most recent pairs, in reverse order, skipping failed jsonStat calls |
| Repository.FileRepository.CreateJsonMruFilesList | src/FileRepository.cc:116-147 | false and json untouched iff listing fails; otherwise json is the JSON array of the MRU records |
| Repository.FileRepository.Store | src/FileRepository.cc:151-180 | write failure: false, json and cache unchanged; jsonStat failure: false, json empty, cache unchanged; otherwise true, json is the record and the cache gains (hashCode(fileName), fileName) unless the id is present |
| Repository.FileRepository.CreateMruFilesZip | src/FileRepository.cc:184-217 | the cleaner is set iff the temporary directory was created; no zip call when it or the listing fails; otherwise the zip calls are exactly the archive session over the MRU names, the result is the session's success and zipFileName is set (to tmp/MRU name) only on success |
| Repository.FileRepository.AddFiles | src/FileRepository.cc:204-211 | the zip calls are exactly AddEach over the file list; the result is whether every add succeeded |
| Repository.FileRepository.ZipFiles | src/FileRepository.cc:198-216 | the zip calls are exactly the archive session; the result is its success |
| Repository.FileRepository.CreateFileZip | src/FileRepository.cc:221-254 | unknown id: idNotFound with nothing assigned and no zip call; no temporary directory: cantCreateTmpDir; touch failure: cantZipFile with no zip call; otherwise the session over that one file decides success or cantZipFile, and zipFileName is set to tmp/"<name>.zip" only on success |

## Left out

- Locking: the shared mutex of IdFileNameCache and concurrency in general. Every cache operation is one sequential step.
- Cache.IdFileNameCache.LockedReplace: does not state what remains in `newCache` after the move, because a moved-from `unordered_map` is valid but unspecified.
- Filesystem work (boost::filesystem, `ofstream`, `getHomeDir`, `touchDir`, `touch`, `createTemporaryDir`, `canonical`): each is a parameter giving its answer. Exceptions thrown by the directory iterator or `last_write_time` are not modelled.
- The Windows `_wstati64` branch of createTimeOrderedFilesList: platform specific. Only the POSIX branch is modelled.
- The write times are unbounded integers. The `time_t`/`file_time_type` conversion and its units are not modelled.
- `FileUtils::hashCode` and `FilenameMap::jsonStat`: their bodies are not part of this model. hashCode is an arbitrary fixed function, and jsonStat is an oracle that fails or returns a record.
- The record format `{id, name, size, timestamp}` and the JSON content of a record: these are produced by jsonStat, which is not modelled.
- DirectoryRipper: only whether `zipCleaner` is assigned, and with which directory, is modelled. The deletion of the directory on release of the last `shared_ptr` is not modelled.
- zip library internals (compression level, the 'w' mode, the bytes written): each call is an oracle answer recorded in the log.
- `fs::path` operator `/` is plain concatenation with one '/'. Boost's separator handling for an empty or already terminated directory is not modelled.
- SysUtils.ConvertDurationInTimeval: takes the duration already converted to whole microseconds. The `duration_cast` and the `long` width of the `static_cast` are not modelled.
- `SysUtils::getUtcTime`, `initCommunicationLib` and `closeSocketFd`: clock, locale and socket plumbing.
- include/FileRepository.h and config.h are not part of this model. The repository's path, `_mrufilesN`, the cache and `MRU_FILES_ZIP_NAME` are fields or constants given to the constructor.
