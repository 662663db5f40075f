# bgstools storage and path utilities in Dafny

This project models two parts of the `bgstools` Python package.

- The single-document storage of `bgstools.datastorage`, as its unit tests
  describe it. A storage strategy manages one document: a mapping from
  strings to YAML values. It can load, store, update and delete that
  document. The in-memory `StorageStrategy` keeps the document in its `data`
  attribute. `YamlStorage` also writes it to one YAML file. The `DataStore`
  façade forwards every call to the one strategy it was given.
- The path and directory helpers of `bgstools/io/io.py`:
  - the remote-URL and LAN-path tests and the `path_exists` dispatch;
  - `get_files_dictionary`, including the `os.path.splitext` key rule;
  - `create_directory_list` and `create_file_list_with_extension`;
  - `check_directory_exist_and_writable`;
  - `get_available_services`;
  - `create_new_directory`, which is covered only to record a defect (see Findings).

The file system, the network and the YAML parser are inputs to the model.
The model never performs I/O.

- A walk of a directory tree is a sequence of `WalkStep(root, dirs, files)` values.
- A directory listing is a sequence of `ListedEntry(name, kind)` values.
- The answers of `os.path.exists`, `os.path.isdir`, `os.path.isfile` and
  `os.access` are boolean parameters.
- `os.path.normpath` is a function parameter (`normalize`).
- `os.path.join` and `os.path.splitext` are written out as the POSIX
  definitions of Python's `posixpath` module.
- A YAML file is a `DocumentFile` object whose `content` is either `None`
  (no file) or the document itself. YAML serialisation is taken to be
  lossless.

Python dicts and `OrderedDict` keep keys in insertion order. They are modelled
as `OrderedDicts.Dict`: a key sequence in insertion order plus a key-to-value
map. `FromPairs` builds the dictionary that results from assigning a sequence
of `(key, value)` pairs in turn.

Files:

- `wrappers.dfy`: `Option` and `Result`.
- `errors.dfy`: the `IoError` exceptions.
- `documents.dfy`: YAML values and documents.
- `ordered_dicts.dfy`: insertion-ordered dictionaries.
- `paths.dfy`: path classification, `join` and `splitext`.
- `listing.dfy`: the directory functions.
- `services.dfy`: `get_available_services`.
- `datastorage.dfy`: strategies, the façade, and the test scenarios.

The module `bgstools/datastorage.py` is not part of this model's sources. Its
behaviour is taken from `tests/datastorage_tests.py`. Where the tests are
silent, the model makes these choices:

- `load_data` returns the document and also keeps it in `data`. The in-memory
  variant returns `data` unchanged.
- `delete_data` resets `data` to `{}` in both variants.
- Removing a YAML file that is already absent is not an error.
- Constructing a `YamlStorage` does not touch the file.
- The YAML `store_data` sets `data` to the document as well as writing the file.
- `update_data` re-reads the stored document (the file, for `YamlStorage`)
  and transforms that, not the cached `data`. The tests use a transform that
  ignores its argument, so they cannot tell the two readings apart.

## Model

| member | source | states |
|---|---|---|
| `DataStorage.StorageStrategy.InMemory` | tests/datastorage_tests.py:10-11 | a new in-memory strategy has no file and holds `{}` |
| `DataStorage.StorageStrategy.Yaml` | tests/datastorage_tests.py:37-39 | a new YAML strategy is bound to its file for good and holds `{}` |
| `DataStorage.StorageStrategy.StoreData` | tests/datastorage_tests.py:13-16 | `data` becomes the document; for the YAML variant the file now holds exactly that document |
| `DataStorage.StorageStrategy.LoadData` | tests/datastorage_tests.py:48-53 | returns and keeps in `data` what is stored: `data` in memory, the file's document on disk, `{}` when the file is absent; nothing stored changes |
| `DataStorage.StorageStrategy.UpdateData` | tests/datastorage_tests.py:55-61 | `data` and the file become the transform applied to the document stored before the call |
| `DataStorage.StorageStrategy.DeleteData` | tests/datastorage_tests.py:63-67 | `data` is `{}` and the file is absent afterwards |
| `DataStorage.DataStore.constructor` | tests/datastorage_tests.py:77-78 | the façade holds the strategy it was given |
| `DataStorage.DataStore.StoreData` | tests/datastorage_tests.py:80-83 | same post-state as calling `store_data` on the strategy |
| `DataStorage.DataStore.LoadData` | tests/datastorage_tests.py:85-88 | same result and post-state as calling `load_data` on the strategy |
| `DataStorage.DataStore.UpdateData` | tests/datastorage_tests.py:90-94 | same post-state as calling `update_data` on the strategy |
| `DataStorage.DataStore.DeleteData` | tests/datastorage_tests.py:96-100 | same post-state as calling `delete_data` on the strategy |
| `DataStorage.DocumentFile.Dump` | tests/datastorage_tests.py:50-51 | after `yaml.safe_dump` the file exists and holds the document |
| `DataStorage.DocumentFile.SafeLoad` | tests/datastorage_tests.py:44-45 | reading the file back yields the document it holds (lossless YAML) |
| `DataStorage.DocumentFile.Remove` | tests/datastorage_tests.py:66-67 | after removal the file is absent |
| `DataStorage.DocumentFile.Exists` | tests/datastorage_tests.py:67 | `os.path.exists(path)` holds exactly when the file is present |
| `DataStorage.InMemoryFreshLoad` | tests/datastorage_tests.py:18-20 | a fresh in-memory strategy holds `{}` after `load_data` |
| `DataStorage.InMemoryStore` | tests/datastorage_tests.py:13-16 | after `store_data(d)` the in-memory `data` is `d` |
| `DataStorage.InMemoryUpdate` | tests/datastorage_tests.py:22-26 | after `store_data(d)` and `update_data(f)` the in-memory `data` is `f(d)` |
| `DataStorage.InMemoryDelete` | tests/datastorage_tests.py:28-32 | after a store and `delete_data` the in-memory `data` is `{}` |
| `DataStorage.YamlStoreWritesFile` | tests/datastorage_tests.py:41-46 | after `store_data(d)` the file read back is `d`, whatever the file held before |
| `DataStorage.YamlLoadReadsFile` | tests/datastorage_tests.py:48-53 | a document dumped into the file after construction is what `load_data` puts in `data` |
| `DataStorage.YamlFirstRunLoad` | tests/datastorage_tests.py:96-100 | with no file yet, `load_data` yields `{}` instead of failing |
| `DataStorage.YamlUpdateRewritesFile` | tests/datastorage_tests.py:55-61 | after `store_data(d)` and `update_data(f)` the file holds `f(d)` |
| `DataStorage.YamlDeleteRemovesFile` | tests/datastorage_tests.py:63-67 | after a store and `delete_data` the file does not exist |
| `DataStorage.YamlDeleteTwice` | tests/datastorage_tests.py:63-67 | deleting twice succeeds, leaves no file, and a later load yields `{}` |
| `DataStorage.FacadeStoreThenLoad` | tests/datastorage_tests.py:80-88 | through the façade, store then load returns the stored document |
| `DataStorage.FacadeUpdateThenLoad` | tests/datastorage_tests.py:90-94 | through the façade, store `d`, update with `f`, then load returns `f(d)` |
| `DataStorage.FacadeDeleteThenLoad` | tests/datastorage_tests.py:96-100 | through the façade, delete then load returns `{}` |
| `DataStorage.FacadeIsTransparent` | tests/datastorage_tests.py:73-100 | for any sequence of calls, going through the façade and calling a second YAML strategy directly, as two independent runs over identical starting files, observe the same documents at every load and leave the same file and the same `data` |
| `Paths.RemoteUrlShape` | bgstools/io/io.py:352-362 | a path is remote exactly when it is `http://` or `https://` followed by anything; the test is case-sensitive |
| `Paths.IsRemoteUrl` | bgstools/io/io.py:352-362 | a remote URL starts with `http`, has at least seven characters, and is never a LAN path |
| `Paths.IsLanPath` | bgstools/io/io.py:365-375 | a path is a LAN path exactly when its first two characters are backslashes |
| `Paths.Classify` | bgstools/io/io.py:344-349 | every path takes exactly one branch: remote if it is a remote URL, otherwise LAN if it is a LAN path, otherwise local |
| `Paths.PathExists` | bgstools/io/io.py:334-349 | remote URLs are answered by the HTTP probe; LAN and local paths are answered by the file-system probe |
| `Paths.Join` | bgstools/io/io.py:31 | an absolute second part replaces the first; otherwise the result starts with the directory and ends with the name |
| `Paths.SplitExt` | bgstools/io/io.py:35 | `root + ext` is the name; a non-empty `ext` starts at the last dot of the last component, which has a non-dot before it; an empty `ext` means no such split exists |
| `Paths.SplitExtUnique` | bgstools/io/io.py:35 | any proper extension split of a name is the one `splitext` returns |
| `Listing.FileKey` | bgstools/io/io.py:32-36 | the key is a prefix of the file name: the whole name when the extension is kept, otherwise the name less its proper `splitext` extension, or the whole name when it has none |
| `Listing.GetFilesDictionary` | bgstools/io/io.py:10-38 | raises ValueError exactly when `dirpath` is not a directory; otherwise returns the dictionary built by assigning, in walk order, key to normalised path for each file ending with the extension |
| `Listing.FilesDictionaryValues` | bgstools/io/io.py:28-36 | every entry is the key and normalised joined path of some walked file ending with the extension |
| `Listing.FilesDictionaryComplete` | bgstools/io/io.py:28-36 | the key of every walked file ending with the extension is in the dictionary |
| `Listing.FilesDictionaryLastWins` | bgstools/io/io.py:33-36 | when several walked files share a key, the path of the last one is kept |
| `Listing.FilesDictionarySize` | bgstools/io/io.py:28-36 | the dictionary has no more entries than there are matching files |
| `Listing.CreateDirectoryList` | bgstools/io/io.py:41-63 | an unreadable directory raises OSError; otherwise returns, in listing order, the joined paths of the entries that are directories |
| `Listing.CreateFileListWithExtension` | bgstools/io/io.py:66-89 | an unreadable directory raises OSError; otherwise returns, in listing order, the joined paths of the regular files ending with the extension |
| `Listing.SelectedAppend` | bgstools/io/io.py:57-61 | the selection respects listing order: selecting from a concatenated listing concatenates the selections |
| `Listing.SelectedOrigin` | bgstools/io/io.py:83-87 | every returned path is `dirpath` joined with a wanted entry |
| `Listing.SelectedContains` | bgstools/io/io.py:83-87 | every wanted entry's joined path is returned |
| `Listing.CheckDirectoryExistAndWritable` | bgstools/io/io.py:113-155 | True iff an existing writable directory; False iff an existing non-writable one; None otherwise; the callback gets exactly one message, which matches the outcome, if and only if it is supplied |
| `Listing.CreateNewDirectoryAsWritten` | bgstools/io/io.py:173-185 | as written: an existing directory raises UnboundLocalError; a failed `os.makedirs` raises OSError |
| `Listing.CreateNewDirectory` | bgstools/io/io.py:158-185 | as intended: fails only when `os.makedirs` fails, returns `dirpath`, and reports once to a supplied callback whether it created the directory |
| `Listing.CreateNewDirectoryExistingPath` | bgstools/io/io.py:177-178 | on an existing directory the code as written raises while the intended version succeeds; on a missing one the two agree |
| `Documents.Truthy` | bgstools/io/io.py:327 | a value is falsy exactly when it is `None`, `False`, `0`, `''`, `[]` or `{}` |
| `Services.ServiceName` | bgstools/io/io.py:328 | `service['name']` succeeds exactly on a mapping with a hashable `name`, giving that name; a mapping without it raises KeyError, anything else TypeError |
| `Services.ServicesByName` | bgstools/io/io.py:328 | the comprehension succeeds exactly when every record has a usable name, giving a well-formed dictionary with at most one key per record and at least one when there are records; otherwise it raises some record's error |
| `Services.ServiceEntries` | bgstools/io/io.py:328 | succeeds iff every record has a usable name, giving one `(name, record)` pair per record in order; otherwise raises the first record's error |
| `Services.GetAvailableServices` | bgstools/io/io.py:306-331 | a non-file raises FileNotFoundError; loader errors pass through; a falsy value (none, empty list) gives None; a truthy non-list raises TypeError; a truthy list gives `Some` of the dictionary indexed by name, or the comprehension's error; a returned dictionary is never empty |
| `Services.ServicesKeys` | bgstools/io/io.py:327-329 | the keys are exactly the names some record carries |
| `Services.ServicesLastRecordWins` | bgstools/io/io.py:328 | each name maps to the last record carrying it |
| `Services.ServicesOrder` | bgstools/io/io.py:328 | keys are in first-occurrence order: the first record named by an earlier key comes before every record named by a later key |
| `OrderedDicts.Set` | bgstools/io/io.py:33 | assignment keeps the dictionary well formed; an existing key keeps its place, a new key goes last |
| `OrderedDicts.FromPairs` | bgstools/io/io.py:26-36 | assigning a sequence of pairs gives a well-formed dictionary with no more keys than pairs |
| `OrderedDicts.FromPairsKeys` | bgstools/io/io.py:328 | a key is present exactly when some pair carries it |
| `OrderedDicts.FromPairsLastWins` | bgstools/io/io.py:328 | the value kept for a key is that of the last pair carrying it |
| `OrderedDicts.FromPairsValueOrigin` | bgstools/io/io.py:328 | every entry is the last pair assigned for its key |
| `OrderedDicts.FromPairsOrder` | bgstools/io/io.py:328 | keys are listed in the order of their first occurrence among the pairs |

## Left out

- File-system, YAML, TOML and HTTP access are not modelled. Their results are
  inputs to the model. This covers `os.walk`, `os.listdir`, `os.makedirs`,
  `yaml.safe_load`, `yaml.safe_dump`, `toml.load`, `requests.get` and
  `requests.head`.
- `load_yaml`, `load_yaml_from_file` and `load_toml_variables` are left out:
  they are thin wrappers over those libraries.
- `check_remote_path_exists`, `check_lan_path_exists` and
  `check_local_path_exists` become the probe parameters of `PathExists`.
- `check_dirpath_owner` becomes the `ownership` parameter of
  `CheckDirectoryExistAndWritable`.
- `create_subdirectory` is left out because directory creation is I/O.
- `create_new_directory` is modelled only for its defect. Its `makedirs` call
  is a boolean input.
- The media module (video and image handling) and the spatial functions are
  left out. They rely on native libraries and floating point.
- YAML floats, non-string mapping keys, and parse or serialisation errors of
  the storage file are not modelled.
- Atomic-rename writes and races between processes writing the same file are
  not modelled. No code that is part of this model implements them.
- `DataStorage.StorageStrategy.StoreData`: writing or removing the file
  cannot fail in the model. The error raised for a missing parent directory
  or a denied permission is not modelled. The same holds for `UpdateData`,
  for `DeleteData` and for their `DataStore` counterparts.
- `DataStorage.StorageStrategy.UpdateData`: the transform is a total Dafny
  function. A transform that raises, and the guarantee that nothing is
  written in that case, are not modelled.
- `Services.ServiceName`: Python treats `True` and `1` as the same dictionary
  key. The model keeps `Bool(true)` and `Int(1)` apart.
- `Paths.Join` and `Paths.SplitExt` follow POSIX `posixpath`. Windows
  drive letters and `\` separators are not modelled.
- `Listing.GetFilesDictionary`: errors during the walk are not modelled.
  `os.walk` ignores them by default. The order of the walk is taken as given.

## Findings

| source | as written | input that shows it | evidently intended | confidence | as-written member | corrected member |
|---|---|---|---|---|---|---|
| bgstools/io/io.py:178 | `message(f"The directory {dirpath} already exists.")` calls the local `message` before it is ever assigned | any `dirpath` that already exists: UnboundLocalError, which the `except OSError` does not catch | `message = f"The directory {dirpath} already exists."`, then the callback and `return dirpath` as in the other branch | high, not executed | `Listing.CreateNewDirectoryAsWritten` | `Listing.CreateNewDirectory` |
