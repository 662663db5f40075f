/**
 * The directory functions of bgstools/io/io.py: `get_files_dictionary`,
 * `create_directory_list`, `create_file_list_with_extension` and
 * `check_directory_exist_and_writable`. The file system is an input: the
 * entries `os.walk` and `os.listdir` produce, and the answers of
 * `os.path.isdir`, `os.path.exists` and `os.access`. `os.path.normpath` is
 * the function parameter `normalize`.
 */
module Listing {
  import opened Wrappers
  import opened Errors
  import opened Paths
  import opened OrderedDicts

  // ---------------------------------------------------------------- get_files_dictionary

  /** One triple `(root, dirs, files)` yielded by `os.walk`. */
  datatype WalkStep = WalkStep(root: string, dirs: seq<string>, files: seq<string>)

  /** One file seen by the walk: the directory it was listed in and its name. */
  datatype WalkedFile = WalkedFile(root: string, name: string)

  /** The files of one walk step, in listing order. */
  function StepFiles(step: WalkStep): (fs: seq<WalkedFile>)
    ensures |fs| == |step.files|
    ensures forall j :: 0 <= j < |fs| ==> fs[j] == WalkedFile(step.root, step.files[j])
  {
    seq(|step.files|, j requires 0 <= j < |step.files| => WalkedFile(step.root, step.files[j]))
  }

  /** Every file of the walk, in the order the two nested loops visit them. */
  function Walked(walk: seq<WalkStep>): seq<WalkedFile> {
    if walk == [] then [] else Walked(walk[..|walk| - 1]) + StepFiles(walk[|walk| - 1])
  }

  /** The dictionary key of a file: its whole name, or the root of `os.path.splitext`. */
  function FileKey(name: string, keepExtensionInKey: bool): (k: string)
    ensures k <= name
    ensures keepExtensionInKey ==> k == name
    ensures !keepExtensionInKey ==> k == name || ExtensionSplit(name, k, name[|k|..])
    ensures !keepExtensionInKey ==> (k == name <==> HasNoExtension(name))
  {
    if keepExtensionInKey then name else SplitExt(name).0
  }

  /** `os.path.normpath(os.path.join(root, file))` */
  function FullPath(f: WalkedFile, normalize: string -> string): string {
    normalize(Join(f.root, f.name))
  }

  /** The assignments `files_dictionary[key] = path` the loops perform, in order. */
  function FileEntries(files: seq<WalkedFile>, extension: string, keepExtensionInKey: bool,
                       normalize: string -> string): seq<(string, string)>
  {
    if files == [] then []
    else
      var f := files[|files| - 1];
      FileEntries(files[..|files| - 1], extension, keepExtensionInKey, normalize) +
      if EndsWith(f.name, extension) then [(FileKey(f.name, keepExtensionInKey), FullPath(f, normalize))] else []
  }

  /** The dictionary `get_files_dictionary` returns for the walked files. */
  function FilesDictionary(files: seq<WalkedFile>, extension: string, keepExtensionInKey: bool,
                           normalize: string -> string): Dict<string, string>
  {
    FromPairs(FileEntries(files, extension, keepExtensionInKey, normalize))
  }

  /** The number of walked files whose name ends with the extension. */
  function CountMatching(files: seq<WalkedFile>, extension: string): nat {
    if files == [] then 0
    else CountMatching(files[..|files| - 1], extension) + if EndsWith(files[|files| - 1].name, extension) then 1 else 0
  }

  /**
   * `get_files_dictionary(dirpath, file_extension, keep_extension_in_key)`:
   * fails with ValueError when `dirpath` is not a directory; otherwise walks the
   * tree and maps the key of every file ending with the extension to its
   * normalised path, later files overwriting earlier ones with the same key.
   */
  method GetFilesDictionary(dirpath: string, isDir: bool, walk: seq<WalkStep>, fileExtension: string,
                            keepExtensionInKey: bool, normalize: string -> string)
    returns (r: Result<Dict<string, string>, IoError>)
    ensures r.Err? <==> !isDir
    ensures r.Err? ==> r.error == NotADirectory(dirpath)
    ensures r.Ok? ==> r.value == FilesDictionary(Walked(walk), fileExtension, keepExtensionInKey, normalize)
  {
    if !isDir {
      return Err(NotADirectory(dirpath));
    }
    var filesDictionary: Dict<string, string> := Empty();
    for i := 0 to |walk|
      invariant filesDictionary == FilesDictionary(Walked(walk[..i]), fileExtension, keepExtensionInKey, normalize)
    {
      var step := walk[i];
      ghost var before := Walked(walk[..i]);
      assert walk[..i + 1][..i] == walk[..i];
      assert before + StepFiles(step)[..0] == before;
      for j := 0 to |step.files|
        invariant filesDictionary ==
                  FilesDictionary(before + StepFiles(step)[..j], fileExtension, keepExtensionInKey, normalize)
      {
        var file := step.files[j];
        ghost var seen := before + StepFiles(step)[..j];
        PrefixSnoc(before, StepFiles(step), j);
        FilesDictionarySnoc(seen, WalkedFile(step.root, file), fileExtension, keepExtensionInKey, normalize);
        if EndsWith(file, fileExtension) {
          var fullPath := Join(step.root, file);
          if keepExtensionInKey {
            filesDictionary := Set(filesDictionary, file, normalize(fullPath));
          } else {
            var filenameWithoutExtension := SplitExt(file).0;
            filesDictionary := Set(filesDictionary, filenameWithoutExtension, normalize(fullPath));
          }
        }
      }
      assert StepFiles(step)[..|step.files|] == StepFiles(step);
    }
    assert walk[..|walk|] == walk;
    r := Ok(filesDictionary);
  }

  lemma PrefixSnoc<T>(a: seq<T>, s: seq<T>, j: nat)
    requires j < |s|
    ensures a + s[..j + 1] == (a + s[..j]) + [s[j]]
  {
    assert s[..j + 1] == s[..j] + [s[j]];
  }

  /** A non-empty sequence is its front followed by its last element. */
  lemma SplitLast<T>(s: seq<T>)
    requires s != []
    ensures s == s[..|s| - 1] + [s[|s| - 1]]
  {
  }

  lemma FilesDictionarySnoc(files: seq<WalkedFile>, f: WalkedFile, extension: string, keep: bool,
                            normalize: string -> string)
    ensures FilesDictionary(files + [f], extension, keep, normalize) ==
            if EndsWith(f.name, extension) then
              Set(FilesDictionary(files, extension, keep, normalize), FileKey(f.name, keep), FullPath(f, normalize))
            else FilesDictionary(files, extension, keep, normalize)
  {
    var entries := FileEntries(files, extension, keep, normalize);
    assert (files + [f])[..|files|] == files;
    if EndsWith(f.name, extension) {
      FromPairsSnoc(entries, FileKey(f.name, keep), FullPath(f, normalize));
    } else {
      assert entries + [] == entries;
    }
  }

  /** Every entry of the dictionary is the key and normalised path of a walked file with the extension. */
  lemma {:induction false} FilesDictionaryValues(files: seq<WalkedFile>, extension: string, keep: bool,
                                                 normalize: string -> string, key: string) returns (i: nat)
    requires key in FilesDictionary(files, extension, keep, normalize).items
    ensures i < |files| && EndsWith(files[i].name, extension) && FileKey(files[i].name, keep) == key
    ensures FilesDictionary(files, extension, keep, normalize).items[key] == FullPath(files[i], normalize)
  {
    var init, f := files[..|files| - 1], files[|files| - 1];
    SplitLast(files);
    FilesDictionarySnoc(init, f, extension, keep, normalize);
    if EndsWith(f.name, extension) && FileKey(f.name, keep) == key {
      i := |files| - 1;
    } else {
      i := FilesDictionaryValues(init, extension, keep, normalize, key);
      assert files[i] == init[i];
    }
  }

  /** The key of every walked file with the extension is in the dictionary. */
  lemma {:induction false} FilesDictionaryComplete(files: seq<WalkedFile>, extension: string, keep: bool,
                                                   normalize: string -> string, i: nat)
    requires i < |files| && EndsWith(files[i].name, extension)
    ensures FileKey(files[i].name, keep) in FilesDictionary(files, extension, keep, normalize).items
  {
    var init, f := files[..|files| - 1], files[|files| - 1];
    SplitLast(files);
    FilesDictionarySnoc(init, f, extension, keep, normalize);
    if i < |init| {
      FilesDictionaryComplete(init, extension, keep, normalize, i);
    }
  }

  /** Of two walked files with the same key, the later one's path is kept. */
  lemma {:induction false} FilesDictionaryLastWins(files: seq<WalkedFile>, extension: string, keep: bool,
                                                   normalize: string -> string, i: nat)
    requires i < |files| && EndsWith(files[i].name, extension)
    requires forall j :: i < j < |files| && EndsWith(files[j].name, extension) ==>
                         FileKey(files[j].name, keep) != FileKey(files[i].name, keep)
    ensures FileKey(files[i].name, keep) in FilesDictionary(files, extension, keep, normalize).items
    ensures FilesDictionary(files, extension, keep, normalize).items[FileKey(files[i].name, keep)] ==
            FullPath(files[i], normalize)
  {
    var init, f := files[..|files| - 1], files[|files| - 1];
    var key := FileKey(files[i].name, keep);
    var d0, d := FilesDictionary(init, extension, keep, normalize), FilesDictionary(files, extension, keep, normalize);
    SplitLast(files);
    FilesDictionarySnoc(init, f, extension, keep, normalize);
    if i < |init| {
      assert init[i] == files[i];
      FilesDictionaryLastWins(init, extension, keep, normalize, i);
      if EndsWith(f.name, extension) {
        assert FileKey(f.name, keep) != key;
        assert d.items == d0.items[FileKey(f.name, keep) := FullPath(f, normalize)];
      } else {
        assert d == d0;
      }
    }
  }

  /** The dictionary has at most one entry per walked file with the extension. */
  lemma {:induction false} FilesDictionarySize(files: seq<WalkedFile>, extension: string, keep: bool,
                                               normalize: string -> string)
    ensures |FilesDictionary(files, extension, keep, normalize).keys| <= CountMatching(files, extension)
  {
    EntriesCount(files, extension, keep, normalize);
  }

  lemma {:induction false} EntriesCount(files: seq<WalkedFile>, extension: string, keep: bool,
                                        normalize: string -> string)
    ensures |FileEntries(files, extension, keep, normalize)| == CountMatching(files, extension)
  {
    if files != [] {
      EntriesCount(files[..|files| - 1], extension, keep, normalize);
    }
  }

  // ---------------------------------------------------------------- directory listings

  /** What `os.path.isdir` / `os.path.isfile` say of a listed entry. */
  datatype EntryKind = Directory | RegularFile | OtherEntry

  /** One name returned by `os.listdir`, with the kind of the path it names. */
  datatype ListedEntry = ListedEntry(name: string, kind: EntryKind)

  /** The paths `os.path.join(dirpath, item)` of the wanted entries, in listing order. */
  function Selected(dirpath: string, entries: seq<ListedEntry>, wanted: ListedEntry -> bool): seq<string> {
    if entries == [] then []
    else
      var e := entries[|entries| - 1];
      Selected(dirpath, entries[..|entries| - 1], wanted) + if wanted(e) then [Join(dirpath, e.name)] else []
  }

  /** The test of `create_directory_list`. */
  predicate IsDirectoryEntry(e: ListedEntry) {
    e.kind == Directory
  }

  /** The test of `create_file_list_with_extension`. */
  predicate IsFileWithExtension(e: ListedEntry, extension: string) {
    e.kind == RegularFile && EndsWith(e.name, extension)
  }

  /** Selecting from a concatenated listing selects from each part, in order. */
  lemma {:induction false} SelectedAppend(dirpath: string, a: seq<ListedEntry>, b: seq<ListedEntry>,
                                          wanted: ListedEntry -> bool)
    ensures Selected(dirpath, a + b, wanted) == Selected(dirpath, a, wanted) + Selected(dirpath, b, wanted)
  {
    if b == [] {
      assert a + b == a;
    } else {
      var bi := b[..|b| - 1];
      assert (a + b)[..|a + b| - 1] == a + bi;
      SelectedAppend(dirpath, a, bi, wanted);
    }
  }

  /** Every selected path is the joined path of a wanted entry: entry `i`. */
  lemma {:induction false} SelectedOrigin(dirpath: string, entries: seq<ListedEntry>, wanted: ListedEntry -> bool,
                                          p: string) returns (i: nat)
    requires p in Selected(dirpath, entries, wanted)
    ensures i < |entries| && wanted(entries[i]) && p == Join(dirpath, entries[i].name)
  {
    var init, e := entries[..|entries| - 1], entries[|entries| - 1];
    if wanted(e) && p == Join(dirpath, e.name) {
      i := |entries| - 1;
    } else {
      i := SelectedOrigin(dirpath, init, wanted, p);
      assert entries[i] == init[i];
    }
  }

  /** The joined path of every wanted entry is selected. */
  lemma {:induction false} SelectedContains(dirpath: string, entries: seq<ListedEntry>, wanted: ListedEntry -> bool,
                                            i: nat)
    requires i < |entries| && wanted(entries[i])
    ensures Join(dirpath, entries[i].name) in Selected(dirpath, entries, wanted)
  {
    var init := entries[..|entries| - 1];
    if i < |init| {
      assert init[i] == entries[i];
      SelectedContains(dirpath, init, wanted, i);
    }
  }

  /**
   * `create_directory_list(dirpath)`: the joined paths of the listed entries
   * that are directories, in listing order; an unreadable directory
   * (`listing == None`) raises OSError.
   */
  method CreateDirectoryList(dirpath: string, listing: Option<seq<ListedEntry>>)
    returns (r: Result<seq<string>, IoError>)
    ensures r.Err? <==> listing.None?
    ensures r.Err? ==> r.error == DirectoryAccess(dirpath)
    ensures r.Ok? ==> r.value == Selected(dirpath, listing.value, IsDirectoryEntry)
  {
    if listing.None? {
      return Err(DirectoryAccess(dirpath));
    }
    var items := listing.value;
    var directories := [];
    for i := 0 to |items|
      invariant directories == Selected(dirpath, items[..i], IsDirectoryEntry)
    {
      var item := items[i];
      assert items[..i + 1][..i] == items[..i];
      var itemPath := Join(dirpath, item.name);
      if item.kind == Directory {
        directories := directories + [itemPath];
      }
    }
    assert items[..|items|] == items;
    r := Ok(directories);
  }

  /**
   * `create_file_list_with_extension(dirpath, extension)`: the joined paths of
   * the listed regular files whose name ends with `extension`, in listing
   * order; an unreadable directory raises OSError.
   */
  method CreateFileListWithExtension(dirpath: string, listing: Option<seq<ListedEntry>>, extension: string)
    returns (r: Result<seq<string>, IoError>)
    ensures r.Err? <==> listing.None?
    ensures r.Err? ==> r.error == DirectoryAccess(dirpath)
    ensures r.Ok? ==> r.value == Selected(dirpath, listing.value, e => IsFileWithExtension(e, extension))
  {
    if listing.None? {
      return Err(DirectoryAccess(dirpath));
    }
    var items := listing.value;
    var files := [];
    for i := 0 to |items|
      invariant files == Selected(dirpath, items[..i], e => IsFileWithExtension(e, extension))
    {
      var item := items[i];
      assert items[..i + 1][..i] == items[..i];
      var itemPath := Join(dirpath, item.name);
      if item.kind == RegularFile && EndsWith(item.name, extension) {
        files := files + [itemPath];
      }
    }
    assert items[..|items|] == items;
    r := Ok(files);
  }

  // ---------------------------------------------------------------- check_directory_exist_and_writable

  /** The message handed to the callback. */
  datatype DirectoryMessage =
    | ExistsAndWritable(path: string)
    | ExistsNotWritable(path: string, ownership: map<string, string>)
    | DoesNotExist(path: string)

  /** What `check_directory_exist_and_writable` returns, and the calls it makes to the callback. */
  datatype WritableCheck = WritableCheck(success: Option<bool>, callbackCalls: seq<DirectoryMessage>)

  /**
   * `check_directory_exist_and_writable(dirpath, callback)`. `pathExists`, `isDir`
   * and `writable` are the answers of `os.path.exists`, `os.path.isdir` and
   * `os.access(dirpath, os.W_OK)`; `ownership` is what `check_dirpath_owner`
   * returns; `hasCallback` says whether a callback was supplied.
   */
  function CheckDirectoryExistAndWritable(dirpath: string, pathExists: bool, isDir: bool, writable: bool,
                                          ownership: map<string, string>, hasCallback: bool): (r: WritableCheck)
    ensures r.success == Some(true) <==> pathExists && isDir && writable
    ensures r.success == Some(false) <==> pathExists && isDir && !writable
    ensures r.success == None <==> !(pathExists && isDir)
    ensures |r.callbackCalls| == if hasCallback then 1 else 0
    ensures forall m :: m in r.callbackCalls ==>
              && m.path == dirpath
              && (m.ExistsAndWritable? <==> r.success == Some(true))
              && (m.ExistsNotWritable? <==> r.success == Some(false))
              && (m.ExistsNotWritable? ==> m.ownership == ownership)
  {
    var (success, message) :=
      if pathExists && isDir then
        if writable then (Some(true), ExistsAndWritable(dirpath))
        else (Some(false), ExistsNotWritable(dirpath, ownership))
      else (None, DoesNotExist(dirpath));
    WritableCheck(success, if hasCallback then [message] else [])
  }

  // ---------------------------------------------------------------- create_new_directory

  /** The message `create_new_directory` hands to its callback. */
  datatype CreationMessage = WasCreated(path: string) | AlreadyThere(path: string)

  /**
   * `create_new_directory(dirpath, callback)` as written: when the directory
   * already exists it calls the still unassigned local `message` instead of
   * assigning it, which raises UnboundLocalError (not an OSError, so it
   * escapes the `except`). `pathExists` is `os.path.exists(dirpath)`;
   * `makedirsFails` says whether `os.makedirs` raises.
   */
  function CreateNewDirectoryAsWritten(dirpath: string, pathExists: bool, makedirsFails: bool, hasCallback: bool)
    : (r: Result<(string, seq<CreationMessage>), IoError>)
    ensures pathExists ==> r == Err(UnboundLocal("message"))
    ensures !pathExists && makedirsFails ==> r == Err(CreateFailed(dirpath))
  {
    if !pathExists then
      if makedirsFails then Err(CreateFailed(dirpath))
      else Ok((dirpath, if hasCallback then [WasCreated(dirpath)] else []))
    else Err(UnboundLocal("message"))
  }

  /**
   * `create_new_directory` with the evidently intended assignment
   * `message = f"The directory {dirpath} already exists."`: it fails only
   * when `os.makedirs` does, always returns `dirpath`, and reports to the
   * callback, once, whether it created the directory.
   */
  function CreateNewDirectory(dirpath: string, pathExists: bool, makedirsFails: bool, hasCallback: bool)
    : (r: Result<(string, seq<CreationMessage>), IoError>)
    ensures r.Err? <==> !pathExists && makedirsFails
    ensures r.Err? ==> r.error == CreateFailed(dirpath)
    ensures r.Ok? ==> r.value.0 == dirpath
    ensures r.Ok? ==> |r.value.1| == if hasCallback then 1 else 0
    ensures r.Ok? ==> forall m :: m in r.value.1 ==> m.path == dirpath && (m.WasCreated? <==> !pathExists)
  {
    if !pathExists then
      if makedirsFails then Err(CreateFailed(dirpath))
      else Ok((dirpath, if hasCallback then [WasCreated(dirpath)] else []))
    else Ok((dirpath, if hasCallback then [AlreadyThere(dirpath)] else []))
  }

  /** The two agree except on an existing directory, where the code as written raises and the intended one succeeds. */
  lemma CreateNewDirectoryExistingPath(dirpath: string, makedirsFails: bool, hasCallback: bool)
    ensures CreateNewDirectoryAsWritten(dirpath, true, makedirsFails, hasCallback).Err?
    ensures CreateNewDirectory(dirpath, true, makedirsFails, hasCallback) ==
            Ok((dirpath, if hasCallback then [AlreadyThere(dirpath)] else []))
    ensures forall fails: bool, cb: bool :: CreateNewDirectoryAsWritten(dirpath, false, fails, cb) == CreateNewDirectory(dirpath, false, fails, cb)
  {
  }
}
