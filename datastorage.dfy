/**
 * The single-document storage of bgstools.datastorage as its tests pin it
 * down: a storage strategy that loads, stores, updates and deletes one
 * document, either in memory or in a YAML file, and the `DataStore` façade
 * that forwards every call to the one strategy it was given.
 */
module DataStorage {
  import opened Wrappers
  import opened Documents

  /**
   * The file at a YAML storage's path: absent (`None`) or present holding one
   * document. YAML serialisation is taken to be lossless, so the file holds
   * the document itself.
   */
  class DocumentFile {
    const path: string
    var content: Option<Document>

    constructor (path: string, content: Option<Document>)
      ensures this.path == path && this.content == content
    {
      this.path := path;
      this.content := content;
    }

    /** `os.path.exists(path)` */
    function Exists(): (present: bool)
      reads this
      ensures present <==> content != None
    {
      content.Some?
    }

    /** `yaml.safe_dump(document, open(path, 'w'))`: creates or overwrites the file. */
    method Dump(document: Document)
      modifies this
      ensures content == Some(document)
    {
      content := Some(document);
    }

    /**
     * `yaml.safe_load(open(path))` on a present file. An absent file yields
     * `None`, which is the model's encoding of absence (Python's `open` would
     * raise); `load_data` reads it as `{}`.
     */
    method SafeLoad() returns (document: Option<Document>)
      ensures document == content
    {
      document := content;
    }

    /** `os.remove(path)` when the file is present; an absent file stays absent. */
    method Remove()
      modifies this
      ensures content == None
    {
      content := None;
    }
  }

  /**
   * A storage strategy. `file == None` is the in-memory `StorageStrategy`;
   * `file == Some(f)` is `YamlStorage` over the file `f`, fixed at construction.
   */
  class StorageStrategy {
    const file: Option<DocumentFile>
    /** The strategy's `data` attribute: the document last loaded, stored or updated. */
    var data: Document

    /** The objects the strategy's operations may change. */
    ghost function Repr(): set<object> {
      {this} + if file.Some? then {file.value} else {}
    }

    /** The document the next `load_data` yields: `data` in memory, the file's document (or `{}`) on disk. */
    ghost function Stored(): Document
      reads Repr()
    {
      match file
      case None => data
      case Some(f) => f.content.GetOr(EmptyDocument)
    }

    /** `StorageStrategy()`: no backing medium, `data` starts as `{}`. */
    constructor InMemory()
      ensures file == None && data == EmptyDocument && Stored() == EmptyDocument
    {
      file := None;
      data := EmptyDocument;
    }

    /** `YamlStorage(file_path)`: the file is not touched until an operation runs. */
    constructor Yaml(f: DocumentFile)
      ensures file == Some(f) && data == EmptyDocument
    {
      file := Some(f);
      data := EmptyDocument;
    }

    /** `store_data(document)`: replaces the document, and writes it to the file if there is one. */
    method StoreData(document: Document)
      modifies Repr()
      ensures data == document && Stored() == document
      ensures file.Some? ==> file.value.content == Some(document)
    {
      data := document;
      if file.Some? {
        file.value.Dump(document);
      }
    }

    /**
     * `load_data()`: returns the stored document and keeps it in `data`; the
     * file is re-read on every call, and an absent file loads as `{}`.
     */
    method LoadData() returns (document: Document)
      modifies this
      ensures document == old(Stored()) && data == document
      ensures Stored() == old(Stored())
    {
      match file
      case None =>
        document := data;
      case Some(f) =>
        var content := f.SafeLoad();
        document := content.GetOr(EmptyDocument);
        data := document;
    }

    /** `update_data(transform)`: stores `transform` applied to the document as currently stored. */
    method UpdateData(transform: Document -> Document)
      modifies Repr()
      ensures data == transform(old(Stored())) && Stored() == data
      ensures file.Some? ==> file.value.content == Some(data)
    {
      var current := LoadData();
      StoreData(transform(current));
    }

    /** `delete_data()`: back to `{}`; the file, if any, is removed (removing an absent file is not an error). */
    method DeleteData()
      modifies Repr()
      ensures data == EmptyDocument && Stored() == EmptyDocument
      ensures file.Some? ==> file.value.content == None
    {
      data := EmptyDocument;
      if file.Some? {
        file.value.Remove();
      }
    }
  }

  /** `DataStore(strategy)`: holds one strategy for its whole life and forwards every call to it unchanged. */
  class DataStore {
    const strategy: StorageStrategy

    constructor (strategy: StorageStrategy)
      ensures this.strategy == strategy
    {
      this.strategy := strategy;
    }

    method StoreData(document: Document)
      modifies strategy.Repr()
      ensures strategy.data == document && strategy.Stored() == document
      ensures strategy.file.Some? ==> strategy.file.value.content == Some(document)
    {
      strategy.StoreData(document);
    }

    method LoadData() returns (document: Document)
      modifies strategy
      ensures document == old(strategy.Stored()) && strategy.data == document
      ensures strategy.Stored() == old(strategy.Stored())
    {
      document := strategy.LoadData();
    }

    method UpdateData(transform: Document -> Document)
      modifies strategy.Repr()
      ensures strategy.data == transform(old(strategy.Stored())) && strategy.Stored() == strategy.data
      ensures strategy.file.Some? ==> strategy.file.value.content == Some(strategy.data)
    {
      strategy.UpdateData(transform);
    }

    method DeleteData()
      modifies strategy.Repr()
      ensures strategy.data == EmptyDocument && strategy.Stored() == EmptyDocument
      ensures strategy.file.Some? ==> strategy.file.value.content == None
    {
      strategy.DeleteData();
    }
  }

  // The scenarios of the three test classes, each over fresh objects. A YAML
  // file starts absent, as in the tests' temporary directory, unless the
  // scenario says otherwise.

  /** A fresh in-memory strategy loads `{}`. */
  method InMemoryFreshLoad() returns (held: Document)
    ensures held == EmptyDocument
  {
    var s := new StorageStrategy.InMemory();
    var _ := s.LoadData();
    held := s.data;
  }

  /** After `store_data(d)` the in-memory strategy holds `d`. */
  method InMemoryStore(document: Document) returns (held: Document)
    ensures held == document
  {
    var s := new StorageStrategy.InMemory();
    s.StoreData(document);
    held := s.data;
  }

  /** `update_data(f)` after `store_data(d)` leaves `f(d)`. */
  method InMemoryUpdate(document: Document, transform: Document -> Document) returns (held: Document)
    ensures held == transform(document)
  {
    var s := new StorageStrategy.InMemory();
    s.StoreData(document);
    s.UpdateData(transform);
    held := s.data;
  }

  /** `delete_data()` after a store leaves `{}`. */
  method InMemoryDelete(document: Document) returns (held: Document)
    ensures held == EmptyDocument
  {
    var s := new StorageStrategy.InMemory();
    s.StoreData(document);
    s.DeleteData();
    held := s.data;
  }

  /** After `store_data(d)` the file, read back with the YAML loader, holds `d`, whatever it held before. */
  method YamlStoreWritesFile(path: string, existing: Option<Document>, document: Document)
    returns (onDisk: Option<Document>)
    ensures onDisk == Some(document)
  {
    var f := new DocumentFile(path, existing);
    var s := new StorageStrategy.Yaml(f);
    s.StoreData(document);
    onDisk := f.SafeLoad();
  }

  /** A document dumped into the file after the strategy was built is what `load_data` puts in `data`. */
  method YamlLoadReadsFile(path: string, document: Document) returns (held: Document)
    ensures held == document
  {
    var f := new DocumentFile(path, None);
    var s := new StorageStrategy.Yaml(f);
    f.Dump(document);
    var _ := s.LoadData();
    held := s.data;
  }

  /** On a first run, with no file yet, `load_data` yields `{}` rather than failing. */
  method YamlFirstRunLoad(path: string) returns (loaded: Document)
    ensures loaded == EmptyDocument
  {
    var f := new DocumentFile(path, None);
    var s := new StorageStrategy.Yaml(f);
    loaded := s.LoadData();
  }

  /** `update_data(f)` after `store_data(d)` leaves the file holding `f(d)`. */
  method YamlUpdateRewritesFile(path: string, document: Document, transform: Document -> Document)
    returns (onDisk: Option<Document>)
    ensures onDisk == Some(transform(document))
  {
    var f := new DocumentFile(path, None);
    var s := new StorageStrategy.Yaml(f);
    s.StoreData(document);
    s.UpdateData(transform);
    onDisk := f.SafeLoad();
  }

  /** `delete_data()` after a store leaves no file at the path. */
  method YamlDeleteRemovesFile(path: string, document: Document) returns (present: bool)
    ensures !present
  {
    var f := new DocumentFile(path, None);
    var s := new StorageStrategy.Yaml(f);
    s.StoreData(document);
    s.DeleteData();
    present := f.Exists();
  }

  /** Deleting twice is not an error, and a load afterwards yields `{}`. */
  method YamlDeleteTwice(path: string, existing: Option<Document>) returns (loaded: Document, present: bool)
    ensures loaded == EmptyDocument && !present
  {
    var f := new DocumentFile(path, existing);
    var s := new StorageStrategy.Yaml(f);
    s.DeleteData();
    s.DeleteData();
    loaded := s.LoadData();
    present := f.Exists();
  }

  /** Through the façade over a YAML strategy, store then load returns the stored document. */
  method FacadeStoreThenLoad(path: string, document: Document) returns (loaded: Document)
    ensures loaded == document
  {
    var f := new DocumentFile(path, None);
    var s := new StorageStrategy.Yaml(f);
    var store := new DataStore(s);
    store.StoreData(document);
    loaded := store.LoadData();
  }

  /** Through the façade, update then load returns the transform's result. */
  method FacadeUpdateThenLoad(path: string, document: Document, transform: Document -> Document)
    returns (loaded: Document)
    ensures loaded == transform(document)
  {
    var f := new DocumentFile(path, None);
    var s := new StorageStrategy.Yaml(f);
    var store := new DataStore(s);
    store.StoreData(document);
    store.UpdateData(transform);
    loaded := store.LoadData();
  }

  /** Through the façade, delete then load returns `{}`: the removed file loads as the empty document. */
  method FacadeDeleteThenLoad(path: string, document: Document) returns (loaded: Document)
    ensures loaded == EmptyDocument
  {
    var f := new DocumentFile(path, None);
    var s := new StorageStrategy.Yaml(f);
    var store := new DataStore(s);
    store.StoreData(document);
    store.DeleteData();
    loaded := store.LoadData();
  }

  /** One call a client makes on a storage. */
  datatype Operation =
    | Store(document: Document)
    | Load
    | Update(transform: Document -> Document)
    | Delete

  /**
   * One call made both through the façade and directly on a second YAML
   * strategy whose file and `data` equal those of the façade's strategy: the
   * two agree on what a load returns and are still equal afterwards.
   */
  method ApplyBoth(store: DataStore, direct: StorageStrategy, op: Operation)
    returns (viaFacade: Option<Document>, viaDirect: Option<Document>)
    requires store.strategy.file.Some? && direct.file.Some?
    requires store.strategy != direct && store.strategy.file.value != direct.file.value
    requires store.strategy.file.value.content == direct.file.value.content
    requires store.strategy.data == direct.data
    modifies store.strategy.Repr(), direct.Repr()
    ensures store.strategy.file.value.content == direct.file.value.content
    ensures store.strategy.data == direct.data
    ensures viaFacade == viaDirect
    ensures viaFacade.Some? <==> op.Load?
  {
    viaFacade, viaDirect := None, None;
    match op
    case Store(d) =>
      store.StoreData(d);
      direct.StoreData(d);
    case Load =>
      var a := store.LoadData();
      var b := direct.LoadData();
      viaFacade, viaDirect := Some(a), Some(b);
    case Update(t) =>
      store.UpdateData(t);
      direct.UpdateData(t);
    case Delete =>
      store.DeleteData();
      direct.DeleteData();
  }

  /**
   * Façade transparency: the same calls made through a `DataStore` over a YAML
   * strategy and made directly on a second YAML strategy observe the same
   * documents at every load, and leave the same `data` and the same file
   * behind. The two sides are independent runs, each on its own copy of the
   * same starting file (the two `DocumentFile` objects share a path but not a
   * file system), so neither overwrites the other.
   */
  method FacadeIsTransparent(path: string, existing: Option<Document>, ops: seq<Operation>)
    returns (viaFacade: seq<Document>, direct: seq<Document>, facadeFile: Option<Document>, directFile: Option<Document>,
             facadeData: Document, directData: Document)
    ensures viaFacade == direct
    ensures facadeFile == directFile
    ensures facadeData == directData
  {
    var f1 := new DocumentFile(path, existing);
    var s1 := new StorageStrategy.Yaml(f1);
    var store := new DataStore(s1);
    var f2 := new DocumentFile(path, existing);
    var s2 := new StorageStrategy.Yaml(f2);
    viaFacade, direct := [], [];
    for i := 0 to |ops|
      invariant fresh(f1) && fresh(s1) && fresh(f2) && fresh(s2)
      invariant s1.file == Some(f1) && s2.file == Some(f2) && store.strategy == s1
      invariant f1.content == f2.content && s1.data == s2.data
      invariant viaFacade == direct
    {
      var a, b := ApplyBoth(store, s2, ops[i]);
      if a.Some? {
        viaFacade, direct := viaFacade + [a.value], direct + [b.value];
      }
    }
    facadeFile, directFile := f1.content, f2.content;
    facadeData, directData := s1.data, s2.data;
  }
}
