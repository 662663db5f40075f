/**
 * `get_available_services` of bgstools/io/io.py: the services listed in a
 * YAML file, indexed by their `name` in an ordered dictionary. Whether the
 * path is a file (`os.path.isfile`) and what `load_yaml` returns for it are
 * inputs.
 */
module Services {
  import opened Wrappers
  import opened Errors
  import opened Documents
  import opened OrderedDicts

  /** `service['name']` for one record of the list, or the exception Python raises. */
  function ServiceName(record: Value): (r: Result<Value, IoError>)
    ensures r.Ok? <==> record.Mapping? && "name" in record.entries && Hashable(record.entries["name"])
    ensures r.Ok? ==> r.value == record.entries["name"]
    ensures r == Err(KeyError("name")) <==> record.Mapping? && "name" !in record.entries
    ensures r.Err? && r.error != KeyError("name") ==> r.error == TypeError
  {
    match record
    case Mapping(entries) =>
      if "name" !in entries then Err(KeyError("name"))
      else if Hashable(entries["name"]) then Ok(entries["name"])
      else Err(TypeError)  // a list or dict cannot be a dictionary key
    case _ => Err(TypeError) // None, numbers, strings and lists cannot be subscripted by 'name'
  }

  /** The `(name, record)` pairs the comprehension inserts, or the first exception it meets. */
  function ServiceEntries(records: seq<Value>): (r: Result<seq<(Value, Value)>, IoError>)
    ensures r.Ok? <==> forall i :: 0 <= i < |records| ==> ServiceName(records[i]).Ok?
    ensures r.Ok? ==> |r.value| == |records|
    ensures r.Ok? ==> forall i :: 0 <= i < |records| ==> r.value[i] == (ServiceName(records[i]).value, records[i])
    ensures r.Err? ==> exists i :: 0 <= i < |records| && ServiceName(records[i]) == Err(r.error) &&
                                   forall j :: 0 <= j < i ==> ServiceName(records[j]).Ok?
  {
    if records == [] then Ok([])
    else
      match ServiceName(records[0])
      case Err(e) => Err(e)
      case Ok(name) =>
        var rest := ServiceEntries(records[1..]);
        assert forall i :: 1 <= i < |records| ==> records[i] == records[1..][i - 1];
        if rest.Err? then
          var i :| 0 <= i < |records[1..]| && ServiceName(records[1..][i]) == Err(rest.error) &&
                   forall j :: 0 <= j < i ==> ServiceName(records[1..][j]).Ok?;
          assert ServiceName(records[i + 1]) == Err(rest.error);
          Err(rest.error)
        else
          Ok([(name, records[0])] + rest.value)
  }

  /** `OrderedDict({service['name']: service for service in services})` */
  function ServicesByName(records: seq<Value>): (r: Result<Dict<Value, Value>, IoError>)
    ensures r.Ok? <==> forall i :: 0 <= i < |records| ==> ServiceName(records[i]).Ok?
    ensures r.Ok? ==> r.value.Valid() && |r.value.keys| <= |records|
    ensures r.Ok? && records != [] ==> r.value.keys != []
    ensures r.Err? ==> exists i :: 0 <= i < |records| && ServiceName(records[i]) == Err(r.error)
  {
    match ServiceEntries(records)
    case Err(e) => Err(e)
    case Ok(entries) =>
      assert entries != [] ==> FromPairs(entries).keys != [] by {
        if entries != [] {
          FromPairsNonEmpty(entries);
        }
      }
      Ok(FromPairs(entries))
  }

  /**
   * `get_available_services(services_filepath)`: FileNotFoundError for a path
   * that is not a file; the loader's exception passes through; `None` when the
   * loaded value is falsy (no document, an empty list); otherwise the records of
   * the list indexed by name. A truthy value that is not a list makes the
   * comprehension fail with TypeError.
   */
  function GetAvailableServices(servicesFilepath: string, isFile: bool, loaded: Result<Value, IoError>)
    : (r: Result<Option<Dict<Value, Value>>, IoError>)
    ensures !isFile ==> r == Err(FileNotFound(servicesFilepath))
    ensures isFile && loaded.Err? ==> r == Err(loaded.error)
    ensures isFile && loaded.Ok? && !Truthy(loaded.value) ==> r == Ok(None)
    ensures isFile && loaded.Ok? && Truthy(loaded.value) && !loaded.value.List? ==> r == Err(TypeError)
    ensures isFile && loaded.Ok? && Truthy(loaded.value) && loaded.value.List? ==>
              var byName := ServicesByName(loaded.value.items);
              && (byName.Ok? ==> r == Ok(Some(byName.value)))
              && (byName.Err? ==> r == Err(byName.error))
    ensures r.Ok? && r.value.Some? ==> r.value.value.keys != []
  {
    if !isFile then Err(FileNotFound(servicesFilepath))
    else
      match loaded
      case Err(e) => Err(e)
      case Ok(availableServices) =>
        if !Truthy(availableServices) then Ok(None)
        else if !availableServices.List? then Err(TypeError)
        else
          match ServicesByName(availableServices.items)
          case Err(e) => Err(e)
          case Ok(d) => Ok(Some(d))
  }

  /** The dictionary is built from the comprehension's pairs, and pair `j` carries record `j`'s name. */
  lemma EntryNames(records: seq<Value>)
    requires ServicesByName(records).Ok?
    ensures ServiceEntries(records).Ok?
    ensures ServicesByName(records).value == FromPairs(ServiceEntries(records).value)
    ensures |Firsts(ServiceEntries(records).value)| == |records|
    ensures forall j :: 0 <= j < |records| ==> ServiceName(records[j]) == Ok(Firsts(ServiceEntries(records).value)[j])
  {
  }

  /** A name is a key of the result exactly when some record carries it. */
  lemma {:induction false} ServicesKeys(records: seq<Value>, name: Value)
    requires ServicesByName(records).Ok?
    ensures name in ServicesByName(records).value.items <==>
            exists i :: 0 <= i < |records| && ServiceName(records[i]) == Ok(name)
  {
    EntryNames(records);
    var entries := ServiceEntries(records).value;
    var names := Firsts(entries);
    FromPairsKeys(entries, name);
    if name in names {
      var i :| 0 <= i < |names| && names[i] == name;
      assert ServiceName(records[i]) == Ok(name);
    }
  }

  /** Each name maps to the last record that carries it. */
  lemma {:induction false} ServicesLastRecordWins(records: seq<Value>, i: nat)
    requires ServicesByName(records).Ok? && i < |records|
    requires forall j :: i < j < |records| ==> ServiceName(records[j]) != ServiceName(records[i])
    ensures ServiceName(records[i]).value in ServicesByName(records).value.items
    ensures ServicesByName(records).value.items[ServiceName(records[i]).value] == records[i]
  {
    var entries := ServiceEntries(records).value;
    FromPairsLastWins(entries, i);
  }

  /** The names are listed in the order of their first record: record `i` is the first to carry name `a`, before any carries name `b`. */
  lemma {:induction false} ServicesOrder(records: seq<Value>, a: nat, b: nat) returns (i: nat)
    requires ServicesByName(records).Ok?
    requires a < b < |ServicesByName(records).value.keys|
    ensures i < |records| && ServiceName(records[i]) == Ok(ServicesByName(records).value.keys[a])
    ensures forall j :: 0 <= j <= i ==> ServiceName(records[j]) != Ok(ServicesByName(records).value.keys[b])
  {
    EntryNames(records);
    var entries := ServiceEntries(records).value;
    var names, keys := Firsts(entries), FromPairs(entries).keys;
    FromPairsOrder(entries, a, b);
    i := FirstIndex(names, keys[a]);
    forall j | 0 <= j <= i
      ensures ServiceName(records[j]) != Ok(keys[b])
    {
      FirstIndexBefore(names, keys[b], j);
    }
  }
}
