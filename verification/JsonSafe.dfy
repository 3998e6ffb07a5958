/** The normaliser of response values (app/token_payments/api/contracts.py). */
module JsonSafe {
  import opened Wrappers
  import opened TextTools

  datatype Error = ValueError | TypeError

  /** The name of a dataclass field: an identifier, so not blank. */
  type FieldName = s: string | s != [] && !IsSpace(s[0]) witness "a"

  datatype Key = Name(name: string) | NotText

  datatype Entry = Entry(key: Key, value: Value)
  datatype Field = Field(name: FieldName, value: Value)

  /** A Python value, as far as the normaliser tells values apart. `Member` is a member of a `StrEnum`,
      which is a `str` too; `Other` is everything that none of the branches takes. */
  datatype Value =
    | Null
    | Bool(b: bool)
    | Int(n: int)
    | Text(text: string)
    | Member(text: string)
    | FiniteFloat(x: real)
    | NonFiniteFloat
    | Decimal(text: string)
    | DateTime(aware: bool, text: string)
    | Uuid(text: string)
    | Wallet(address: string)
    | Mapping(isDict: bool, entries: seq<Entry>)
    | Sequence(isList: bool, items: seq<Value>)
    | Data(fields: seq<Field>)
    | Other

  /** The checksum form of a wallet address. */
  type Checksum = string -> string

  predicate BadKey(key: Key) {
    key.NotText? || !HasText(key.name)
  }

  /** `output[key] = value`: a known key keeps its place. */
  function Put(output: seq<Entry>, key: Key, value: Value): seq<Entry> {
    if output == [] then [Entry(key, value)]
    else if output[0].key == key then [Entry(key, value)] + output[1..]
    else [output[0]] + Put(output[1..], key, value)
  }

  function ValueOf(e: Entry): (v: Value)
    ensures v < e
  {
    match e case Entry(_, value) => value
  }

  /** `_to_json_safe`. */
  function ToJsonSafe(v: Value, checksum: Checksum): Result<Value, Error>
    decreases v
  {
    match v
    case Wallet(address) => Ok(Text(checksum(address)))
    case Null => Ok(v)
    case Bool(_) => Ok(v)
    case Int(_) => Ok(v)
    case Text(_) => Ok(v)
    case Member(_) => Ok(v)
    case FiniteFloat(_) => Ok(v)
    case NonFiniteFloat => Err(ValueError)
    case Decimal(text) => Ok(Text(text))
    case DateTime(aware, text) => if aware then Ok(Text(text)) else Err(ValueError)
    case Uuid(text) => Ok(Text(text))
    case Mapping(_, entries) =>
      var r := SafeEntries(entries, checksum);
      if r.Ok? then Ok(Mapping(true, r.value)) else Err(r.error)
    case Sequence(_, items) =>
      var r := SafeItems(items, checksum);
      if r.Ok? then Ok(Sequence(true, r.value)) else Err(r.error)
    case Data(fields) =>
      var r := SafeFields(fields, checksum);
      if r.Ok? then Ok(Mapping(true, r.value)) else Err(r.error)
    case Other => Err(TypeError)
  }

  function SafeEntries(entries: seq<Entry>, checksum: Checksum): Result<seq<Entry>, Error>
    decreases entries
  {
    if entries == [] then Ok([])
    else
      var last := |entries| - 1;
      var before := SafeEntries(entries[..last], checksum);
      if before.Err? then before
      else if BadKey(entries[last].key) then Err(ValueError)
      else
        var r := ToJsonSafe(ValueOf(entries[last]), checksum);
        if r.Ok? then Ok(Put(before.value, entries[last].key, r.value)) else Err(r.error)
  }

  function SafeItems(items: seq<Value>, checksum: Checksum): Result<seq<Value>, Error>
    decreases items
  {
    if items == [] then Ok([])
    else
      var last := |items| - 1;
      var before := SafeItems(items[..last], checksum);
      if before.Err? then before
      else
        var r := ToJsonSafe(items[last], checksum);
        if r.Ok? then Ok(before.value + [r.value]) else Err(r.error)
  }

  function SafeFields(fields: seq<Field>, checksum: Checksum): Result<seq<Entry>, Error>
    decreases fields
  {
    if fields == [] then Ok([])
    else
      var last := |fields| - 1;
      var before := SafeFields(fields[..last], checksum);
      if before.Err? then before
      else
        var r := ToJsonSafe(fields[last].value, checksum);
        if r.Ok? then Ok(Put(before.value, Name(fields[last].name), r.value)) else Err(r.error)
  }

  /** `_to_json_safe_mapping` on a mapping. */
  method ToJsonSafeMapping(entries: seq<Entry>, checksum: Checksum) returns (r: Result<seq<Entry>, Error>)
    ensures r == SafeEntries(entries, checksum)
  {
    var output := [];
    for n := 0 to |entries|
      invariant SafeEntries(entries[..n], checksum) == Ok(output)
    {
      assert entries[..n + 1][..n] == entries[..n];
      var entry := entries[n];
      if BadKey(entry.key) {
        FirstErrorStays(entries, n + 1, checksum);
        return Err(ValueError);
      }
      var item := ToJsonSafe(entry.value, checksum);
      if item.Err? {
        FirstErrorStays(entries, n + 1, checksum);
        return Err(item.error);
      }
      output := Put(output, entry.key, item.value);
    }
    assert entries[..|entries|] == entries;
    return Ok(output);
  }

  lemma {:induction false} FirstErrorStays(entries: seq<Entry>, n: nat, checksum: Checksum)
    requires n <= |entries| && SafeEntries(entries[..n], checksum).Err?
    ensures SafeEntries(entries, checksum) == SafeEntries(entries[..n], checksum)
  {
    if n < |entries| {
      var last := |entries| - 1;
      assert entries[..last][..n] == entries[..n];
      FirstErrorStays(entries[..last], n, checksum);
    } else {
      assert entries[..n] == entries;
    }
  }

  // ----- values inside values -----

  function Size(v: Value): nat {
    match v
    case Mapping(_, entries) => |entries|
    case Sequence(_, items) => |items|
    case Data(fields) => |fields|
    case _ => 0
  }

  function Child(v: Value, i: nat): (c: Value)
    requires i < Size(v)
    ensures c < v
  {
    match v
    case Mapping(_, entries) => entries[i].value
    case Sequence(_, items) => items[i]
    case Data(fields) => fields[i].value
  }

  /** The value that a list of positions leads to. */
  function At(v: Value, path: seq<nat>): Option<Value> {
    if path == [] then Some(v)
    else if path[0] < Size(v) then At(Child(v, path[0]), path[1..])
    else None
  }

  /** What the normaliser refuses, wherever it finds it. */
  ghost predicate Refused(v: Value) {
    || v.NonFiniteFloat? || v.Other? || (v.DateTime? && !v.aware)
    || (v.Mapping? && exists i :: 0 <= i < |v.entries| && BadKey(v.entries[i].key))
  }

  ghost predicate RefusedSomewhere(v: Value) {
    exists path :: At(v, path).Some? && Refused(At(v, path).value)
  }

  lemma RefusedBelow(v: Value)
    ensures RefusedSomewhere(v) <==> Refused(v) || exists i: nat :: i < Size(v) && RefusedSomewhere(Child(v, i))
  {
    if Refused(v) {
      assert At(v, []) == Some(v);
    }
    if i: nat :| i < Size(v) && RefusedSomewhere(Child(v, i)) {
      var path :| At(Child(v, i), path).Some? && Refused(At(Child(v, i), path).value);
      assert ([i] + path)[1..] == path;
      assert At(v, [i] + path) == At(Child(v, i), path);
    }
    if path :| At(v, path).Some? && Refused(At(v, path).value) {
      if path != [] {
        assert At(v, path) == At(Child(v, path[0]), path[1..]);
        assert RefusedSomewhere(Child(v, path[0]));
      }
    }
  }

  /** Normalising fails exactly on values with something refused at some depth. */
  lemma {:induction false} SucceedsIff(v: Value, checksum: Checksum)
    ensures ToJsonSafe(v, checksum).Ok? <==> !RefusedSomewhere(v)
    decreases v
  {
    RefusedBelow(v);
    match v
    case Mapping(_, entries) =>
      EntriesSucceedIff(entries, checksum);
      assert forall i: nat :: i < |entries| ==> Child(v, i) == entries[i].value;
    case Sequence(_, items) =>
      ItemsSucceedIff(items, checksum);
      assert forall i: nat :: i < |items| ==> Child(v, i) == items[i];
    case Data(fields) =>
      FieldsSucceedIff(fields, checksum);
      assert forall i: nat :: i < |fields| ==> Child(v, i) == fields[i].value;
    case _ =>
  }

  lemma {:induction false} EntriesSucceedIff(entries: seq<Entry>, checksum: Checksum)
    ensures SafeEntries(entries, checksum).Ok? <==>
      forall i: nat :: i < |entries| ==> !BadKey(entries[i].key) && !RefusedSomewhere(entries[i].value)
    decreases entries
  {
    if entries != [] {
      var last := |entries| - 1;
      EntriesSucceedIff(entries[..last], checksum);
      SucceedsIff(ValueOf(entries[last]), checksum);
      assert forall i: nat :: i < last ==> entries[..last][i] == entries[i];
    }
  }

  lemma {:induction false} ItemsSucceedIff(items: seq<Value>, checksum: Checksum)
    ensures SafeItems(items, checksum).Ok? <==> forall i: nat :: i < |items| ==> !RefusedSomewhere(items[i])
    decreases items
  {
    if items != [] {
      var last := |items| - 1;
      ItemsSucceedIff(items[..last], checksum);
      SucceedsIff(items[last], checksum);
      assert forall i: nat :: i < last ==> items[..last][i] == items[i];
    }
  }

  lemma {:induction false} FieldsSucceedIff(fields: seq<Field>, checksum: Checksum)
    ensures SafeFields(fields, checksum).Ok? <==> forall i: nat :: i < |fields| ==> !RefusedSomewhere(fields[i].value)
    decreases fields
  {
    if fields != [] {
      var last := |fields| - 1;
      FieldsSucceedIff(fields[..last], checksum);
      SucceedsIff(fields[last].value, checksum);
      assert forall i: nat :: i < last ==> fields[..last][i] == fields[i];
    }
  }

  // ----- the JSON subset -----

  ghost predicate DistinctKeys(entries: seq<Entry>) {
    forall i, j :: 0 <= i < j < |entries| ==> entries[i].key != entries[j].key
  }

  /** What can be written as JSON: texts (of an enumeration or not), numbers that are finite, lists, and
      dictionaries with distinct non-blank text keys. */
  ghost predicate IsJson(v: Value) {
    match v
    case Mapping(isDict, entries) => isDict && AreJson(entries)
    case Sequence(isList, items) => isList && forall i :: 0 <= i < |items| ==> IsJson(items[i])
    case _ => v.Null? || v.Bool? || v.Int? || v.Text? || v.Member? || v.FiniteFloat?
  }

  ghost predicate AreJson(entries: seq<Entry>) {
    DistinctKeys(entries) && forall i :: 0 <= i < |entries| ==> !BadKey(entries[i].key) && IsJson(ValueOf(entries[i]))
  }

  lemma {:induction false} PutKeepsJson(output: seq<Entry>, key: Key, value: Value)
    requires AreJson(output) && !BadKey(key) && IsJson(value)
    ensures AreJson(Put(output, key, value))
    ensures forall i :: 0 <= i < |Put(output, key, value)| ==>
      Put(output, key, value)[i].key == key ||
      exists j :: 0 <= j < |output| && output[j].key == Put(output, key, value)[i].key
  {
    if output != [] {
      if output[0].key != key {
        PutKeepsJson(output[1..], key, value);
      }
    }
  }

  /** The output lies in the JSON subset, at every depth. */
  lemma {:induction false} OutputIsJson(v: Value, checksum: Checksum)
    requires ToJsonSafe(v, checksum).Ok?
    ensures IsJson(ToJsonSafe(v, checksum).value)
    decreases v
  {
    match v
    case Mapping(_, entries) => EntriesAreJson(entries, checksum);
    case Sequence(_, items) => ItemsAreJson(items, checksum);
    case Data(fields) => FieldsAreJson(fields, checksum);
    case _ =>
  }

  lemma {:induction false} EntriesAreJson(entries: seq<Entry>, checksum: Checksum)
    requires SafeEntries(entries, checksum).Ok?
    ensures AreJson(SafeEntries(entries, checksum).value)
    decreases entries
  {
    if entries != [] {
      var last := |entries| - 1;
      EntriesAreJson(entries[..last], checksum);
      OutputIsJson(ValueOf(entries[last]), checksum);
      PutKeepsJson(SafeEntries(entries[..last], checksum).value, entries[last].key,
        ToJsonSafe(entries[last].value, checksum).value);
    }
  }

  lemma {:induction false} ItemsAreJson(items: seq<Value>, checksum: Checksum)
    requires SafeItems(items, checksum).Ok?
    ensures forall i :: 0 <= i < |SafeItems(items, checksum).value| ==> IsJson(SafeItems(items, checksum).value[i])
    decreases items
  {
    if items != [] {
      var last := |items| - 1;
      ItemsAreJson(items[..last], checksum);
      OutputIsJson(items[last], checksum);
    }
  }

  lemma {:induction false} FieldsAreJson(fields: seq<Field>, checksum: Checksum)
    requires SafeFields(fields, checksum).Ok?
    ensures AreJson(SafeFields(fields, checksum).value)
    decreases fields
  {
    if fields != [] {
      var last := |fields| - 1;
      FieldsAreJson(fields[..last], checksum);
      OutputIsJson(fields[last].value, checksum);
      assert HasText(fields[last].name);
      PutKeepsJson(SafeFields(fields[..last], checksum).value, Name(fields[last].name),
        ToJsonSafe(fields[last].value, checksum).value);
    }
  }

  lemma {:induction false} PutNewKey(output: seq<Entry>, key: Key, value: Value)
    requires forall i :: 0 <= i < |output| ==> output[i].key != key
    ensures Put(output, key, value) == output + [Entry(key, value)]
  {
    if output != [] {
      PutNewKey(output[1..], key, value);
    }
  }

  lemma {:induction false} JsonIsKept(v: Value, checksum: Checksum)
    requires IsJson(v)
    ensures ToJsonSafe(v, checksum) == Ok(v)
    decreases v
  {
    match v
    case Mapping(_, entries) => EntriesAreKept(entries, checksum);
    case Sequence(_, items) => ItemsAreKept(items, checksum);
    case _ =>
  }

  lemma {:induction false} EntriesAreKept(entries: seq<Entry>, checksum: Checksum)
    requires AreJson(entries)
    ensures SafeEntries(entries, checksum) == Ok(entries)
    decreases entries
  {
    if entries != [] {
      var last := |entries| - 1;
      EntriesAreKept(entries[..last], checksum);
      JsonIsKept(ValueOf(entries[last]), checksum);
      PutNewKey(entries[..last], entries[last].key, entries[last].value);
      assert entries == entries[..last] + [entries[last]];
    }
  }

  lemma {:induction false} ItemsAreKept(items: seq<Value>, checksum: Checksum)
    requires forall i :: 0 <= i < |items| ==> IsJson(items[i])
    ensures SafeItems(items, checksum) == Ok(items)
    decreases items
  {
    if items != [] {
      var last := |items| - 1;
      ItemsAreKept(items[..last], checksum);
      JsonIsKept(items[last], checksum);
      assert items == items[..last] + [items[last]];
    }
  }

  /** The values that normalising leaves alone are exactly those of the JSON subset. */
  lemma FixedPointIff(v: Value, checksum: Checksum)
    ensures ToJsonSafe(v, checksum) == Ok(v) <==> IsJson(v)
  {
    if ToJsonSafe(v, checksum).Ok? {
      OutputIsJson(v, checksum);
    }
    if IsJson(v) {
      JsonIsKept(v, checksum);
    }
  }

  /** Normalising a normalised value changes nothing, even with another checksum. */
  lemma Idempotent(v: Value, checksum: Checksum, other: Checksum)
    requires ToJsonSafe(v, checksum).Ok?
    ensures ToJsonSafe(ToJsonSafe(v, checksum).value, other) == ToJsonSafe(v, checksum)
  {
    OutputIsJson(v, checksum);
    JsonIsKept(ToJsonSafe(v, checksum).value, other);
  }

  // ----- nothing is lost -----

  /** Entries and fields have distinct names, as those of a dictionary or a class have. */
  ghost predicate Keyed(v: Value) {
    match v
    case Mapping(_, entries) => DistinctKeys(entries)
    case Data(fields) => forall i, j :: 0 <= i < j < |fields| ==> fields[i].name != fields[j].name
    case _ => true
  }

  ghost predicate KeyedThroughout(v: Value) {
    Keyed(v) && forall i: nat :: i < Size(v) ==> KeyedThroughout(Child(v, i))
  }

  function KeyAt(v: Value, i: nat): Option<Key>
    requires i < Size(v)
  {
    match v
    case Mapping(_, entries) => Some(entries[i].key)
    case Data(fields) => Some(Name(fields[i].name))
    case _ => None
  }

  /** `out` has the members of `v` under the same keys in the same order, each of them normalised. */
  ghost predicate SameMembers(v: Value, out: Value, checksum: Checksum) {
    && Size(out) == Size(v)
    && forall i: nat :: i < Size(v) ==>
        KeyAt(out, i) == KeyAt(v, i) && ToJsonSafe(Child(v, i), checksum) == Ok(Child(out, i))
  }

  lemma {:induction false} EntriesKeepOrder(entries: seq<Entry>, checksum: Checksum)
    requires DistinctKeys(entries) && SafeEntries(entries, checksum).Ok?
    ensures var out := SafeEntries(entries, checksum).value;
      |out| == |entries| && forall i :: 0 <= i < |out| ==>
        out[i].key == entries[i].key && ToJsonSafe(entries[i].value, checksum) == Ok(out[i].value)
    decreases entries
  {
    if entries != [] {
      var last := |entries| - 1;
      EntriesKeepOrder(entries[..last], checksum);
      PutNewKey(SafeEntries(entries[..last], checksum).value, entries[last].key,
        ToJsonSafe(entries[last].value, checksum).value);
      assert forall i :: 0 <= i < last ==> entries[..last][i] == entries[i];
    }
  }

  lemma {:induction false} FieldsKeepOrder(fields: seq<Field>, checksum: Checksum)
    requires Keyed(Data(fields)) && SafeFields(fields, checksum).Ok?
    ensures var out := SafeFields(fields, checksum).value;
      |out| == |fields| && forall i :: 0 <= i < |out| ==>
        out[i].key == Name(fields[i].name) && ToJsonSafe(fields[i].value, checksum) == Ok(out[i].value)
    decreases fields
  {
    if fields != [] {
      var last := |fields| - 1;
      FieldsKeepOrder(fields[..last], checksum);
      PutNewKey(SafeFields(fields[..last], checksum).value, Name(fields[last].name),
        ToJsonSafe(fields[last].value, checksum).value);
      assert forall i :: 0 <= i < last ==> fields[..last][i] == fields[i];
    }
  }

  lemma {:induction false} ItemsKeepOrder(items: seq<Value>, checksum: Checksum)
    requires SafeItems(items, checksum).Ok?
    ensures var out := SafeItems(items, checksum).value;
      |out| == |items| && forall i :: 0 <= i < |out| ==> ToJsonSafe(items[i], checksum) == Ok(out[i])
    decreases items
  {
    if items != [] {
      ItemsKeepOrder(items[..|items| - 1], checksum);
    }
  }

  lemma KeepsMembers(v: Value, checksum: Checksum)
    requires Keyed(v) && ToJsonSafe(v, checksum).Ok?
    ensures SameMembers(v, ToJsonSafe(v, checksum).value, checksum)
  {
    match v
    case Mapping(_, entries) => EntriesKeepOrder(entries, checksum);
    case Sequence(_, items) => ItemsKeepOrder(items, checksum);
    case Data(fields) => FieldsKeepOrder(fields, checksum);
    case _ =>
  }

  /** The output has the same places as the input, and at each of them the normalised value of that place. */
  lemma {:induction false} PlacesAreKept(v: Value, path: seq<nat>, checksum: Checksum)
    requires KeyedThroughout(v) && ToJsonSafe(v, checksum).Ok?
    ensures var there, here := At(ToJsonSafe(v, checksum).value, path), At(v, path);
      (there.Some? <==> here.Some?) && (here.Some? ==> ToJsonSafe(here.value, checksum) == Ok(there.value))
    decreases path
  {
    KeepsMembers(v, checksum);
    if path != [] && path[0] < Size(v) {
      PlacesAreKept(Child(v, path[0]), path[1..], checksum);
    }
  }
}
