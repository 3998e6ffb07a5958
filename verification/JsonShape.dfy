/**
 What the normaliser of response values makes of each kind of value, at every depth, and which error it raises
 (app/token_payments/api/contracts.py).
 */
module JsonShape {
  import opened Wrappers
  import opened TextTools
  import opened JsonSafe

  // ----- what stands at each place -----

  /** The same keys in the same order, as names. */
  predicate SameNames(out: seq<Entry>, names: seq<Key>) {
    |out| == |names| && forall i :: 0 <= i < |out| ==> out[i].key == names[i]
  }

  function KeysOf(entries: seq<Entry>): seq<Key> {
    seq(|entries|, i requires 0 <= i < |entries| => entries[i].key)
  }

  function NamesOf(fields: seq<Field>): seq<Key> {
    seq(|fields|, i requires 0 <= i < |fields| => Name(fields[i].name))
  }

  /** JSON values stay; decimals, dates with a zone and ids are shown as their texts, addresses in checksum form;
      mappings and records are dictionaries with the same keys, and sequences are lists as long as they were. */
  predicate IsShownAs(here: Value, there: Value, checksum: Checksum) {
    match here
    case Null => there == Null
    case Bool(b) => there == Bool(b)
    case Int(n) => there == Int(n)
    case Text(text) => there == Text(text)
    case Member(text) => there == Member(text)
    case FiniteFloat(x) => there == FiniteFloat(x)
    case Decimal(text) => there == Text(text)
    case DateTime(aware, text) => aware && there == Text(text)
    case Uuid(text) => there == Text(text)
    case Wallet(address) => there == Text(checksum(address))
    case Mapping(_, entries) => there.Mapping? && there.isDict && SameNames(there.entries, KeysOf(entries))
    case Data(fields) => there.Mapping? && there.isDict && SameNames(there.entries, NamesOf(fields))
    case Sequence(_, items) => there.Sequence? && there.isList && |there.items| == |items|
    case NonFiniteFloat => false
    case Other => false
  }

  lemma TopIsShown(v: Value, checksum: Checksum)
    requires Keyed(v) && ToJsonSafe(v, checksum).Ok?
    ensures IsShownAs(v, ToJsonSafe(v, checksum).value, checksum)
  {
    KeepsMembers(v, checksum);
    match v
    case Mapping(_, entries) => EntriesKeepOrder(entries, checksum);
    case Data(fields) => FieldsKeepOrder(fields, checksum);
    case _ =>
  }

  lemma {:induction false} KeyedAt(v: Value, path: seq<nat>)
    requires KeyedThroughout(v) && At(v, path).Some?
    ensures KeyedThroughout(At(v, path).value)
    decreases path
  {
    if path != [] {
      KeyedAt(Child(v, path[0]), path[1..]);
    }
  }

  /** Every value of the input, at any depth, is shown at its place in the output. */
  lemma PlacesAreShown(v: Value, path: seq<nat>, checksum: Checksum)
    requires KeyedThroughout(v) && ToJsonSafe(v, checksum).Ok? && At(v, path).Some?
    ensures var there := At(ToJsonSafe(v, checksum).value, path);
      there.Some? && IsShownAs(At(v, path).value, there.value, checksum)
  {
    PlacesAreKept(v, path, checksum);
    KeyedAt(v, path);
    TopIsShown(At(v, path).value, checksum);
  }

  // ----- which error is raised -----

  /** All refusals inside a value, in the order in which a reader meets them: a key before its value. */
  function Refusals(v: Value): seq<Error>
    decreases v
  {
    match v
    case NonFiniteFloat => [ValueError]
    case DateTime(aware, _) => if aware then [] else [ValueError]
    case Other => [TypeError]
    case Mapping(_, entries) => EntryRefusals(entries)
    case Sequence(_, items) => ItemRefusals(items)
    case Data(fields) => FieldRefusals(fields)
    case _ => []
  }

  function EntryRefusals(entries: seq<Entry>): seq<Error>
    decreases entries
  {
    if entries == [] then []
    else
      var last := entries[|entries| - 1];
      var isKey := last.key.Name? && exists i :: 0 <= i < |last.key.name| && !IsSpace(last.key.name[i]);
      EntryRefusals(entries[..|entries| - 1]) + (if isKey then [] else [ValueError]) + Refusals(ValueOf(last))
  }

  function ItemRefusals(items: seq<Value>): seq<Error>
    decreases items
  {
    if items == [] then [] else ItemRefusals(items[..|items| - 1]) + Refusals(items[|items| - 1])
  }

  function FieldRefusals(fields: seq<Field>): seq<Error>
    decreases fields
  {
    if fields == [] then [] else FieldRefusals(fields[..|fields| - 1]) + Refusals(fields[|fields| - 1].value)
  }

  /** Success exactly without refusals, and otherwise the first of them. */
  predicate IsFirstOf<T>(r: Result<T, Error>, refusals: seq<Error>) {
    if refusals == [] then r.Ok? else r == Err(refusals[0])
  }

  /** Normalising raises the error of the first refusal in reading order, and none if there is no refusal. */
  lemma {:induction false} FirstErrorIs(v: Value, checksum: Checksum)
    ensures IsFirstOf(ToJsonSafe(v, checksum), Refusals(v))
    decreases v
  {
    match v
    case Mapping(_, entries) => FirstEntryError(entries, checksum);
    case Sequence(_, items) => FirstItemError(items, checksum);
    case Data(fields) => FirstFieldError(fields, checksum);
    case _ =>
  }

  lemma {:induction false} FirstEntryError(entries: seq<Entry>, checksum: Checksum)
    ensures IsFirstOf(SafeEntries(entries, checksum), EntryRefusals(entries))
    decreases entries
  {
    if entries != [] {
      FirstEntryError(entries[..|entries| - 1], checksum);
      FirstErrorIs(ValueOf(entries[|entries| - 1]), checksum);
    }
  }

  lemma {:induction false} FirstItemError(items: seq<Value>, checksum: Checksum)
    ensures IsFirstOf(SafeItems(items, checksum), ItemRefusals(items))
    decreases items
  {
    if items != [] {
      FirstItemError(items[..|items| - 1], checksum);
      FirstErrorIs(items[|items| - 1], checksum);
    }
  }

  lemma {:induction false} FirstFieldError(fields: seq<Field>, checksum: Checksum)
    ensures IsFirstOf(SafeFields(fields, checksum), FieldRefusals(fields))
    decreases fields
  {
    if fields != [] {
      FirstFieldError(fields[..|fields| - 1], checksum);
      FirstErrorIs(fields[|fields| - 1].value, checksum);
    }
  }
}
