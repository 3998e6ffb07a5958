/**
 Which rows and errors a seed plan gives (scripts/docker_live_smoke.py), stated on its records alone.
 */
module SeedRows {
  import opened Wrappers
  import opened Numerals
  import opened SeedSql

  const LETTERS := "abcdefghijklmnopqrstuvwxyz"
  const DIGITS := "0123456789"

  // ----- identifiers -----

  predicate IsLetter(c: char) {
    c in LETTERS || c == '_'
  }

  /** A lower-case letter or an underscore, and then such or digits. */
  predicate IsPlainName(s: string) {
    s != "" && IsLetter(s[0]) && forall i :: 0 <= i < |s| ==> IsLetter(s[i]) || s[i] in DIGITS
  }

  lemma LetterIff(c: char)
    ensures c in LETTERS <==> 'a' <= c <= 'z'
  {
    assert forall k :: 0 <= k < 26 ==> LETTERS[k] as int == 'a' as int + k;
    if 'a' <= c <= 'z' {
      assert LETTERS[c as int - 'a' as int] == c;
    }
  }

  lemma DigitIff(c: char)
    ensures c in DIGITS <==> '0' <= c <= '9'
  {
    assert forall k :: 0 <= k < 10 ==> DIGITS[k] as int == '0' as int + k;
    if '0' <= c <= '9' {
      assert DIGITS[c as int - '0' as int] == c;
    }
  }

  lemma NameIff(s: string)
    ensures IsName(s) <==> IsPlainName(s)
  {
    forall i | 0 <= i < |s|
      ensures IsNameStart(s[i]) <==> IsLetter(s[i])
      ensures IsNameChar(s[i]) <==> IsLetter(s[i]) || s[i] in DIGITS
    {
      LetterIff(s[i]);
      DigitIff(s[i]);
    }
  }

  lemma UnquotedIs(s: string, t: string)
    ensures t != "" && s == "\"" + t + "\"" ==> Unquoted(s) == t
    ensures Unquoted(s) != s ==> s == "\"" + Unquoted(s) + "\""
  {
    if s == "\"" + t + "\"" {
      assert |s| == |t| + 2 && s[1..|s| - 1] == t;
    }
  }

  lemma PlainIsUnquoted(s: string)
    requires IsPlainName(s)
    ensures Unquoted(s) == s
  {
    LetterIff(s[0]);
  }

  /** An identifier is a plain name, or one in double quotes. */
  lemma IdentifierIff(s: string)
    ensures IsIdentifier(s) <==> IsPlainName(s) || exists t :: IsPlainName(t) && s == "\"" + t + "\""
  {
    NameIff(Unquoted(s));
    UnquotedIs(s, Unquoted(s));
    if IsPlainName(s) {
      PlainIsUnquoted(s);
    } else if t :| IsPlainName(t) && s == "\"" + t + "\"" {
      UnquotedIs(s, t);
    }
  }

  // ----- errors -----

  /** What is missing from a record first, if anything is. */
  ghost function ErrorOf(record: Entry): Option<Error> {
    match record
    case Skipped => None
    case Record(table, columns, values) =>
      if table.None? then Some(KeyError)
      else if !IsIdentifier(table.value) then Some(ValueError)
      else if columns.None? then Some(KeyError)
      else if exists i :: 0 <= i < |columns.value| && !IsIdentifier(columns.value[i]) then Some(ValueError)
      else if values == Missing then Some(KeyError)
      else if values == NotObject then Some(ValueError)
      else if exists i :: 0 <= i < |columns.value| && columns.value[i] !in values.values then Some(KeyError)
      else None
  }

  /** The record is one of the plan, and those before it lack nothing. */
  ghost predicate IsFirstError(records: seq<Entry>, i: int, error: Error) {
    && 0 <= i < |records| && ErrorOf(records[i]) == Some(error)
    && forall j :: 0 <= j < i ==> ErrorOf(records[j]).None?
  }

  lemma {:induction false} PickError(columns: seq<string>, values: map<string, Value>)
    ensures Pick(columns, values).Err? ==> Pick(columns, values).error == KeyError
  {
    if columns != [] {
      PickError(columns[1..], values);
    }
  }

  lemma BadColumnIff(columns: seq<string>)
    ensures (exists c :: c in columns && !IsIdentifier(c)) <==>
      exists i :: 0 <= i < |columns| && !IsIdentifier(columns[i])
  {
  }

  lemma ValuesError(record: Entry)
    requires record.Record? && record.table.Some? && IsIdentifier(record.table.value) && record.columns.Some?
    requires record.values.Object? && forall c :: c in record.columns.value ==> IsIdentifier(c)
    ensures var columns := record.columns.value;
      if exists i :: 0 <= i < |columns| && columns[i] !in record.values.values then RowOf(record) == Err(KeyError)
      else RowOf(record).Ok?
  {
    PickIsTotal(record.columns.value, record.values.values);
    PickError(record.columns.value, record.values.values);
  }

  lemma ColumnsError(record: Entry)
    requires record.Record? && record.table.Some? && IsIdentifier(record.table.value) && record.columns.Some?
    ensures if ErrorOf(record).None? then RowOf(record).Ok? else RowOf(record) == Err(ErrorOf(record).value)
  {
    BadColumnIff(record.columns.value);
    if i :| 0 <= i < |record.columns.value| && !IsIdentifier(record.columns.value[i]) {
      assert RowOf(record) == Err(ValueError);
    } else if record.values.Object? {
      ValuesError(record);
    }
  }

  lemma RecordError(record: Entry)
    requires record.Record?
    ensures if ErrorOf(record).None? then RowOf(record).Ok? else RowOf(record) == Err(ErrorOf(record).value)
  {
    if record.table.Some? && IsIdentifier(record.table.value) && record.columns.Some? {
      ColumnsError(record);
    }
  }

  /** The error of a plan is that of its first record that lacks something. */
  lemma {:induction false} PlanError(records: seq<Entry>) returns (i: nat)
    requires RowsOf(records).Err?
    ensures IsFirstError(records, i, RowsOf(records).error)
  {
    if records[0].Record? {
      RecordError(records[0]);
    }
    if ErrorOf(records[0]).Some? {
      i := 0;
    } else {
      i := PlanError(records[1..]);
      assert forall j :: 0 < j <= i ==> records[j] == records[1..][j - 1];
      i := i + 1;
    }
  }

  // ----- rows -----

  /** The records that are objects, in order. */
  function ObjectsOf(records: seq<Entry>): (r: seq<Entry>)
    ensures forall i :: 0 <= i < |r| ==> r[i].Record?
  {
    if records == [] then []
    else if records[|records| - 1] == Skipped then ObjectsOf(records[..|records| - 1])
    else ObjectsOf(records[..|records| - 1]) + [records[|records| - 1]]
  }

  /** The row has the table, the columns and under each column the value of the record. */
  predicate IsRowOf(row: Row, record: Entry) {
    && record.Record? && record.table == Some(row.table) && record.columns == Some(row.columns)
    && record.values.Object? && |row.values| == |row.columns|
    && forall i :: 0 <= i < |row.columns| ==>
         row.columns[i] in record.values.values && row.values[i] == record.values.values[row.columns[i]]
  }

  lemma {:induction false} ObjectsFirst(record: Entry, records: seq<Entry>)
    ensures ObjectsOf([record] + records) == (if record == Skipped then [] else [record]) + ObjectsOf(records)
  {
    if records == [] {
      assert [record] + records == [record] && [record][..0] == [];
    } else {
      assert ([record] + records)[..|records|] == [record] + records[..|records| - 1];
      ObjectsFirst(record, records[..|records| - 1]);
    }
  }

  lemma RecordRow(record: Entry)
    requires record.Record? && RowOf(record).Ok?
    ensures IsRowOf(RowOf(record).value, record)
  {
    PickIsTotal(record.columns.value, record.values.values);
  }

  /** The rows of a plan are those of its objects, in order, column by column. */
  lemma {:induction false} PlanRows(records: seq<Entry>)
    requires RowsOf(records).Ok?
    ensures |RowsOf(records).value| == |ObjectsOf(records)|
    ensures forall k :: 0 <= k < |ObjectsOf(records)| ==> IsRowOf(RowsOf(records).value[k], ObjectsOf(records)[k])
  {
    if records != [] {
      PlanRows(records[1..]);
      ObjectsFirst(records[0], records[1..]);
      assert [records[0]] + records[1..] == records;
      if records[0].Record? {
        RecordRow(records[0]);
      }
    }
  }

  /** A number is written with a minus sign exactly if it is negative. */
  lemma SignIff(n: int)
    ensures SqlLiteral(Int(n)) != "" && (SqlLiteral(Int(n))[0] == '-' <==> n < 0)
  {
    if n >= 0 {
      assert DigitValue(Show(n, 10)[0]) < 10;
    }
  }
}
