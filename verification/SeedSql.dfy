/**
 The seed script of the local smoke run (scripts/docker_live_smoke.py): fixture records rendered as
 INSERT statements, and a reader for the SQL it consists of. Quoted constants are read as in section
 4.1.2.1 of the PostgreSQL manual: a doubled quote stands for one quote.
 */
module SeedSql {
  import opened Wrappers
  import opened TextTools
  import opened Numerals

  /** A JSON value of a fixture; of a list or an object, its JSON text. */
  datatype Value = Null | Bool(b: bool) | Int(n: int) | Text(text: string) | Json(json: string)

  datatype Error = KeyError | ValueError

  /** The `values` entry of a record. */
  datatype ValuesEntry = Missing | NotObject | Object(values: map<string, Value>)

  /** An element of `records`: not an object, or an object in which keys may be missing. */
  datatype Entry = Skipped | Record(table: Option<string>, columns: Option<seq<string>>, values: ValuesEntry)

  /** One row to insert. */
  datatype Row = Row(table: string, columns: seq<string>, values: seq<Value>)

  const BEGIN := "SET session_replication_role = 'replica';"
  const END := "SET session_replication_role = 'origin';"
  const INSERT_INTO := "INSERT INTO "
  const COLUMNS := " ("
  const VALUES := ") VALUES ("
  const DONE := ") ON CONFLICT DO NOTHING;"

  // ----- rendering -----

  function SqlQuote(s: string): string {
    if s == [] then []
    else (if s[0] == '\'' then "''" else [s[0]]) + SqlQuote(s[1..])
  }

  /** `str` of an integer. */
  function Decimal(n: int): string {
    if n < 0 then "-" + Show(-n, 10) else Show(n, 10)
  }

  function SqlLiteral(v: Value): string {
    match v
    case Null => "NULL"
    case Bool(b) => if b then "TRUE" else "FALSE"
    case Int(n) => Decimal(n)
    case Json(json) => "'" + SqlQuote(json) + "'" + "::jsonb"
    case Text(text) => "'" + SqlQuote(text) + "'"
  }

  predicate IsNameStart(c: char) {
    'a' <= c <= 'z' || c == '_'
  }

  predicate IsNameChar(c: char) {
    IsNameStart(c) || '0' <= c <= '9'
  }

  predicate IsName(s: string) {
    s != [] && IsNameStart(s[0]) && forall i :: 0 <= i < |s| ==> IsNameChar(s[i])
  }

  /** The identifier without the double quotes around it, if it has them. */
  function Unquoted(s: string): string {
    if |s| >= 2 && s[0] == '"' && s[|s| - 1] == '"' then s[1..|s| - 1] else s
  }

  /** `_sql_identifier` returns its argument; this says when. */
  predicate IsIdentifier(s: string) {
    IsName(Unquoted(s))
  }

  function Pick(columns: seq<string>, values: map<string, Value>): Result<seq<Value>, Error> {
    if columns == [] then Ok([])
    else if columns[0] !in values then Err(KeyError)
    else
      var rest := Pick(columns[1..], values);
      if rest.Ok? then Ok([values[columns[0]]] + rest.value) else rest
  }

  /** The row of a record, or what its checks raise. */
  function RowOf(record: Entry): Result<Row, Error>
    requires record.Record?
  {
    if record.table.None? then Err(KeyError)
    else if !IsIdentifier(record.table.value) then Err(ValueError)
    else if record.columns.None? then Err(KeyError)
    else if exists c :: c in record.columns.value && !IsIdentifier(c) then Err(ValueError)
    else
      match record.values
      case Missing => Err(KeyError)
      case NotObject => Err(ValueError)
      case Object(values) =>
        var picked := Pick(record.columns.value, values);
        if picked.Ok? then Ok(Row(record.table.value, record.columns.value, picked.value)) else Err(picked.error)
  }

  function RowsOf(records: seq<Entry>): Result<seq<Row>, Error> {
    if records == [] then Ok([])
    else if records[0].Skipped? then RowsOf(records[1..])
    else
      var first := RowOf(records[0]);
      if first.Err? then Err(first.error)
      else
        var rest := RowsOf(records[1..]);
        if rest.Ok? then Ok([first.value] + rest.value) else rest
  }

  function Literals(values: seq<Value>): (texts: seq<string>)
    ensures |texts| == |values| && forall i :: 0 <= i < |values| ==> texts[i] == SqlLiteral(values[i])
  {
    if values == [] then [] else [SqlLiteral(values[0])] + Literals(values[1..])
  }

  function Statement(row: Row): string {
    INSERT_INTO + row.table + COLUMNS + Join(row.columns, ", ") + VALUES + Join(Literals(row.values), ", ") + DONE
  }

  function Statements(rows: seq<Row>): seq<string> {
    if rows == [] then [] else [Statement(rows[0])] + Statements(rows[1..])
  }

  function Script(rows: seq<Row>): string {
    Join([BEGIN] + Statements(rows) + [END], "\n")
  }

  method SqlIdentifier(value: string) returns (r: Result<string, Error>)
    ensures r == if IsIdentifier(value) then Ok(value) else Err(ValueError)
  {
    var inner := value;
    if |value| >= 2 && value[0] == '"' && value[|value| - 1] == '"' {
      inner := value[1..|value| - 1];
    }
    r := if IsName(inner) then Ok(value) else Err(ValueError);
  }

  method SeedSqlFromPlan(records: seq<Entry>) returns (r: Result<string, Error>)
    ensures r.Ok? <==> RowsOf(records).Ok?
    ensures r.Ok? ==> r.value == Script(RowsOf(records).value)
    ensures r.Err? ==> r.error == RowsOf(records).error
  {
    var statements := [BEGIN];
    ghost var rows := [];
    assert records[0..] == records;
    BeforeEnds(rows, RowsOf(records));
    for n := 0 to |records|
      invariant statements == [BEGIN] + Statements(rows)
      invariant RowsOf(records) == Before(rows, RowsOf(records[n..]))
    {
      var record := records[n];
      assert records[n..][1..] == records[n + 1..];
      if record.Skipped? {
        continue;
      }
      var statement := RenderRecord(record);
      if statement.Err? {
        return statement;
      }
      StatementsAppend(rows, RowOf(record).value);
      BeforeTwice(rows, RowOf(record).value, RowsOf(records[n + 1..]));
      rows := rows + [RowOf(record).value];
      statements := statements + [statement.value];
    }
    assert records[|records|..] == [];
    BeforeEnds(rows, Ok([]));
    statements := statements + [END];
    r := Ok(Join(statements, "\n"));
  }

  function Before(rows: seq<Row>, r: Result<seq<Row>, Error>): Result<seq<Row>, Error> {
    if r.Ok? then Ok(rows + r.value) else r
  }

  lemma BeforeEnds(rows: seq<Row>, r: Result<seq<Row>, Error>)
    ensures Before([], r) == r && Before(rows, Ok([])) == Ok(rows)
  {
    assert rows + [] == rows && (r.Ok? ==> [] + r.value == r.value);
  }

  lemma BeforeTwice(rows: seq<Row>, row: Row, r: Result<seq<Row>, Error>)
    ensures Before(rows, Before([row], r)) == Before(rows + [row], r)
  {
    if r.Ok? {
      assert rows + ([row] + r.value) == (rows + [row]) + r.value;
    }
  }

  lemma {:induction false} StatementsAppend(rows: seq<Row>, row: Row)
    ensures Statements(rows + [row]) == Statements(rows) + [Statement(row)]
  {
    if rows != [] {
      assert (rows + [row])[1..] == rows[1..] + [row];
      StatementsAppend(rows[1..], row);
    } else {
      assert (rows + [row])[1..] == [];
    }
  }

  /** The body of the loop: checks and renders one record. */
  method RenderRecord(record: Entry) returns (r: Result<string, Error>)
    requires record.Record?
    ensures r == if RowOf(record).Ok? then Ok(Statement(RowOf(record).value)) else Err(RowOf(record).error)
  {
    if record.table.None? {
      return Err(KeyError);
    }
    var table := SqlIdentifier(record.table.value);
    if table.Err? {
      return Err(table.error);
    }
    if record.columns.None? {
      return Err(KeyError);
    }
    var names := record.columns.value;
    var columns := [];
    for n := 0 to |names|
      invariant columns == names[..n] && forall c :: c in names[..n] ==> IsIdentifier(c)
    {
      var column := SqlIdentifier(names[n]);
      if column.Err? {
        assert names[n] in names;
        return Err(column.error);
      }
      columns := columns + [column.value];
    }
    assert columns == names;
    match record.values {
      case Missing => return Err(KeyError);
      case NotObject => return Err(ValueError);
      case Object(values) =>
        var picked := Pick(names, values);
        if picked.Err? {
          return Err(picked.error);
        }
        var literals := Literals(picked.value);
        r := Ok(INSERT_INTO + table.value + COLUMNS + Join(columns, ", ") + VALUES + Join(literals, ", ") + DONE);
    }
  }

  // ----- reading -----

  /** A thing that was read, and the text after it. */
  type Read<T> = Option<(T, string)>

  /** The text after `prefix`. */
  function After(s: string, prefix: string): Option<string> {
    if |s| >= |prefix| && s[..|prefix|] == prefix then Some(s[|prefix|..]) else None
  }

  /** The rest of a quoted constant whose opening quote was read. */
  function ReadQuoted(s: string): Read<string> {
    if s == [] then None
    else if s[0] != '\'' then Cons(s[0], ReadQuoted(s[1..]))
    else if |s| > 1 && s[1] == '\'' then Cons('\'', ReadQuoted(s[2..]))
    else Some(([], s[1..]))
  }

  function Cons(c: char, r: Read<string>): Read<string> {
    if r.Some? then Some(([c] + r.value.0, r.value.1)) else None
  }

  function ReadWhile(s: string, keep: char -> bool): (r: (string, string))
    ensures s == r.0 + r.1
    ensures forall i :: 0 <= i < |r.0| ==> keep(r.0[i])
  {
    if s != [] && keep(s[0]) then
      var r := ReadWhile(s[1..], keep);
      ([s[0]] + r.0, r.1)
    else ([], s)
  }

  predicate IsDigit(c: char) {
    DigitValue(c) < 10
  }

  function ReadNumber(s: string): Read<nat> {
    var r := ReadWhile(s, IsDigit);
    if r.0 == [] then None else Some((Val(r.0, 10), r.1))
  }

  function ReadConstant(s: string): Read<Value> {
    var r := ReadQuoted(s);
    if r.None? then None
    else
      var cast := After(r.value.1, "::jsonb");
      if cast.Some? then Some((Json(r.value.0), cast.value)) else Some((Text(r.value.0), r.value.1))
  }

  function ReadInt(s: string): Read<Value> {
    if s != [] && s[0] == '-' then
      var r := ReadNumber(s[1..]);
      if r.Some? then Some((Int(-(r.value.0 as int)), r.value.1)) else None
    else
      var r := ReadNumber(s);
      if r.Some? then Some((Int(r.value.0), r.value.1)) else None
  }

  function ReadValue(s: string): Read<Value> {
    if s == [] then None
    else if s[0] == '\'' then ReadConstant(s[1..])
    else if s[0] == 'N' then ReadWord(s, "NULL", Null)
    else if s[0] == 'T' then ReadWord(s, "TRUE", Bool(true))
    else if s[0] == 'F' then ReadWord(s, "FALSE", Bool(false))
    else ReadInt(s)
  }

  function ReadWord(s: string, word: string, v: Value): Read<Value> {
    var rest := After(s, word);
    if rest.Some? then Some((v, rest.value)) else None
  }

  function ReadName(s: string): Read<string> {
    if s != [] && s[0] == '"' then
      var r := ReadWhile(s[1..], IsNameChar);
      var rest := After(r.1, "\"");
      if IsName(r.0) && rest.Some? then Some((r.0, rest.value)) else None
    else
      var r := ReadWhile(s, IsNameChar);
      if IsName(r.0) then Some(r) else None
  }

  /** One or more items separated by a comma and a space. */
  function ReadList<T(!new)>(s: string, read: string -> Read<T>): Read<seq<T>>
    decreases |s|
  {
    var first := read(s);
    if first.None? then None
    else
      var more := After(first.value.1, ", ");
      if more.None? || |more.value| >= |s| then Some(([first.value.0], first.value.1))
      else
        var rest := ReadList(more.value, read);
        if rest.Some? then Some(([first.value.0] + rest.value.0, rest.value.1)) else None
  }

  function ReadStatement(s: string): Read<Row> {
    var s1 := After(s, INSERT_INTO);
    if s1.None? then None else
    var table := ReadName(s1.value);
    if table.None? then None else
    var s2 := After(table.value.1, COLUMNS);
    if s2.None? then None else
    var columns := ReadList(s2.value, ReadName);
    if columns.None? then None else
    ReadRowValues(table.value.0, columns.value.0, columns.value.1)
  }

  function ReadRowValues(table: string, columns: seq<string>, s: string): Read<Row> {
    var s3 := After(s, VALUES);
    if s3.None? then None else
    var values := ReadList(s3.value, ReadValue);
    if values.None? then None else
    var s4 := After(values.value.1, DONE);
    if s4.None? then None else
    Some((Row(table, columns, values.value.0), s4.value))
  }

  /** Statements, one a line, up to the last line of the script. */
  function ReadStatements(s: string): Option<seq<Row>>
    decreases |s|
  {
    if s == END then Some([])
    else
      var first := ReadStatement(s);
      if first.None? then None
      else
        var next := After(first.value.1, "\n");
        if next.None? || |next.value| >= |s| then None
        else
          var rest := ReadStatements(next.value);
          if rest.Some? then Some([first.value.0] + rest.value) else None
  }

  function ReadScript(s: string): Option<seq<Row>> {
    var body := After(s, BEGIN);
    if body.None? then None
    else
      var lines := After(body.value, "\n");
      if lines.None? then None else ReadStatements(lines.value)
  }

  // ----- reading undoes rendering -----

  lemma AfterPrefix(prefix: string, rest: string)
    ensures After(prefix + rest, prefix) == Some(rest)
  {
  }

  /** What follows a value or a name in a list. */
  predicate EndsItem(rest: string) {
    rest != [] && (rest[0] == ',' || rest[0] == ')')
  }

  lemma {:induction false} ReadQuotedUndoesQuote(s: string, rest: string)
    requires rest == [] || rest[0] != '\''
    ensures ReadQuoted(SqlQuote(s) + "'" + rest) == Some((s, rest))
  {
    var whole := SqlQuote(s) + "'" + rest;
    if s == [] {
      assert whole == "'" + rest;
    } else {
      var tail := SqlQuote(s[1..]) + "'" + rest;
      ReadQuotedUndoesQuote(s[1..], rest);
      assert whole == (if s[0] == '\'' then "''" else [s[0]]) + tail;
      assert s == [s[0]] + s[1..];
      if s[0] == '\'' {
        assert whole[2..] == tail;
      } else {
        assert whole[1..] == tail;
      }
    }
  }

  lemma {:induction false} ReadWhileAll(s: string, rest: string, keep: char -> bool)
    requires forall i :: 0 <= i < |s| ==> keep(s[i])
    requires rest == [] || !keep(rest[0])
    ensures ReadWhile(s + rest, keep) == (s, rest)
  {
    if s == [] {
      assert s + rest == rest;
    } else {
      assert (s + rest)[1..] == s[1..] + rest;
      ReadWhileAll(s[1..], rest, keep);
      assert s == [s[0]] + s[1..];
    }
  }

  lemma ReadNumberShown(n: nat, rest: string)
    requires EndsItem(rest)
    ensures ReadNumber(Show(n, 10) + rest) == Some((n, rest))
  {
    ReadWhileAll(Show(n, 10), rest, IsDigit);
    ValShow(n, 10);
  }

  lemma ReadIntOfDecimal(n: int, rest: string)
    requires EndsItem(rest)
    ensures ReadInt(Decimal(n) + rest) == Some((Int(n), rest))
  {
    if n < 0 {
      ReadNumberShown(-n, rest);
      ReadNegative(Show(-n, 10), -n, rest);
    } else {
      ReadNumberShown(n, rest);
      ReadPositive(Show(n, 10), n, rest);
    }
  }

  lemma ReadNegative(digits: string, n: nat, rest: string)
    requires ReadNumber(digits + rest) == Some((n, rest))
    ensures ReadInt("-" + digits + rest) == Some((Int(-(n as int)), rest))
  {
    assert ("-" + digits + rest)[1..] == digits + rest;
  }

  lemma ReadPositive(digits: string, n: nat, rest: string)
    requires digits != [] && IsNumeral(digits, 10) && ReadNumber(digits + rest) == Some((n, rest))
    ensures ReadInt(digits + rest) == Some((Int(n), rest))
  {
    assert DigitValue((digits + rest)[0]) < 10;
  }

  lemma ReadValueByStart(s: string)
    requires s != []
    ensures s[0] == '-' || DigitValue(s[0]) < 10 ==> ReadValue(s) == ReadInt(s)
    ensures s[0] == '\'' ==> ReadValue(s) == ReadConstant(s[1..])
  {
  }

  lemma ReadIntShown(n: int, rest: string)
    requires EndsItem(rest)
    ensures ReadValue(Decimal(n) + rest) == Some((Int(n), rest))
  {
    ReadIntOfDecimal(n, rest);
    ReadValueByStart(Decimal(n) + rest);
  }

  lemma ReadConstantOf(s: string, r: Read<string>, v: Value, rest: string)
    requires EndsItem(rest) && ReadQuoted(s) == r && r.Some? && (v.Text? || v.Json?)
    requires v.Text? ==> r.value == (v.text, rest)
    requires v.Json? ==> r.value == (v.json, "::jsonb" + rest)
    ensures ReadConstant(s) == Some((v, rest))
  {
    AfterPrefix("::jsonb", rest);
  }

  lemma ReadConstantQuoted(v: Value, text: string, cast: string, rest: string)
    requires (v == Text(text) && cast == "") || (v == Json(text) && cast == "::jsonb")
    requires EndsItem(rest)
    ensures ReadValue("'" + SqlQuote(text) + "'" + cast + rest) == Some((v, rest))
  {
    var s := "'" + SqlQuote(text) + "'" + cast + rest;
    assert s[1..] == SqlQuote(text) + "'" + (cast + rest);
    ReadQuotedUndoesQuote(text, cast + rest);
    assert cast == "" ==> cast + rest == rest;
    ReadConstantOf(s[1..], Some((text, cast + rest)), v, rest);
    ReadValueByStart(s);
  }

  /** Every literal is read back as the value it was rendered from. */
  lemma ReadValueOfLiteral(v: Value, rest: string)
    requires EndsItem(rest)
    ensures ReadValue(SqlLiteral(v) + rest) == Some((v, rest))
  {
    match v
    case Null => AfterPrefix("NULL", rest);
    case Bool(b) => AfterPrefix("TRUE", rest); AfterPrefix("FALSE", rest);
    case Int(n) => ReadIntShown(n, rest);
    case Json(json) => ReadConstantQuoted(v, json, "::jsonb", rest);
    case Text(text) =>
      ReadConstantQuoted(v, text, "", rest);
      assert SqlLiteral(v) + "" == SqlLiteral(v);
  }

  lemma ReadNameOfIdentifier(s: string, rest: string)
    requires IsIdentifier(s) && rest != [] && !IsNameChar(rest[0])
    ensures ReadName(s + rest) == Some((Unquoted(s), rest))
  {
    var name := Unquoted(s);
    if s != name {
      assert s == "\"" + name + "\"";
      assert (s + rest)[1..] == name + ("\"" + rest);
      ReadWhileAll(name, "\"" + rest, IsNameChar);
      AfterPrefix("\"", rest);
    } else {
      ReadWhileAll(s, rest, IsNameChar);
    }
  }

  ghost predicate ReadsBack<T(!new)>(text: string, item: T, read: string -> Read<T>) {
    forall rest :: EndsItem(rest) ==> read(text + rest) == Some((item, rest))
  }

  lemma {:induction false} ReadListOfJoin<T(!new)>(texts: seq<string>, items: seq<T>, read: string -> Read<T>,
                                            rest: string)
    requires |texts| == |items| > 0 && rest != [] && rest[0] == ')'
    requires forall i :: 0 <= i < |texts| ==> ReadsBack(texts[i], items[i], read)
    ensures ReadList(Join(texts, ", ") + rest, read) == Some((items, rest))
  {
    var whole := Join(texts, ", ") + rest;
    if |texts| == 1 {
      assert EndsItem(rest) && ReadsBack(texts[0], items[0], read);
      assert items == [items[0]];
    } else {
      var tail := Join(texts[1..], ", ") + rest;
      assert whole == texts[0] + (", " + tail);
      assert EndsItem(", " + tail) && ReadsBack(texts[0], items[0], read);
      AfterPrefix(", ", tail);
      ReadListOfJoin(texts[1..], items[1..], read, rest);
      assert items == [items[0]] + items[1..];
    }
  }

  /** Lexing a rendered list of values gives back the list. */
  lemma ReadListOfLiterals(values: seq<Value>, rest: string)
    requires values != [] && rest != [] && rest[0] == ')'
    ensures ReadList(Join(Literals(values), ", ") + rest, ReadValue) == Some((values, rest))
  {
    forall i | 0 <= i < |values| ensures ReadsBack(Literals(values)[i], values[i], ReadValue) {
      forall r | EndsItem(r) ensures ReadValue(SqlLiteral(values[i]) + r) == Some((values[i], r)) {
        ReadValueOfLiteral(values[i], r);
      }
    }
    ReadListOfJoin(Literals(values), values, ReadValue, rest);
  }

  function Names(columns: seq<string>): (names: seq<string>)
    ensures |names| == |columns| && forall i :: 0 <= i < |columns| ==> names[i] == Unquoted(columns[i])
  {
    if columns == [] then [] else [Unquoted(columns[0])] + Names(columns[1..])
  }

  lemma ReadListOfColumns(columns: seq<string>, rest: string)
    requires columns != [] && rest != [] && rest[0] == ')'
    requires forall c :: c in columns ==> IsIdentifier(c)
    ensures ReadList(Join(columns, ", ") + rest, ReadName) == Some((Names(columns), rest))
  {
    forall i | 0 <= i < |columns| ensures ReadsBack(columns[i], Names(columns)[i], ReadName) {
      forall r | EndsItem(r) ensures ReadName(columns[i] + r) == Some((Unquoted(columns[i]), r)) {
        ReadNameOfIdentifier(columns[i], r);
      }
    }
    ReadListOfJoin(columns, Names(columns), ReadName, rest);
  }

  /** The row with the names that its identifiers stand for. */
  function Named(row: Row): Row {
    Row(Unquoted(row.table), Names(row.columns), row.values)
  }

  predicate IsRow(row: Row) {
    IsIdentifier(row.table) && |row.columns| == |row.values| && forall c :: c in row.columns ==> IsIdentifier(c)
  }

  lemma ReadRowValuesOfRow(table: string, columns: seq<string>, values: seq<Value>, rest: string)
    requires values != []
    ensures ReadRowValues(table, columns, VALUES + (Join(Literals(values), ", ") + (DONE + rest)))
         == Some((Row(table, columns, values), rest))
  {
    AfterPrefix(VALUES, Join(Literals(values), ", ") + (DONE + rest));
    ReadListOfLiterals(values, DONE + rest);
    AfterPrefix(DONE, rest);
  }

  /** Reading a rendered statement gives its row, and stops right after the statement. */
  lemma ReadStatementOfRow(row: Row, rest: string)
    requires IsRow(row) && row.columns != []
    ensures ReadStatement(Statement(row) + rest) == Some((Named(row), rest))
  {
    var s3 := VALUES + (Join(Literals(row.values), ", ") + (DONE + rest));
    ReadListOfColumns(row.columns, s3);
    ReadRowValuesOfRow(Unquoted(row.table), Names(row.columns), row.values, rest);
    ReadUpToValues(row.table, Join(row.columns, ", ") + s3);
    Reassociate(INSERT_INTO, row.table, COLUMNS, Join(row.columns, ", "), VALUES, Join(Literals(row.values), ", "),
      DONE, rest);
  }

  lemma Reassociate(a: string, b: string, c: string, d: string, e: string, f: string, g: string, h: string)
    ensures a + b + c + d + e + f + g + h == a + (b + (c + (d + (e + (f + (g + h))))))
  {
  }

  /** Reading up to the list of columns, which is read next. */
  lemma ReadUpToValues(table: string, tail: string)
    requires IsIdentifier(table)
    ensures ReadStatement(INSERT_INTO + (table + (COLUMNS + tail))) ==
      var columns := ReadList(tail, ReadName);
      if columns.None? then None else ReadRowValues(Unquoted(table), columns.value.0, columns.value.1)
  {
    AfterPrefix(INSERT_INTO, table + (COLUMNS + tail));
    ReadNameOfIdentifier(table, COLUMNS + tail);
    AfterPrefix(COLUMNS, tail);
  }

  /** A statement without columns is rendered, but it is not a statement. */
  lemma NoColumnsIsNoStatement(row: Row, rest: string)
    requires IsRow(row) && row.columns == []
    ensures ReadStatement(Statement(row) + rest) == None
  {
    var s3 := VALUES + (Join(Literals(row.values), ", ") + (DONE + rest));
    Reassociate(INSERT_INTO, row.table, COLUMNS, "", VALUES, Join(Literals(row.values), ", "), DONE, rest);
    assert "" + s3 == s3;
    ReadUpToValues(row.table, s3);
    NoNameHere(s3);
  }

  lemma NoNameHere(s: string)
    requires s != [] && s[0] == ')'
    ensures ReadList(s, ReadName) == None
  {
    assert ReadWhile(s, IsNameChar).0 == [];
  }

  function NamedRows(rows: seq<Row>): seq<Row> {
    if rows == [] then [] else [Named(rows[0])] + NamedRows(rows[1..])
  }

  ghost predicate AreRows(rows: seq<Row>) {
    forall i :: 0 <= i < |rows| ==> IsRow(rows[i])
  }

  ghost predicate AllHaveColumns(rows: seq<Row>) {
    forall i :: 0 <= i < |rows| ==> rows[i].columns != []
  }

  /** What reading gives for these rows. */
  ghost function Expected(rows: seq<Row>): Option<seq<Row>> {
    if AllHaveColumns(rows) then Some(NamedRows(rows)) else None
  }

  lemma ExpectedFirst(row: Row, rows: seq<Row>)
    ensures Expected([row] + rows) ==
      if row.columns != [] && Expected(rows).Some? then Some([Named(row)] + Expected(rows).value) else None
  {
    var all := [row] + rows;
    assert all[1..] == rows;
    assert forall i :: 0 <= i < |rows| ==> all[i + 1] == rows[i];
  }

  function Lines(rows: seq<Row>): string {
    Join(Statements(rows) + [END], "\n")
  }

  lemma LinesFirst(rows: seq<Row>)
    requires rows != []
    ensures Lines(rows) == Statement(rows[0]) + ("\n" + Lines(rows[1..]))
  {
    JoinFirst(Statement(rows[0]), Statements(rows[1..]) + [END]);
    assert Statements(rows) + [END] == [Statement(rows[0])] + (Statements(rows[1..]) + [END]);
  }

  lemma {:induction false} ReadStatementsIff(rows: seq<Row>)
    requires AreRows(rows)
    ensures ReadStatements(Lines(rows)) == Expected(rows)
  {
    if rows == [] {
      assert Statements(rows) + [END] == [END];
    } else {
      ReadStatementsIff(rows[1..]);
      FirstStatement(rows[0], Lines(rows[1..]));
      LinesFirst(rows);
      ExpectedFirst(rows[0], rows[1..]);
      assert rows == [rows[0]] + rows[1..];
    }
  }

  lemma JoinFirst(line: string, lines: seq<string>)
    requires lines != []
    ensures Join([line] + lines, "\n") == line + ("\n" + Join(lines, "\n"))
  {
    assert ([line] + lines)[1..] == lines;
  }

  lemma FirstStatement(row: Row, tail: string)
    requires IsRow(row)
    ensures var first := ReadStatements(Statement(row) + ("\n" + tail));
      first == if row.columns != [] && ReadStatements(tail).Some?
        then Some([Named(row)] + ReadStatements(tail).value) else None
  {
    var s := Statement(row) + ("\n" + tail);
    assert s[0] == 'I';
    if row.columns == [] {
      NoColumnsIsNoStatement(row, "\n" + tail);
    } else {
      ReadStatementOfRow(row, "\n" + tail);
      AfterPrefix("\n", tail);
    }
  }

  lemma {:induction false} PickIsTotal(columns: seq<string>, values: map<string, Value>)
    ensures Pick(columns, values).Ok? <==> forall c :: c in columns ==> c in values
    ensures Pick(columns, values).Ok? ==> |Pick(columns, values).value| == |columns|
    ensures Pick(columns, values).Ok? ==> forall i :: 0 <= i < |columns| ==>
        columns[i] in values && Pick(columns, values).value[i] == values[columns[i]]
  {
    if columns != [] {
      PickIsTotal(columns[1..], values);
    }
  }

  /** A record that has everything the code asks for. */
  ghost predicate IsComplete(record: Entry) {
    && record.Record? && record.table.Some? && IsIdentifier(record.table.value)
    && record.columns.Some? && (forall c :: c in record.columns.value ==> IsIdentifier(c))
    && record.values.Object? && (forall c :: c in record.columns.value ==> c in record.values.values)
  }

  lemma RowOfIff(record: Entry)
    requires record.Record?
    ensures RowOf(record).Ok? <==> IsComplete(record)
  {
    if record.columns.Some? && record.values.Object? {
      PickIsTotal(record.columns.value, record.values.values);
    }
  }

  /** A script is produced exactly when every element that is an object is complete. */
  lemma {:induction false} RenderedIff(records: seq<Entry>)
    ensures RowsOf(records).Ok? <==> forall record :: record in records && record.Record? ==> IsComplete(record)
  {
    if records != [] {
      RenderedIff(records[1..]);
      if records[0].Record? {
        RowOfIff(records[0]);
      }
      assert forall record :: record in records <==> record == records[0] || record in records[1..];
    }
  }

  lemma {:induction false} RowsAreRows(records: seq<Entry>)
    requires RowsOf(records).Ok?
    ensures AreRows(RowsOf(records).value)
  {
    if records != [] {
      if records[0].Record? {
        PickIsTotal(records[0].columns.value, records[0].values.values);
      }
      RowsAreRows(records[1..]);
    }
  }

  /** Reading the script gives back exactly the rows of the plan, in order, whatever quotes, commas,
      semicolons or line breaks its texts contain; unless some record has no columns, for which the
      code renders a script that is not SQL. */
  lemma ScriptRoundTripIff(records: seq<Entry>)
    requires RowsOf(records).Ok?
    ensures AllHaveColumns(RowsOf(records).value) ==>
      ReadScript(Script(RowsOf(records).value)) == Some(NamedRows(RowsOf(records).value))
    ensures !AllHaveColumns(RowsOf(records).value) ==> ReadScript(Script(RowsOf(records).value)) == None
  {
    var rows := RowsOf(records).value;
    RowsAreRows(records);
    ReadStatementsIff(rows);
    JoinFirst(BEGIN, Statements(rows) + [END]);
    assert [BEGIN] + Statements(rows) + [END] == [BEGIN] + (Statements(rows) + [END]);
    ReadAfterBegin(Lines(rows));
  }

  lemma ReadAfterBegin(tail: string)
    ensures ReadScript(BEGIN + ("\n" + tail)) == ReadStatements(tail)
  {
    AfterPrefix(BEGIN, "\n" + tail);
    AfterPrefix("\n", tail);
  }
}
