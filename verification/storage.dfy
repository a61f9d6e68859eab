/** The query executor of lib/task-queue/Storage.js: the lazily opened,
    cached connection, and the projection of raw result rows into
    column-keyed records or positional arrays. The database itself is out of
    the model: a statement's result is given as the sequence of rows it yields. */
module Storage {
  import opened Wrappers
  import Json

  datatype StorageError =
    | RowHandlingFailed   // an exception while handling a row, rethrown
    | NoOpenConnection    // `close()` called on a null handle

  /** An open connection; `serial` tells connections opened at different times apart. */
  datatype Connection = Connection(serial: nat)

  /** A Storage instance: its cached handle and how many connections it has opened. */
  datatype Storage = Storage(conn: Option<Connection>, openCount: nat)

  const NEW_STORAGE: Storage := Storage(None, 0)

  /** The handle, when present, is one this instance opened. */
  predicate Valid(s: Storage) {
    s.conn.Some? ==> s.conn.value.serial < s.openCount
  }

  /** `_asyncGetConnection`: opens a connection only when the handle is null,
      otherwise hands back the cached one. */
  function GetConnection(s: Storage): (r: (Storage, Connection))
    ensures r.0.conn == Some(r.1)
    ensures s.conn.Some? ==> r.0 == s && r.1 == s.conn.value
    ensures s.conn.None? ==> r.0.openCount == s.openCount + 1 && r.1.serial == s.openCount
    ensures Valid(r.0) <== Valid(s)
  {
    match s.conn
    case Some(c) => (s, c)
    case None =>
      var c := Connection(s.openCount);
      (Storage(Some(c), s.openCount + 1), c)
  }

  /** `asyncCloseConnection`: closes the handle and resets it to null; on a
      null handle the call throws. */
  function CloseConnection(s: Storage): (r: Result<Storage, StorageError>)
    ensures r.Success? <==> s.conn.Some?
    ensures r.Failure? ==> r.error == NoOpenConnection
    ensures r.Success? ==> r.value.conn.None? && r.value.openCount == s.openCount
  {
    if s.conn.None? then Failure(NoOpenConnection) else Success(s.(conn := None))
  }

  /** Asking twice opens at most one connection, and both answers are the same. */
  lemma ConnectionReused(s: Storage)
    ensures var (s1, c1) := GetConnection(s);
            var (s2, c2) := GetConnection(s1);
            && c2 == c1 && s2 == s1
            && s2.openCount <= s.openCount + 1
  {
  }

  /** After a close the next request opens a new connection, distinct from
      every connection this instance opened before. */
  lemma CloseThenReopen(s: Storage)
    requires Valid(s) && s.conn.Some?
    ensures var closed := CloseConnection(s);
            && closed.Success?
            && var (s', c') := GetConnection(closed.value);
            && s'.openCount == s.openCount + 1
            && c' != s.conn.value
            && Valid(s')
  {
  }

  // ---------------------------------------------------------------------
  // Row projection

  /** A raw result row: its column names and, by index, its values. */
  datatype Row = Row(names: seq<string>, values: seq<Json.Value>)

  /** `aRow.numEntries`. */
  function NumEntries(row: Row): nat {
    |row.values|
  }

  /** Position of the first column called `name`. */
  function IndexOf(names: seq<string>, name: string): (r: Option<nat>)
    ensures r.None? <==> name !in names
    ensures r.Some? ==> r.value < |names| && names[r.value] == name
    ensures r.Some? ==> forall j :: 0 <= j < r.value ==> names[j] != name
  {
    if names == [] then None
    else if names[0] == name then Some(0)
    else
      match IndexOf(names[1..], name)
      case None => None
      case Some(i) => Some(i + 1)
  }

  /** `aRow.getResultByName(name)`: throws for a column the row does not have. */
  function ResultByName(row: Row, name: string): (r: Result<Json.Value, StorageError>)
    ensures r.Success? <==> name in row.names && IndexOf(row.names, name).value < |row.values|
  {
    match IndexOf(row.names, name)
    case None => Failure(RowHandlingFailed)
    case Some(i) => if i < |row.values| then Success(row.values[i]) else Failure(RowHandlingFailed)
  }

  /** One result item: an object keyed by column, or an array of raw values. */
  datatype Item = Record(obj: Json.Object) | Positional(entries: seq<Json.Value>)

  /** The names in order of first occurrence: the key order of an object
      whose properties are assigned in the order of `names`. */
  function FirstOccurrences(names: seq<string>): (r: seq<string>)
    ensures forall c :: c in r <==> c in names
    decreases |names|
  {
    if names == [] then []
    else
      var front := FirstOccurrences(names[..|names| - 1]);
      var c := names[|names| - 1];
      if c in front then front else front + [c]
  }

  /** Names that already appear once each are kept as they are. */
  lemma {:induction false} FirstOccurrencesOfDistinct(names: seq<string>)
    requires DistinctNames(names)
    ensures FirstOccurrences(names) == names
    decreases |names|
  {
    if names != [] {
      var front := names[..|names| - 1];
      FirstOccurrencesOfDistinct(front);
      assert names[|names| - 1] !in front;
      assert front + [names[|names| - 1]] == names;
    }
  }

  /** Each name is kept once: the object has no repeated key. */
  lemma {:induction false} FirstOccurrencesDistinct(names: seq<string>)
    ensures DistinctNames(FirstOccurrences(names))
    decreases |names|
  {
    if names != [] {
      var front := names[..|names| - 1];
      FirstOccurrencesDistinct(front);
    }
  }

  /** Every requested column can be read from the row. */
  predicate Projectable(row: Row, columns: Option<seq<string>>) {
    columns.Some? ==> forall c :: c in columns.value ==> ResultByName(row, c).Success?
  }

  /** `obj` is the object the row handler builds for the column list `cs`:
      its keys are the columns in order of first occurrence, and each holds
      the row's value read by that name. */
  ghost predicate RecordOf(row: Row, cs: seq<string>, obj: Json.Object) {
    && obj.keys == FirstOccurrences(cs)
    && (forall c :: c in obj.props <==> c in cs)
    && forall c :: c in cs ==> c in obj.props && ResultByName(row, c) == Success(obj.props[c])
  }

  /** `item` is what the executor builds from `row`: with a column list, a
      record of those columns; without one, the row's `numEntries` values in
      index order. */
  ghost predicate ProjectionOf(row: Row, columns: Option<seq<string>>, item: Item) {
    match columns
    case Some(cs) =>
      item.Record? && RecordOf(row, cs, item.obj)
    case None =>
      && item.Positional?
      && |item.entries| == NumEntries(row)
      && forall i :: 0 <= i < |item.entries| ==> item.entries[i] == row.values[i]
  }

  /** `columns.forEach(column => item[column] = aRow.getResultByName(column))`:
      assigning a property that already exists keeps its place among the
      keys. A column the row lacks makes the handler throw. */
  method ProjectColumns(row: Row, cs: seq<string>) returns (r: Result<Json.Object, StorageError>)
    ensures r.Success? <==> forall c :: c in cs ==> ResultByName(row, c).Success?
    ensures r.Failure? ==> r.error == RowHandlingFailed
    ensures r.Success? ==> RecordOf(row, cs, r.value)
  {
    var keys: seq<string> := [];
    var fields: map<string, Json.Value> := map[];
    var k := 0;
    while k < |cs|
      invariant 0 <= k <= |cs|
      invariant keys == FirstOccurrences(cs[..k])
      invariant forall c :: c in fields <==> c in cs[..k]
      invariant forall c :: c in cs[..k] ==> c in fields && ResultByName(row, c) == Success(fields[c])
    {
      var v := ResultByName(row, cs[k]);
      if v.Failure? {
        return Failure(RowHandlingFailed);
      }
      assert cs[..k + 1][..k] == cs[..k];
      if cs[k] !in fields {
        keys := keys + [cs[k]];
      }
      fields := fields[cs[k] := v.value];
      assert cs[..k + 1] == cs[..k] + [cs[k]];
      k := k + 1;
    }
    assert cs[..k] == cs;
    r := Success(Json.Object(keys, fields));
  }

  /** `for (i = 0; i < aRow.numEntries; i++) item.push(aRow.getResultByIndex(i))`. */
  method ProjectEntries(row: Row) returns (entries: seq<Json.Value>)
    ensures |entries| == NumEntries(row)
    ensures forall i :: 0 <= i < |entries| ==> entries[i] == row.values[i]
  {
    entries := [];
    var i := 0;
    while i < NumEntries(row)
      invariant 0 <= i <= NumEntries(row)
      invariant entries == row.values[..i]
    {
      entries := entries + [row.values[i]];
      i := i + 1;
    }
  }

  /** Builds the item for one row, mirroring the row handler: an object of
      the given columns, or an array of every value. */
  method ProjectRow(row: Row, columns: Option<seq<string>>) returns (r: Result<Item, StorageError>)
    ensures r.Success? <==> Projectable(row, columns)
    ensures r.Failure? ==> r.error == RowHandlingFailed
    ensures r.Success? ==> ProjectionOf(row, columns, r.value)
  {
    if columns.Some? {
      var obj := ProjectColumns(row, columns.value);
      if obj.Failure? {
        return Failure(RowHandlingFailed);
      }
      r := Success(Record(obj.value));
    } else {
      var entries := ProjectEntries(row);
      r := Success(Positional(entries));
    }
  }


  /** `asyncExecuteCached(name, sql, {columns, params, callback})` over the
      rows the statement yields. `callback`, when given, sees each row and
      answers whether it threw. Returns the storage with its connection, the
      items, and the rows handed to the callback. */
  method ExecuteCached(s: Storage, rows: seq<Row>, columns: Option<seq<string>>,
                       callback: Option<Row -> bool>)
    returns (s': Storage, r: Result<seq<Item>, StorageError>, delivered: seq<Row>)
    ensures s'.conn.Some?
    ensures s.conn.Some? ==> s' == s
    ensures s.conn.None? ==> s'.openCount == s.openCount + 1
    ensures r.Failure? ==> r.error == RowHandlingFailed
    ensures callback.Some? ==> (r.Success? <==> forall i :: 0 <= i < |rows| ==> !callback.value(rows[i]))
    ensures callback.Some? && r.Success? ==> r.value == [] && delivered == rows
    ensures callback.Some? && r.Failure? ==>
              exists k :: 0 <= k < |rows| && delivered == rows[..k + 1] && callback.value(rows[k])
    ensures callback.None? ==> delivered == []
    ensures callback.None? ==> (r.Success? <==> forall i :: 0 <= i < |rows| ==> Projectable(rows[i], columns))
    ensures callback.None? && r.Success? ==>
              && |r.value| == |rows|
              && forall i :: 0 <= i < |rows| ==> ProjectionOf(rows[i], columns, r.value[i])
  {
    s' := GetConnection(s).0;
    if callback.Some? {
      var ok;
      ok, delivered := DeliverRows(rows, callback.value);
      r := if ok then Success([]) else Failure(RowHandlingFailed);
    } else {
      r := ProjectRows(rows, columns);
      delivered := [];
    }
  }

  /** The callback branch: hand each row to the callback in order, and stop
      at the first row on which it throws. */
  method DeliverRows(rows: seq<Row>, callback: Row -> bool) returns (ok: bool, delivered: seq<Row>)
    ensures ok <==> forall i :: 0 <= i < |rows| ==> !callback(rows[i])
    ensures ok ==> delivered == rows
    ensures !ok ==> exists k :: 0 <= k < |rows| && delivered == rows[..k + 1] && callback(rows[k])
  {
    delivered := [];
    var n := 0;
    while n < |rows|
      invariant 0 <= n <= |rows|
      invariant delivered == rows[..n]
      invariant forall i :: 0 <= i < n ==> !callback(rows[i])
    {
      delivered := delivered + [rows[n]];
      if callback(rows[n]) {
        assert delivered == rows[..n + 1];
        return false, delivered;
      }
      n := n + 1;
    }
    assert rows[..n] == rows;
    ok := true;
  }

  /** The projection branch: the item of every row, in order, or the
      rethrown error of the first row that cannot be projected. */
  method ProjectRows(rows: seq<Row>, columns: Option<seq<string>>) returns (r: Result<seq<Item>, StorageError>)
    ensures r.Failure? ==> r.error == RowHandlingFailed
    ensures r.Success? <==> forall i :: 0 <= i < |rows| ==> Projectable(rows[i], columns)
    ensures r.Success? ==>
              && |r.value| == |rows|
              && forall i :: 0 <= i < |rows| ==> ProjectionOf(rows[i], columns, r.value[i])
  {
    var items: seq<Item> := [];
    var n := 0;
    while n < |rows|
      invariant 0 <= n <= |rows|
      invariant |items| == n
      invariant forall i :: 0 <= i < n ==> Projectable(rows[i], columns)
      invariant forall i :: 0 <= i < n ==> ProjectionOf(rows[i], columns, items[i])
    {
      var item := ProjectRow(rows[n], columns);
      if item.Failure? {
        return Failure(RowHandlingFailed);
      }
      items := items + [item.value];
      n := n + 1;
    }
    r := Success(items);
  }

  /** Names that appear once each. */
  predicate DistinctNames(names: seq<string>) {
    forall i, j :: 0 <= i < j < |names| ==> names[i] != names[j]
  }

  /** The row read as an object: each column name with its value. */
  function RowObject(row: Row): map<string, Json.Value>
    requires |row.names| == |row.values|
  {
    map c | c in row.names :: row.values[IndexOf(row.names, c).value]
  }

  /** With distinct names, each column is read from its own position. */
  lemma ResultByOwnName(row: Row, i: nat)
    requires |row.names| == |row.values| && DistinctNames(row.names)
    requires i < |row.names|
    ensures ResultByName(row, row.names[i]) == Success(row.values[i])
  {
    var j := IndexOf(row.names, row.names[i]);
    assert j.Some?;
    assert j.value == i;
  }

  /** Selecting a row with its own column names yields an object equal to the
      one whose values were inserted: the record is the row itself, with its
      columns in order of first occurrence, and with distinct names the keys
      are the column names in order and each holds the value at its own
      position. */
  lemma SelectedRowEqualsInserted(row: Row, item: Item)
    requires |row.names| == |row.values|
    requires ProjectionOf(row, Some(row.names), item)
    ensures item == Record(Json.Object(FirstOccurrences(row.names), RowObject(row)))
    ensures DistinctNames(row.names) ==> item.obj.keys == row.names
    ensures DistinctNames(row.names) ==>
              forall i :: 0 <= i < |row.names| ==> item.obj.props[row.names[i]] == row.values[i]
  {
    SelectedRowObject(row, item);
    if DistinctNames(row.names) {
      SelectedDistinctColumns(row, item);
    }
  }

  lemma SelectedRowObject(row: Row, item: Item)
    requires |row.names| == |row.values|
    requires ProjectionOf(row, Some(row.names), item)
    ensures item == Record(Json.Object(FirstOccurrences(row.names), RowObject(row)))
  {
    var m := RowObject(row);
    assert item.obj.props.Keys == m.Keys;
    forall c | c in m ensures item.obj.props[c] == m[c] {
      assert ResultByName(row, c) == Success(item.obj.props[c]);
    }
  }

  lemma SelectedDistinctColumns(row: Row, item: Item)
    requires |row.names| == |row.values| && DistinctNames(row.names)
    requires ProjectionOf(row, Some(row.names), item)
    ensures item.obj.keys == row.names
    ensures forall i :: 0 <= i < |row.names| ==> item.obj.props[row.names[i]] == row.values[i]
  {
    FirstOccurrencesOfDistinct(row.names);
    forall i | 0 <= i < |row.names| ensures item.obj.props[row.names[i]] == row.values[i] {
      assert row.names[i] in row.names;
      ResultByOwnName(row, i);
    }
  }
}
