/**
 * `load_market_csv` (backtester/batch_backtest.py): column normalisation of a parsed CSV
 * table and the sort by timestamp.
 *
 * A table is its list of columns in file order; every column has the same number of
 * cells and column names are distinct (the CSV reader renames duplicates). Cells are
 * numbers or undefined; the timestamp column holds instants written as numbers.
 */
module Loader {
  import opened Wrappers

  datatype Column = Column(name: string, cells: seq<Option<real>>)

  /** One row of the normalised table, in the required column order. */
  datatype RawBar = RawBar(timestamp: Option<real>, open: Option<real>, high: Option<real>,
                           low: Option<real>, close: Option<real>, volume: Option<real>)

  const TimestampName: string := "timestamp"

  /** The required columns, in output order. */
  const Required: seq<string> := [TimestampName, "open", "high", "low", "close", "volume"]

  /** The names (after lower-casing) recognised as the timestamp column. */
  const TimestampNames: set<string> := {"timestamp", "datetime", "date", "time"}

  /** ASCII lower-casing. */
  function LowerChar(c: char): (d: char)
    ensures 'A' <= c <= 'Z' ==> d as int == c as int + 32
    ensures !('A' <= c <= 'Z') ==> d == c
  {
    if 'A' <= c <= 'Z' then (c as int + 32) as char else c
  }

  function Lower(s: string): (t: string)
    ensures |t| == |s| && forall i :: 0 <= i < |s| ==> t[i] == LowerChar(s[i])
  {
    seq(|s|, i requires 0 <= i < |s| => LowerChar(s[i]))
  }

  predicate TimestampLike(name: string)
  {
    Lower(name) in TimestampNames
  }

  predicate Rectangular(cols: seq<Column>, nrows: nat)
  {
    forall k :: 0 <= k < |cols| ==> |cols[k].cells| == nrows
  }

  predicate DistinctNames(cols: seq<Column>)
  {
    forall i, j :: 0 <= i < j < |cols| ==> cols[i].name != cols[j].name
  }

  /** The index of the first column at or after `from` whose name is timestamp-like. */
  function FirstTimestampLikeFrom(cols: seq<Column>, from: nat): (r: Option<nat>)
    requires from <= |cols|
    ensures r.Some? ==> from <= r.value < |cols| && TimestampLike(cols[r.value].name)
    ensures r.Some? ==> forall j :: from <= j < r.value ==> !TimestampLike(cols[j].name)
    ensures r.None? ==> forall j :: from <= j < |cols| ==> !TimestampLike(cols[j].name)
    decreases |cols| - from
  {
    if from == |cols| then None
    else if TimestampLike(cols[from].name) then Some(from)
    else FirstTimestampLikeFrom(cols, from + 1)
  }

  function FirstTimestampLike(cols: seq<Column>): Option<nat>
  {
    FirstTimestampLikeFrom(cols, 0)
  }

  /** The index of the first column named `name`. */
  function FindColumn(cols: seq<Column>, name: string, from: nat): (r: Option<nat>)
    requires from <= |cols|
    ensures r.Some? ==> from <= r.value < |cols| && cols[r.value].name == name
    ensures r.Some? ==> forall j :: from <= j < r.value ==> cols[j].name != name
    ensures r.None? ==> forall j :: from <= j < |cols| ==> cols[j].name != name
    decreases |cols| - from
  {
    if from == |cols| then None
    else if cols[from].name == name then Some(from)
    else FindColumn(cols, name, from + 1)
  }

  predicate HasColumn(cols: seq<Column>, name: string)
  {
    FindColumn(cols, name, 0).Some?
  }

  /** An all-undefined column of `n` cells (`np.nan`). */
  function Undefined(n: nat): (c: seq<Option<real>>)
    ensures |c| == n && forall i :: 0 <= i < n ==> c[i].None?
  {
    seq(n, i => None)
  }

  /**
   * Renaming the first timestamp-like column to `timestamp` duplicates the label when a
   * column already has that name: selecting and sorting by it then fails, and the file is
   * skipped.
   */
  predicate Collision(cols: seq<Column>)
  {
    match FirstTimestampLike(cols)
    case None => false
    case Some(i) => cols[i].name != TimestampName && HasColumn(cols, TimestampName)
  }

  /**
   * The cells that end up in required column `name`: for `timestamp`, the first
   * timestamp-like column; for the others, the column of that name; undefined when absent.
   */
  function SourceCells(cols: seq<Column>, name: string, nrows: nat): seq<Option<real>>
  {
    if name == TimestampName then
      match FirstTimestampLike(cols)
      case None => Undefined(nrows)
      case Some(i) => cols[i].cells
    else
      match FindColumn(cols, name, 0)
      case None => Undefined(nrows)
      case Some(i) => cols[i].cells
  }

  /** Row `k` of the normalised table before sorting. */
  function RowAt(cols: seq<Column>, nrows: nat, k: nat): RawBar
    requires Rectangular(cols, nrows) && k < nrows
  {
    RawBar(CellAt(cols, TimestampName, nrows, k), CellAt(cols, "open", nrows, k),
           CellAt(cols, "high", nrows, k), CellAt(cols, "low", nrows, k),
           CellAt(cols, "close", nrows, k), CellAt(cols, "volume", nrows, k))
  }

  function CellAt(cols: seq<Column>, name: string, nrows: nat, k: nat): Option<real>
    requires Rectangular(cols, nrows) && k < nrows
  {
    var c := SourceCells(cols, name, nrows);
    assert |c| == nrows;
    c[k]
  }

  /** `df[required]`: the rows of the normalised table in file order. */
  function SelectedRows(cols: seq<Column>, nrows: nat): (rows: seq<RawBar>)
    requires Rectangular(cols, nrows)
    ensures |rows| == nrows
  {
    seq(nrows, k requires 0 <= k < nrows => RowAt(cols, nrows, k))
  }

  // ---------------------------------------------------------------------------
  // Sorting by timestamp, undefined timestamps last

  /** `a` may precede `b`: undefined timestamps sort after every defined one. */
  predicate TsLe(a: Option<real>, b: Option<real>)
  {
    b.None? || (a.Some? && a.value <= b.value)
  }

  predicate SortedByTimestamp(rows: seq<RawBar>)
  {
    forall i, j :: 0 <= i < j < |rows| ==> TsLe(rows[i].timestamp, rows[j].timestamp)
  }

  function Insert(x: RawBar, rows: seq<RawBar>): (r: seq<RawBar>)
    requires SortedByTimestamp(rows)
    ensures multiset(r) == multiset(rows) + multiset{x}
    ensures SortedByTimestamp(r)
  {
    if |rows| == 0 then [x]
    else if !TsLe(rows[0].timestamp, x.timestamp) then
      PrependEarlier(x, rows);
      [x] + rows
    else
      SortedTail(rows);
      var rest := Insert(x, rows[1..]);
      PrependHead(x, rows, rest);
      [rows[0]] + rest
  }

  /** The tail of a sorted sequence is sorted. */
  lemma SortedTail(rows: seq<RawBar>)
    requires SortedByTimestamp(rows) && |rows| > 0
    ensures SortedByTimestamp(rows[1..])
  {
    assert forall j :: 0 <= j < |rows| - 1 ==> rows[1..][j] == rows[j + 1];
  }

  /** A row strictly before the first of a sorted sequence can go in front. */
  lemma PrependEarlier(x: RawBar, rows: seq<RawBar>)
    requires SortedByTimestamp(rows) && |rows| > 0
    requires !TsLe(rows[0].timestamp, x.timestamp)
    ensures SortedByTimestamp([x] + rows)
  {
    var r := [x] + rows;
    forall i, j | 0 <= i < j < |r| ensures TsLe(r[i].timestamp, r[j].timestamp) {
      assert r[j] == rows[j - 1];
      if i > 0 {
        assert r[i] == rows[i - 1];
      } else if j > 1 {
        assert TsLe(rows[0].timestamp, rows[j - 1].timestamp);
      }
    }
  }

  /**
   * The first row of a sorted sequence, no later than `x`, can go in front of the
   * insertion of `x` into the rest.
   */
  lemma PrependHead(x: RawBar, rows: seq<RawBar>, rest: seq<RawBar>)
    requires SortedByTimestamp(rows) && |rows| > 0
    requires TsLe(rows[0].timestamp, x.timestamp)
    requires SortedByTimestamp(rest) && multiset(rest) == multiset(rows[1..]) + multiset{x}
    ensures SortedByTimestamp([rows[0]] + rest)
    ensures multiset([rows[0]] + rest) == multiset(rows) + multiset{x}
  {
    assert rows == [rows[0]] + rows[1..];
    forall j | 0 <= j < |rest| ensures TsLe(rows[0].timestamp, rest[j].timestamp) {
      assert rest[j] in multiset(rest);
      if rest[j] != x {
        assert rest[j] in multiset(rows[1..]);
        var m :| 0 <= m < |rows[1..]| && rows[1..][m] == rest[j];
        assert rows[m + 1] == rest[j];
      }
    }
    var r := [rows[0]] + rest;
    forall i, j | 0 <= i < j < |r| ensures TsLe(r[i].timestamp, r[j].timestamp) {
      assert r[j] == rest[j - 1];
      if i > 0 {
        assert r[i] == rest[i - 1];
      }
    }
  }

  /** `sort_values("timestamp")`: ascending by timestamp, undefined last, a permutation of the rows. */
  function SortByTimestamp(rows: seq<RawBar>): (r: seq<RawBar>)
    ensures multiset(r) == multiset(rows)
    ensures SortedByTimestamp(r)
    ensures |r| == |rows|
  {
    if |rows| == 0 then []
    else
      assert rows == rows[..|rows| - 1] + [rows[|rows| - 1]];
      var r := Insert(rows[|rows| - 1], SortByTimestamp(rows[..|rows| - 1]));
      assert |r| == |multiset(r)|;
      r
  }

  /** A row that sorts after everything already there is appended. */
  lemma {:induction false} InsertLast(x: RawBar, rows: seq<RawBar>)
    requires SortedByTimestamp(rows)
    requires forall j :: 0 <= j < |rows| ==> TsLe(rows[j].timestamp, x.timestamp)
    ensures Insert(x, rows) == rows + [x]
  {
    if |rows| > 0 {
      InsertLast(x, rows[1..]);
      assert rows == [rows[0]] + rows[1..];
    }
  }

  /** Sorting is stable on sorted input: a table already in timestamp order is unchanged. */
  lemma {:induction false} SortKeepsSorted(rows: seq<RawBar>)
    requires SortedByTimestamp(rows)
    ensures SortByTimestamp(rows) == rows
  {
    if |rows| > 0 {
      var p := rows[..|rows| - 1];
      var x := rows[|rows| - 1];
      assert rows == p + [x];
      SortedSplit(p, x);
      SortKeepsSorted(p);
      InsertLast(x, p);
      SortStep(rows);
    }
  }

  /** A sorted sequence is a sorted prefix followed by an element no earlier than any of it. */
  lemma SortedSplit(p: seq<RawBar>, x: RawBar)
    requires SortedByTimestamp(p + [x])
    ensures SortedByTimestamp(p)
    ensures forall j :: 0 <= j < |p| ==> TsLe(p[j].timestamp, x.timestamp)
  {
    var rows := p + [x];
    assert forall j :: 0 <= j < |p| ==> rows[j] == p[j];
    assert rows[|p|] == x;
  }

  /** One step of the insertion sort: the last row is inserted into the sorted prefix. */
  lemma SortStep(rows: seq<RawBar>)
    requires |rows| > 0
    ensures SortByTimestamp(rows) == Insert(rows[|rows| - 1], SortByTimestamp(rows[..|rows| - 1]))
  {
  }

  /** Rows whose timestamps are all undefined keep their order. */
  lemma UndefinedTimestampsKeepOrder(rows: seq<RawBar>)
    requires forall j :: 0 <= j < |rows| ==> rows[j].timestamp.None?
    ensures SortByTimestamp(rows) == rows
  {
    SortKeepsSorted(rows);
  }

  // ---------------------------------------------------------------------------
  // Facts about column lookup

  /** The first column at index `i` that matches is what `FirstTimestampLike` finds. */
  lemma FirstLikeUnique(cols: seq<Column>, i: nat)
    requires i < |cols| && TimestampLike(cols[i].name)
    requires forall j :: 0 <= j < i ==> !TimestampLike(cols[j].name)
    ensures FirstTimestampLike(cols) == Some(i)
  {
    var r := FirstTimestampLike(cols);
    assert r.Some?;
    assert r.value == i;
  }

  /** The first column named `name` sits at `j`. */
  lemma FindUnique(cols: seq<Column>, name: string, j: nat)
    requires j < |cols| && cols[j].name == name
    requires forall k :: 0 <= k < j ==> cols[k].name != name
    ensures FindColumn(cols, name, 0) == Some(j)
  {
    var r := FindColumn(cols, name, 0);
    assert r.Some?;
    assert r.value == j;
  }

  /** Appending columns does not change where an existing name is found. */
  lemma FindInPrefix(base: seq<Column>, extra: seq<Column>, name: string)
    requires FindColumn(base, name, 0).Some?
    ensures FindColumn(base + extra, name, 0) == FindColumn(base, name, 0)
  {
    var j := FindColumn(base, name, 0).value;
    FindUnique(base + extra, name, j);
  }

  lemma RequiredNames()
    ensures TimestampLike(TimestampName)
    ensures forall k :: 1 <= k < |Required| ==> !TimestampLike(Required[k]) && Required[k] != TimestampName
    ensures forall k, m :: 0 <= k < m < |Required| ==> Required[k] != Required[m]
  {
    assert Lower(TimestampName) == TimestampName;
    assert Lower("open") == "open";
    assert Lower("high") == "high";
    assert Lower("low") == "low";
    assert Lower("close") == "close";
    assert Lower("volume") == "volume";
  }

  /** The table after the rename step. */
  function Renamed(cols: seq<Column>): (t: seq<Column>)
    ensures |t| == |cols|
  {
    match FirstTimestampLike(cols)
    case None => cols
    case Some(i) => cols[i := Column(TimestampName, cols[i].cells)]
  }

  /** After renaming, `timestamp` is found at the renamed column. */
  lemma RenamedTimestamp(cols: seq<Column>)
    requires FirstTimestampLike(cols).Some?
    ensures FindColumn(Renamed(cols), TimestampName, 0) == FirstTimestampLike(cols)
  {
    RequiredNames();
    var i := FirstTimestampLike(cols).value;
    FindUnique(Renamed(cols), TimestampName, i);
  }

  /** Without a timestamp-like column there is no `timestamp` column before or after renaming. */
  lemma NoTimestampWithoutLike(cols: seq<Column>)
    requires FirstTimestampLike(cols).None?
    ensures !HasColumn(Renamed(cols), TimestampName) && !HasColumn(cols, TimestampName)
  {
    RequiredNames();
  }

  /** A name that is not timestamp-like is found in the same column before and after renaming. */
  lemma RenamedOther(cols: seq<Column>, name: string)
    requires name != TimestampName && !TimestampLike(name)
    ensures FindColumn(Renamed(cols), name, 0) == FindColumn(cols, name, 0)
    ensures FindColumn(cols, name, 0).Some? ==>
              Renamed(cols)[FindColumn(cols, name, 0).value] == cols[FindColumn(cols, name, 0).value]
  {
    var t := Renamed(cols);
    assert forall k :: 0 <= k < |cols| ==> (t[k].name == name <==> cols[k].name == name);
    var r := FindColumn(cols, name, 0);
    if r.Some? {
      FindUnique(t, name, r.value);
    }
  }

  /** Two columns share the name `name`. */
  predicate Duplicated(t: seq<Column>, name: string)
  {
    exists j1, j2 :: 0 <= j1 < j2 < |t| && t[j1].name == name && t[j2].name == name
  }

  /** With distinct names to start from, renaming duplicates `timestamp` exactly on a collision. */
  lemma RenamedDuplicateIffCollision(cols: seq<Column>)
    requires DistinctNames(cols)
    ensures Duplicated(Renamed(cols), TimestampName) <==> Collision(cols)
  {
    RequiredNames();
    var t := Renamed(cols);
    match FirstTimestampLike(cols)
    case None =>
      NoTimestampWithoutLike(cols);
    case Some(i) =>
      if Collision(cols) {
        var j := FindColumn(cols, TimestampName, 0).value;
        assert j != i;
        assert t[i].name == TimestampName && t[j].name == TimestampName;
      }
  }

  /** The cells of the first column named `name`, or undefined cells when there is none. */
  function Cells(t: seq<Column>, name: string, nrows: nat): (c: seq<Option<real>>)
    requires Rectangular(t, nrows)
    ensures |c| == nrows
  {
    match FindColumn(t, name, 0)
    case None => Undefined(nrows)
    case Some(j) => t[j].cells
  }

  /** What the fill step adds: new all-undefined columns, distinct, whose names `base` lacks. */
  predicate FilledFrom(base: seq<Column>, t: seq<Column>, nrows: nat)
  {
    && |t| >= |base| && t[..|base|] == base
    && (forall j :: |base| <= j < |t| ==> t[j].cells == Undefined(nrows) && !HasColumn(base, t[j].name))
    && (forall j1, j2 :: |base| <= j1 < j2 < |t| ==> t[j1].name != t[j2].name)
  }

  /** Filling adds no duplicate `timestamp`. */
  lemma FillKeepsDuplicates(base: seq<Column>, t: seq<Column>, nrows: nat, name: string)
    requires FilledFrom(base, t, nrows)
    ensures Duplicated(t, name) <==> Duplicated(base, name)
  {
    if Duplicated(t, name) {
      var j1, j2 :| 0 <= j1 < j2 < |t| && t[j1].name == name && t[j2].name == name;
      if j2 < |base| {
        assert base[j1].name == name && base[j2].name == name;
      }
    }
    if Duplicated(base, name) {
      var j1, j2 :| 0 <= j1 < j2 < |base| && base[j1].name == name && base[j2].name == name;
      assert t[j1] == base[j1] && t[j2] == base[j2];
    }
  }

  /** After filling, each name's cells come from `base` when it has the name, else are undefined. */
  lemma FilledCells(base: seq<Column>, t: seq<Column>, nrows: nat, name: string)
    requires FilledFrom(base, t, nrows) && Rectangular(base, nrows) && Rectangular(t, nrows)
    requires HasColumn(t, name)
    ensures Cells(t, name, nrows) == Cells(base, name, nrows)
  {
    if HasColumn(base, name) {
      assert t == base + t[|base|..];
      FindInPrefix(base, t[|base|..], name);
    } else {
    }
  }

  /** The renamed table's cells are the source cells of every required column. */
  lemma RenamedCells(cols: seq<Column>, nrows: nat, name: string)
    requires Rectangular(cols, nrows)
    requires name in Required
    ensures Rectangular(Renamed(cols), nrows)
    ensures Cells(Renamed(cols), name, nrows) == SourceCells(cols, name, nrows)
  {
    RequiredNames();
    if name == TimestampName {
      if FirstTimestampLike(cols).Some? {
        RenamedTimestamp(cols);
      } else {
        NoTimestampWithoutLike(cols);
      }
    } else {
      RenamedOther(cols, name);
    }
  }

  // ---------------------------------------------------------------------------
  // The loader

  /**
   * `load_market_csv` on a parsed table: rename the first timestamp-like column to
   * `timestamp`, add every missing required column as undefined, select the required
   * columns in order and sort the rows by timestamp. `None` is the failure a duplicated
   * `timestamp` label causes.
   */
  method LoadMarketCsv(cols: seq<Column>, nrows: nat) returns (r: Option<seq<RawBar>>)
    requires Rectangular(cols, nrows) && DistinctNames(cols)
    ensures r.None? <==> Collision(cols)
    ensures r.Some? ==> r.value == SortByTimestamp(SelectedRows(cols, nrows))
    ensures r.Some? ==> |r.value| == nrows && SortedByTimestamp(r.value)
    ensures r.Some? ==> multiset(r.value) == multiset(SelectedRows(cols, nrows))
  {
    var renamed := RenameTimestampColumn(cols);
    assert Rectangular(renamed, nrows);
    var table := AddMissingColumns(renamed, nrows);
    // Selecting and sorting by a duplicated label fails.
    FillKeepsDuplicates(renamed, table, nrows, TimestampName);
    RenamedDuplicateIffCollision(cols);
    if Duplicated(table, TimestampName) {
      return None;
    }
    TableSelectsSource(cols, table, nrows);
    r := Some(SortByTimestamp(TableRows(table, nrows)));
  }

  /** `df[required]` on the filled table: one row per line, the first column of each name. */
  function TableRows(table: seq<Column>, nrows: nat): (rows: seq<RawBar>)
    requires Rectangular(table, nrows)
    ensures |rows| == nrows
  {
    seq(nrows, k requires 0 <= k < nrows =>
      RawBar(Cells(table, TimestampName, nrows)[k], Cells(table, "open", nrows)[k],
             Cells(table, "high", nrows)[k], Cells(table, "low", nrows)[k],
             Cells(table, "close", nrows)[k], Cells(table, "volume", nrows)[k]))
  }

  /** Renaming then filling puts each required column's source cells under its name. */
  lemma TableSelectsSource(cols: seq<Column>, table: seq<Column>, nrows: nat)
    requires Rectangular(cols, nrows) && Rectangular(Renamed(cols), nrows) && Rectangular(table, nrows)
    requires FilledFrom(Renamed(cols), table, nrows)
    requires forall m :: 0 <= m < |Required| ==> HasColumn(table, Required[m])
    ensures TableRows(table, nrows) == SelectedRows(cols, nrows)
  {
    TableCells(cols, table, nrows, TimestampName);
    TableCells(cols, table, nrows, "open");
    TableCells(cols, table, nrows, "high");
    TableCells(cols, table, nrows, "low");
    TableCells(cols, table, nrows, "close");
    TableCells(cols, table, nrows, "volume");
  }

  /** One required column of the filled table holds that column's source cells. */
  lemma TableCells(cols: seq<Column>, table: seq<Column>, nrows: nat, name: string)
    requires Rectangular(cols, nrows) && Rectangular(Renamed(cols), nrows) && Rectangular(table, nrows)
    requires FilledFrom(Renamed(cols), table, nrows)
    requires forall m :: 0 <= m < |Required| ==> HasColumn(table, Required[m])
    requires name in Required
    ensures Cells(table, name, nrows) == SourceCells(cols, name, nrows)
  {
    var m :| 0 <= m < |Required| && Required[m] == name;
    FilledCells(Renamed(cols), table, nrows, name);
    RenamedCells(cols, nrows, name);
  }

  /** The detection loop: rename the first timestamp-like column to `timestamp` and stop. */
  method RenameTimestampColumn(cols: seq<Column>) returns (table: seq<Column>)
    ensures table == Renamed(cols)
    ensures FirstTimestampLike(cols).Some? ==> table[FirstTimestampLike(cols).value].name == TimestampName
    ensures forall j :: 0 <= j < |cols| && Some(j) != FirstTimestampLike(cols) ==> table[j] == cols[j]
  {
    table := cols;
    var i := 0;
    while i < |table|
      invariant 0 <= i <= |cols| && table == cols
      invariant forall j :: 0 <= j < i ==> !TimestampLike(cols[j].name)
    {
      if TimestampLike(table[i].name) {
        table := table[i := Column(TimestampName, table[i].cells)];
        FirstLikeUnique(cols, i);
        return;
      }
      i := i + 1;
    }
  }

  /** The names of `names` that `base` lacks, in the order of `names`. */
  function MissingNames(base: seq<Column>, names: seq<string>): seq<string>
    decreases |names|
  {
    if |names| == 0 then []
    else
      var last := names[|names| - 1];
      MissingNames(base, names[..|names| - 1]) + (if HasColumn(base, last) then [] else [last])
  }

  /** One all-undefined column per name (`df[c] = np.nan`). */
  function FillColumns(names: seq<string>, nrows: nat): (cs: seq<Column>)
    ensures |cs| == |names|
    ensures forall i :: 0 <= i < |names| ==> cs[i] == Column(names[i], Undefined(nrows))
  {
    seq(|names|, i requires 0 <= i < |names| => Column(names[i], Undefined(nrows)))
  }

  /** A name is missing exactly when it is one of `names` and `base` has no column of that name. */
  lemma {:induction false} MissingNamesMembers(base: seq<Column>, names: seq<string>)
    ensures forall n :: n in MissingNames(base, names) <==> n in names && !HasColumn(base, n)
    decreases |names|
  {
    if |names| > 0 {
      var init := names[..|names| - 1];
      MissingNamesMembers(base, init);
      assert names == init + [names[|names| - 1]];
    }
  }

  /**
   * The fill loop: add each required column the table lacks, all undefined, in the
   * order of the required list; nothing else is added.
   */
  method AddMissingColumns(base: seq<Column>, nrows: nat) returns (table: seq<Column>)
    requires Rectangular(base, nrows)
    ensures table == base + FillColumns(MissingNames(base, Required), nrows)
    ensures forall j :: |base| <= j < |table| ==> table[j].name in Required && !HasColumn(base, table[j].name)
    ensures FilledFrom(base, table, nrows) && Rectangular(table, nrows)
    ensures forall m :: 0 <= m < |Required| ==> HasColumn(table, Required[m])
  {
    table := base;
    for k := 0 to |Required|
      invariant table == base + FillColumns(MissingNames(base, Required[..k]), nrows)
    {
      var name := Required[k];
      RequiredNotEarlier(k);
      assert Required[..k + 1] == Required[..k] + [name];
      if HasColumn(base, name) {
        FillStepKept(base, table, nrows, Required[..k], name);
      } else {
        FillStepAdded(base, table, nrows, Required[..k], name);
      }
      if !HasColumn(table, name) {
        table := table + [Column(name, Undefined(nrows))];
      }
    }
    assert Required[..|Required|] == Required;
    RequiredNames();
    FilledAll(base, Required, nrows);
  }

  /** A required name does not occur earlier in the list. */
  lemma RequiredNotEarlier(k: nat)
    requires k < |Required|
    ensures Required[k] !in Required[..k]
  {
    RequiredNames();
  }

  /** Missing names inherit distinctness from the list they are taken from. */
  lemma {:induction false} MissingNamesDistinct(base: seq<Column>, names: seq<string>)
    requires forall i, j :: 0 <= i < j < |names| ==> names[i] != names[j]
    ensures forall i, j :: 0 <= i < j < |MissingNames(base, names)| ==>
              MissingNames(base, names)[i] != MissingNames(base, names)[j]
    decreases |names|
  {
    if |names| > 0 {
      var init := names[..|names| - 1];
      var last := names[|names| - 1];
      MissingNamesDistinct(base, init);
      MissingNamesMembers(base, init);
      assert last !in init;
    }
  }

  /**
   * Appending the missing columns of a list of distinct names fills the table: it
   * keeps `base` as its prefix, adds distinct undefined columns `base` lacked, and
   * ends with a column for every name of the list.
   */
  lemma FilledAll(base: seq<Column>, names: seq<string>, nrows: nat)
    requires Rectangular(base, nrows)
    requires forall i, j :: 0 <= i < j < |names| ==> names[i] != names[j]
    ensures FilledFrom(base, base + FillColumns(MissingNames(base, names), nrows), nrows)
    ensures Rectangular(base + FillColumns(MissingNames(base, names), nrows), nrows)
    ensures forall j :: |base| <= j < |base| + |MissingNames(base, names)| ==>
              (base + FillColumns(MissingNames(base, names), nrows))[j].name in names
    ensures forall n :: n in names ==> HasColumn(base + FillColumns(MissingNames(base, names), nrows), n)
  {
    var miss := MissingNames(base, names);
    var extra := FillColumns(miss, nrows);
    var t := base + extra;
    MissingNamesMembers(base, names);
    MissingNamesDistinct(base, names);
    assert t[..|base|] == base;
    forall j | |base| <= j < |t|
      ensures t[j] == Column(miss[j - |base|], Undefined(nrows)) && miss[j - |base|] in miss
    {
    }
    forall n | n in names
      ensures HasColumn(t, n)
    {
      if HasColumn(base, n) {
        FindInPrefix(base, extra, n);
      } else {
        var i :| 0 <= i < |miss| && miss[i] == n;
        assert t[|base| + i].name == n;
      }
    }
  }

  /**
   * One round of the fill loop when `base` has the next required name: the partly
   * filled table has it too, and nothing is appended.
   */
  lemma {:induction false} FillStepKept(base: seq<Column>, table: seq<Column>, nrows: nat, done: seq<string>, name: string)
    requires table == base + FillColumns(MissingNames(base, done), nrows)
    requires HasColumn(base, name)
    ensures HasColumn(table, name)
    ensures table == base + FillColumns(MissingNames(base, done + [name]), nrows)
  {
    FindInPrefix(base, FillColumns(MissingNames(base, done), nrows), name);
    MissingNamesLast(base, done, name);
  }

  /**
   * One round of the fill loop when `base` lacks the next required name: the partly
   * filled table lacks it too, and the loop appends exactly that column.
   */
  lemma {:induction false} FillStepAdded(base: seq<Column>, table: seq<Column>, nrows: nat, done: seq<string>, name: string)
    requires table == base + FillColumns(MissingNames(base, done), nrows)
    requires name !in done && !HasColumn(base, name)
    ensures !HasColumn(table, name)
    ensures table + [Column(name, Undefined(nrows))] == base + FillColumns(MissingNames(base, done + [name]), nrows)
  {
    var miss := MissingNames(base, done);
    MissingNamesMembers(base, done);
    LookupPastMissing(base, FillColumns(miss, nrows), name);
    MissingNamesLast(base, done, name);
    FillColumnsAppend(miss, name, nrows);
  }

  /** Looking a name up in `base` plus columns not carrying it finds what `base` has. */
  lemma LookupPastMissing(base: seq<Column>, extra: seq<Column>, name: string)
    requires forall i :: 0 <= i < |extra| ==> extra[i].name != name
    ensures HasColumn(base + extra, name) <==> HasColumn(base, name)
  {
    if HasColumn(base, name) {
      FindInPrefix(base, extra, name);
    } else {
      var t := base + extra;
      assert forall j :: 0 <= j < |t| ==> t[j].name != name by {
        forall j | 0 <= j < |t| ensures t[j].name != name {
          if j >= |base| { assert t[j] == extra[j - |base|]; }
        }
      }
    }
  }

  lemma MissingNamesLast(base: seq<Column>, done: seq<string>, name: string)
    ensures MissingNames(base, done + [name])
         == MissingNames(base, done) + (if HasColumn(base, name) then [] else [name])
  {
    var next := done + [name];
    assert next[..|next| - 1] == done;
  }

  lemma FillColumnsAppend(names: seq<string>, name: string, nrows: nat)
    ensures FillColumns(names + [name], nrows) == FillColumns(names, nrows) + [Column(name, Undefined(nrows))]
  {
  }

  /** A file without a `volume` column loads with the volume undefined in every row. */
  lemma MissingVolumeUndefined(cols: seq<Column>, nrows: nat)
    requires Rectangular(cols, nrows)
    requires !HasColumn(cols, "volume")
    ensures forall row :: row in SortByTimestamp(SelectedRows(cols, nrows)) ==> row.volume.None?
  {
    var sel := SelectedRows(cols, nrows);
    assert forall k :: 0 <= k < |sel| ==> sel[k].volume.None?;
    SortMembers(sel);
  }

  /** Sorting neither adds nor invents rows. */
  lemma SortMembers(rows: seq<RawBar>)
    ensures forall row :: row in SortByTimestamp(rows) ==> row in rows
  {
    forall row | row in SortByTimestamp(rows) ensures row in rows {
      assert row in multiset(SortByTimestamp(rows));
    }
  }

  /** A file without any timestamp-like column keeps its row order, with every timestamp undefined. */
  lemma NoTimestampColumnKeepsOrder(cols: seq<Column>, nrows: nat)
    requires Rectangular(cols, nrows)
    requires FirstTimestampLike(cols).None?
    ensures SortByTimestamp(SelectedRows(cols, nrows)) == SelectedRows(cols, nrows)
    ensures forall k :: 0 <= k < nrows ==> SelectedRows(cols, nrows)[k].timestamp.None?
  {
    UndefinedTimestampsKeepOrder(SelectedRows(cols, nrows));
  }

  /** `Date` before `time`: only `Date` becomes the timestamp, and `time` is dropped. */
  lemma FirstTimestampLikeWins(d: seq<Option<real>>, t: seq<Option<real>>)
    requires |d| == |t|
    ensures var cols := [Column("Date", d), Column("time", t)];
            !Collision(cols) && forall k :: 0 <= k < |d| ==> SelectedRows(cols, |d|)[k].timestamp == d[k]
  {
    var cols := [Column("Date", d), Column("time", t)];
    assert Lower("Date") == "date";
    FirstLikeUnique(cols, 0);
  }

  /** `Date` before an exact `timestamp` column: renaming duplicates the label and the load fails. */
  lemma DateThenTimestampCollides(d: seq<Option<real>>, t: seq<Option<real>>)
    ensures Collision([Column("Date", d), Column(TimestampName, t)])
  {
    var cols := [Column("Date", d), Column(TimestampName, t)];
    assert Lower("Date") == "date";
    FirstLikeUnique(cols, 0);
    FindUnique(cols, TimestampName, 1);
  }
}
