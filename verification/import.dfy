/** The import drivers: which databases and tables of the schema overview are
    recreated, and in what order. Each processed table goes through
    `Ddl.ProcessTable` (CREATE TABLE, then its sample rows). */
module Import {
  import opened Common
  import opened Ddl

  /** A database of the schema overview. */
  datatype Database = Database(name: string, tables: seq<Table>)

  /** One step of an import run. */
  datatype Step = CreateDatabase(db: string) | UseDatabase(db: string) | Process(table: Table)

  const Foundation := "psw_foundation"
  const Portfolio := "psw_portfolio"

  /** The databases the two-database import handles, in order. */
  const Databases := [Foundation, Portfolio]

  const FoundationTables := ["brokers", "broker_type", "portfolio_strategy_groups", "currencies", "asset_class_group"]
  const PortfolioTables := ["new_companies_status", "new_companies", "portfolios"]

  /** The portfolio import's dependency order. */
  const TableOrder := ["new_companies_status", "brokers", "portfolio_strategy_groups", "country_info", "new_companies"]

  /** `array.find` by name: the first table with that name, if any. */
  function Named(tables: seq<Table>, name: string): (r: Option<Table>)
    ensures r.None? <==> forall i :: 0 <= i < |tables| ==> tables[i].name != name
    ensures r.Some? ==> exists i :: 0 <= i < |tables| && tables[i] == r.value && r.value.name == name &&
                                    (forall j :: 0 <= j < i ==> tables[j].name != name)
  {
    if |tables| == 0 then None
    else if tables[0].name == name then Some(tables[0])
    else
      var r := Named(tables[1..], name);
      assert r.Some? ==> exists i :: 0 <= i < |tables| && tables[i] == r.value && r.value.name == name &&
                                     (forall j :: 0 <= j < i ==> tables[j].name != name) by {
        if r.Some? {
          var i :| 0 <= i < |tables[1..]| && tables[1..][i] == r.value && r.value.name == name &&
            (forall j :: 0 <= j < i ==> tables[1..][j].name != name);
          assert forall j :: 0 <= j < i + 1 ==> tables[j].name != name by {
            forall j | 0 <= j < i + 1 ensures tables[j].name != name {
              if j > 0 {
                assert tables[j] == tables[1..][j - 1];
              }
            }
          }
        }
      }
      r
  }

  /** `databases.find` by name. */
  function NamedDatabase(dbs: seq<Database>, name: string): (r: Option<Database>)
    ensures r.None? <==> forall i :: 0 <= i < |dbs| ==> dbs[i].name != name
    ensures r.Some? ==> exists i :: 0 <= i < |dbs| && dbs[i] == r.value && r.value.name == name &&
                                    (forall j :: 0 <= j < i ==> dbs[j].name != name)
  {
    if |dbs| == 0 then None
    else if dbs[0].name == name then Some(dbs[0])
    else
      var r := NamedDatabase(dbs[1..], name);
      assert r.Some? ==> exists i :: 0 <= i < |dbs| && dbs[i] == r.value && r.value.name == name &&
                                     (forall j :: 0 <= j < i ==> dbs[j].name != name) by {
        if r.Some? {
          var i :| 0 <= i < |dbs[1..]| && dbs[1..][i] == r.value && r.value.name == name &&
            (forall j :: 0 <= j < i ==> dbs[1..][j].name != name);
          assert forall j :: 0 <= j < i + 1 ==> dbs[j].name != name by {
            forall j | 0 <= j < i + 1 ensures dbs[j].name != name {
              if j > 0 {
                assert dbs[j] == dbs[1..][j - 1];
              }
            }
          }
        }
      }
      r
  }

  /** The tables the overview lists for a database; none when it lacks the
      database. */
  function Overview(dbs: seq<Database>, name: string): seq<Table> {
    match NamedDatabase(dbs, name)
    case None => []
    case Some(d) => d.tables
  }

  predicate Present(tables: seq<Table>, name: string) {
    exists i :: 0 <= i < |tables| && tables[i].name == name
  }

  /** The name is one of the tables'. */
  function IsPresent(tables: seq<Table>): string -> bool {
    (n: string) => Present(tables, n)
  }

  /** The name is not in the list. */
  function NotIn(names: seq<string>): string -> bool {
    (n: string) => n !in names
  }

  /** The names of the tables processed, in order. */
  function Processed(steps: seq<Step>): seq<string> {
    if |steps| == 0 then []
    else (if steps[0].Process? then [steps[0].table.name] else []) + Processed(steps[1..])
  }

  /** The tables processed, in order, each with its schema and sample rows. */
  function Tables(steps: seq<Step>): seq<Table> {
    if |steps| == 0 then []
    else (if steps[0].Process? then [steps[0].table] else []) + Tables(steps[1..])
  }

  /** Every step processes the overview's first table of that name, as
      `tables.find(t => t.name === name)` hands it on. */
  predicate FirstTables(steps: seq<Step>, tables: seq<Table>) {
    forall i :: 0 <= i < |steps| ==> steps[i].Process? && Named(tables, steps[i].table.name) == Some(steps[i].table)
  }

  /** The table's name is not in the list. */
  function Outside(names: seq<string>): Table -> bool {
    (t: Table) => t.name !in names
  }

  /** The CREATE DATABASE steps, in order. */
  function Created(steps: seq<Step>): seq<string> {
    if |steps| == 0 then []
    else (if steps[0].CreateDatabase? then [steps[0].db] else []) + Created(steps[1..])
  }

  lemma ProcessedConcat(a: seq<Step>, b: seq<Step>)
    ensures Processed(a + b) == Processed(a) + Processed(b)
    ensures Created(a + b) == Created(a) + Created(b)
  {
    ProcessedAppend(a, b);
    CreatedAppend(a, b);
  }

  lemma {:induction false} ProcessedAppend(a: seq<Step>, b: seq<Step>)
    ensures Processed(a + b) == Processed(a) + Processed(b)
  {
    if |a| == 0 {
      assert a + b == b;
    } else {
      assert (a + b)[1..] == a[1..] + b;
      ProcessedAppend(a[1..], b);
      assert (a + b)[0] == a[0];
    }
  }

  lemma {:induction false} TablesAppend(a: seq<Step>, b: seq<Step>)
    ensures Tables(a + b) == Tables(a) + Tables(b)
  {
    if |a| == 0 {
      assert a + b == b;
    } else {
      assert (a + b)[1..] == a[1..] + b;
      TablesAppend(a[1..], b);
      assert (a + b)[0] == a[0];
    }
  }

  lemma {:induction false} CreatedAppend(a: seq<Step>, b: seq<Step>)
    ensures Created(a + b) == Created(a) + Created(b)
  {
    if |a| == 0 {
      assert a + b == b;
    } else {
      assert (a + b)[1..] == a[1..] + b;
      CreatedAppend(a[1..], b);
      assert (a + b)[0] == a[0];
    }
  }

  /** Each processed table's name paired with the database the last USE before
      it selected, starting with `current` selected (None: no USE yet). */
  function Placements(steps: seq<Step>, current: Option<string>): seq<(Option<string>, string)> {
    if |steps| == 0 then []
    else
      match steps[0]
      case CreateDatabase(_) => Placements(steps[1..], current)
      case UseDatabase(db) => Placements(steps[1..], Some(db))
      case Process(t) => [(current, t.name)] + Placements(steps[1..], current)
  }

  /** The database selected once the steps have run. */
  function InUse(steps: seq<Step>, current: Option<string>): Option<string> {
    if |steps| == 0 then current
    else if steps[0].UseDatabase? then InUse(steps[1..], Some(steps[0].db))
    else InUse(steps[1..], current)
  }

  /** Every name placed into the database `db`. */
  function Into(db: Option<string>, names: seq<string>): (r: seq<(Option<string>, string)>)
    ensures |r| == |names|
    ensures forall i :: 0 <= i < |names| ==> r[i] == (db, names[i])
  {
    if |names| == 0 then [] else [(db, names[0])] + Into(db, names[1..])
  }

  lemma {:induction false} PlacementsConcat(a: seq<Step>, b: seq<Step>, current: Option<string>)
    ensures Placements(a + b, current) == Placements(a, current) + Placements(b, InUse(a, current))
    ensures InUse(a + b, current) == InUse(b, InUse(a, current))
  {
    if |a| == 0 {
      assert a + b == b;
    } else {
      assert (a + b)[1..] == a[1..] + b;
      var next := if a[0].UseDatabase? then Some(a[0].db) else current;
      PlacementsConcat(a[1..], b, next);
    }
  }

  /** Steps that only process tables place them all into the selected database. */
  lemma {:induction false} ProcessOnly(steps: seq<Step>, current: Option<string>)
    requires forall i :: 0 <= i < |steps| ==> steps[i].Process?
    ensures Placements(steps, current) == Into(current, Processed(steps))
    ensures InUse(steps, current) == current
  {
    if |steps| > 0 {
      ProcessOnly(steps[1..], current);
    }
  }

  /** One Process step per listed name found among the tables, in list order;
      a missing name is skipped. Each step carries the first table of that
      name. */
  function Listed(tables: seq<Table>, names: seq<string>): (r: seq<Step>)
    ensures Processed(r) == Filter(IsPresent(tables), names)
    ensures Created(r) == []
    ensures FirstTables(r, tables)
  {
    if |names| == 0 then []
    else
      var head := match Named(tables, names[0]) case None => [] case Some(t) => [Process(t)];
      var rest := Listed(tables, names[1..]);
      ProcessedConcat(head, rest);
      head + rest
  }

  /** The Process steps for every table whose name is not in `order`, in the
      overview's order. */
  function Others(tables: seq<Table>, order: seq<string>): (r: seq<Step>)
    ensures Processed(r) == Filter(NotIn(order), TableNames(tables))
    ensures Created(r) == []
    ensures forall i :: 0 <= i < |r| ==> r[i].Process? && r[i].table in tables
    ensures Tables(r) == Filter(Outside(order), tables)
  {
    if |tables| == 0 then []
    else
      var head := if tables[0].name !in order then [Process(tables[0])] else [];
      var rest := Others(tables[1..], order);
      ProcessedConcat(head, rest);
      TablesAppend(head, rest);
      head + rest
  }

  function TableNames(tables: seq<Table>): (r: seq<string>)
    ensures |r| == |tables|
    ensures forall i :: 0 <= i < |tables| ==> r[i] == tables[i].name
  {
    if |tables| == 0 then [] else [tables[0].name] + TableNames(tables[1..])
  }

  /** The fixed table list of a database in the two-database import. */
  function FixedTables(db: string): seq<string> {
    if db == Foundation then FoundationTables
    else if db == Portfolio then PortfolioTables
    else []
  }

  lemma DatabaseSteps(name: string, current: Option<string>)
    ensures Processed([CreateDatabase(name), UseDatabase(name)]) == []
    ensures Created([CreateDatabase(name), UseDatabase(name)]) == [name]
    ensures Placements([CreateDatabase(name), UseDatabase(name)], current) == []
    ensures InUse([CreateDatabase(name), UseDatabase(name)], current) == Some(name)
  {
    assert [CreateDatabase(name), UseDatabase(name)][1..] == [UseDatabase(name)];
    assert [UseDatabase(name)][1..] == [];
    assert Processed([UseDatabase(name)]) == [];
    assert Created([UseDatabase(name)]) == [];
    assert Placements([UseDatabase(name)], current) == [];
    assert InUse([UseDatabase(name)], current) == Some(name);
  }

  /** Creating and selecting a database, then processing tables, places every
      one of those tables into that database. */
  lemma SelectThenProcess(name: string, tail: seq<Step>, current: Option<string>)
    requires forall i :: 0 <= i < |tail| ==> tail[i].Process?
    ensures Processed([CreateDatabase(name), UseDatabase(name)] + tail) == Processed(tail)
    ensures Placements([CreateDatabase(name), UseDatabase(name)] + tail, current) == Into(Some(name), Processed(tail))
    ensures InUse([CreateDatabase(name), UseDatabase(name)] + tail, current) == Some(name)
  {
    var head := [CreateDatabase(name), UseDatabase(name)];
    DatabaseSteps(name, current);
    ProcessedConcat(head, tail);
    PlacementsConcat(head, tail, current);
    ProcessOnly(tail, Some(name));
  }

  /** The tables a database's import is expected to process: those of its
      fixed list the overview has, in list order; none when the overview lacks
      the database. */
  function Expected(dbs: seq<Database>, name: string): seq<string> {
    match NamedDatabase(dbs, name)
    case None => []
    case Some(d) => Filter(IsPresent(d.tables), FixedTables(name))
  }

  /** What importing one database means: create and select it, then process,
      in its fixed list's order, the overview's own table for each name of
      that list the overview has. */
  predicate ImportsInto(steps: seq<Step>, dbs: seq<Database>, name: string) {
    && |steps| >= 2
    && steps[..2] == [CreateDatabase(name), UseDatabase(name)]
    && Processed(steps[2..]) == Expected(dbs, name)
    && FirstTables(steps[2..], Overview(dbs, name))
  }

  /** `importDatabase` of the two-database import: create and select the
      database, then — if the overview has it — its fixed tables in order. */
  function ImportDatabase(dbs: seq<Database>, name: string): (r: seq<Step>)
    ensures ImportsInto(r, dbs, name)
    ensures |r| >= 2 && r[..2] == [CreateDatabase(name), UseDatabase(name)]
    ensures Created(r) == [name]
    ensures NamedDatabase(dbs, name).None? ==> r == [CreateDatabase(name), UseDatabase(name)]
    ensures Processed(r) == Expected(dbs, name)
    ensures forall current :: Placements(r, current) == Into(Some(name), Expected(dbs, name))
    ensures forall current :: InUse(r, current) == Some(name)
  {
    var head := [CreateDatabase(name), UseDatabase(name)];
    var tail := match NamedDatabase(dbs, name) case None => [] case Some(d) => Listed(d.tables, FixedTables(name));
    ProcessedConcat(head, tail);
    forall current
      ensures Placements(head + tail, current) == Into(Some(name), Expected(dbs, name))
      ensures InUse(head + tail, current) == Some(name)
    {
      SelectThenProcess(name, tail, current);
    }
    DatabaseSteps(name, None);
    assert (head + tail)[2..] == tail;
    head + tail
  }

  /** Two step lists that process the overview's first tables under the same
      names are the same. */
  lemma {:induction false} FirstTablesUnique(s: seq<Step>, t: seq<Step>, tables: seq<Table>)
    requires FirstTables(s, tables) && FirstTables(t, tables)
    requires Processed(s) == Processed(t)
    ensures s == t
  {
    if |s| != 0 {
      assert Processed(s) == [s[0].table.name] + Processed(s[1..]);
      if |t| != 0 {
        assert Processed(t) == [t[0].table.name] + Processed(t[1..]);
        assert Processed(s)[1..] == Processed(t)[1..];
        FirstTablesTail(s, tables);
        FirstTablesTail(t, tables);
        FirstTablesUnique(s[1..], t[1..], tables);
        assert s == [s[0]] + s[1..] && t == [t[0]] + t[1..];
      }
    }
  }

  lemma FirstTablesTail(s: seq<Step>, tables: seq<Table>)
    requires |s| > 0 && FirstTables(s, tables)
    ensures FirstTables(s[1..], tables)
  {
    forall i | 0 <= i < |s[1..]|
      ensures s[1..][i].Process? && Named(tables, s[1..][i].table.name) == Some(s[1..][i].table)
    {
      assert s[1..][i] == s[i + 1];
    }
  }

  /** `ImportsInto` pins the steps down: the driver's steps are the only ones
      that meet it. */
  lemma ImportsIntoUnique(steps: seq<Step>, dbs: seq<Database>, name: string)
    requires ImportsInto(steps, dbs, name)
    ensures steps == ImportDatabase(dbs, name)
  {
    var r := ImportDatabase(dbs, name);
    FirstTablesUnique(steps[2..], r[2..], Overview(dbs, name));
    assert steps == steps[..2] + steps[2..];
    assert r == r[..2] + r[2..];
  }

  /** `importAllDatabases`: psw_foundation is created and filled, then
      psw_portfolio; each table goes into its own database. */
  function ImportAll(dbs: seq<Database>): (r: seq<Step>)
    ensures Created(r) == Databases
    ensures Processed(r) == Expected(dbs, Foundation) + Expected(dbs, Portfolio)
    ensures Placements(r, None) ==
      Into(Some(Foundation), Expected(dbs, Foundation)) + Into(Some(Portfolio), Expected(dbs, Portfolio))
    ensures exists k :: 0 <= k <= |r| && ImportsInto(r[..k], dbs, Foundation) && ImportsInto(r[k..], dbs, Portfolio)
  {
    var a := ImportDatabase(dbs, Foundation);
    var b := ImportDatabase(dbs, Portfolio);
    ImportAllCreated(dbs, a, b);
    ImportAllProcessed(dbs, a, b);
    ImportAllPlaced(dbs, a, b);
    assert (a + b)[..|a|] == a && (a + b)[|a|..] == b;
    a + b
  }

  /** psw_foundation is created first, then psw_portfolio. */
  lemma ImportAllCreated(dbs: seq<Database>, a: seq<Step>, b: seq<Step>)
    requires a == ImportDatabase(dbs, Foundation) && b == ImportDatabase(dbs, Portfolio)
    ensures Created(a + b) == Databases
  {
    ProcessedConcat(a, b);
  }

  /** The foundation tables are processed first, then the portfolio tables. */
  lemma ImportAllProcessed(dbs: seq<Database>, a: seq<Step>, b: seq<Step>)
    requires a == ImportDatabase(dbs, Foundation) && b == ImportDatabase(dbs, Portfolio)
    ensures Processed(a + b) == Expected(dbs, Foundation) + Expected(dbs, Portfolio)
  {
    ProcessedConcat(a, b);
  }

  /** The two imports in sequence place each table into its own database. */
  lemma ImportAllPlaced(dbs: seq<Database>, a: seq<Step>, b: seq<Step>)
    requires a == ImportDatabase(dbs, Foundation) && b == ImportDatabase(dbs, Portfolio)
    ensures Placements(a + b, None) ==
      Into(Some(Foundation), Expected(dbs, Foundation)) + Into(Some(Portfolio), Expected(dbs, Portfolio))
  {
    PlacementsConcat(a, b, None);
    assert InUse(a, None) == Some(Foundation);
    assert Placements(b, Some(Foundation)) == Into(Some(Portfolio), Expected(dbs, Portfolio));
  }

  /** Only tables of the two fixed lists are ever processed. */
  lemma ImportAllTables(dbs: seq<Database>)
    ensures forall n :: n in Processed(ImportAll(dbs)) ==> n in FoundationTables || n in PortfolioTables
  {
    assert FixedTables(Foundation) == FoundationTables;
    assert FixedTables(Portfolio) == PortfolioTables;
  }

  /** The outcome of the portfolio import: its steps, and whether it stopped
      with an error. */
  datatype Run = Run(steps: seq<Step>, failed: bool)

  /** The portfolio import: create and select psw_portfolio; fail if the
      overview lacks it; otherwise the tables of `TableOrder` that exist, in
      that order, then every other table in the overview's order. */
  function ImportPortfolio(dbs: seq<Database>): (r: Run)
    ensures |r.steps| >= 2 && r.steps[..2] == [CreateDatabase(Portfolio), UseDatabase(Portfolio)]
    ensures r.failed <==> NamedDatabase(dbs, Portfolio).None?
    ensures r.failed ==> Processed(r.steps) == []
    ensures Placements(r.steps, None) == Into(Some(Portfolio), Processed(r.steps))
    ensures !r.failed ==>
      var ts := NamedDatabase(dbs, Portfolio).value.tables;
      Processed(r.steps) ==
        Filter(IsPresent(ts), TableOrder) + Filter(NotIn(TableOrder), TableNames(ts))
    ensures !r.failed ==> OrderCarried(r.steps, Overview(dbs, Portfolio), TableOrder)
  {
    var head := [CreateDatabase(Portfolio), UseDatabase(Portfolio)];
    match NamedDatabase(dbs, Portfolio)
    case None =>
      SelectThenProcess(Portfolio, [], None);
      assert head + [] == head;
      Run(head, true)
    case Some(d) =>
      PortfolioOrdered(d.tables);
      OrderCarries(d.tables, TableOrder);
      Run(head + (Listed(d.tables, TableOrder) + Others(d.tables, TableOrder)), false)
  }

  /** With the database present, its tables are processed in the dependency
      order, then the rest, all inside psw_portfolio. */
  lemma PortfolioOrdered(ts: seq<Table>)
    ensures var steps := [CreateDatabase(Portfolio), UseDatabase(Portfolio)] + (Listed(ts, TableOrder) + Others(ts, TableOrder));
      && Processed(steps) == Filter(IsPresent(ts), TableOrder) + Filter(NotIn(TableOrder), TableNames(ts))
      && Placements(steps, None) == Into(Some(Portfolio), Processed(steps))
  {
    var first: seq<Step> := Listed(ts, TableOrder);
    var rest: seq<Step> := Others(ts, TableOrder);
    ProcessOnlyAppend(first, rest);
    SelectThenProcess(Portfolio, first + rest, None);
    ProcessedConcat(first, rest);
  }

  /** After create and select, the overview's own table for each name of
      `order` it has, in that order, then each of its other tables as it
      stands in the overview. */
  predicate OrderCarried(steps: seq<Step>, ts: seq<Table>, order: seq<string>) {
    exists k :: 2 <= k <= |steps|
      && FirstTables(steps[2..k], ts)
      && Processed(steps[2..k]) == Filter(IsPresent(ts), order)
      && (forall i :: k <= i < |steps| ==> steps[i].Process?)
      && Tables(steps[k..]) == Filter(Outside(order), ts)
  }

  lemma OrderCarries(ts: seq<Table>, order: seq<string>)
    ensures OrderCarried([CreateDatabase(Portfolio), UseDatabase(Portfolio)] +
                         (Listed(ts, order) + Others(ts, order)), ts, order)
  {
    var first: seq<Step> := Listed(ts, order);
    var rest: seq<Step> := Others(ts, order);
    var steps := [CreateDatabase(Portfolio), UseDatabase(Portfolio)] + (first + rest);
    var k := 2 + |first|;
    ThreeParts([CreateDatabase(Portfolio), UseDatabase(Portfolio)], first, rest);
    assert FirstTables(steps[2..k], ts);
    assert Processed(steps[2..k]) == Filter(IsPresent(ts), order);
    assert Tables(steps[k..]) == Filter(Outside(order), ts);
    assert forall i :: k <= i < |steps| ==> steps[i].Process? by {
      forall i | k <= i < |steps| ensures steps[i].Process? {
        assert steps[i] == steps[k..][i - k];
      }
    }
  }

  lemma ThreeParts<T>(h: seq<T>, a: seq<T>, b: seq<T>)
    ensures (h + (a + b))[|h|..|h| + |a|] == a
    ensures (h + (a + b))[|h| + |a|..] == b
  {
  }

  lemma ProcessOnlyAppend(a: seq<Step>, b: seq<Step>)
    requires forall i :: 0 <= i < |a| ==> a[i].Process?
    requires forall i :: 0 <= i < |b| ==> b[i].Process?
    ensures forall i :: 0 <= i < |a + b| ==> (a + b)[i].Process?
  {
    forall i | 0 <= i < |a + b| ensures (a + b)[i].Process? {
      if i >= |a| {
        assert (a + b)[i] == b[i - |a|];
      }
    }
  }

  lemma TableOrderDistinct()
    ensures Distinct(TableOrder)
  {
  }

  /** The listed tables then the others cover every table name, each once. */
  lemma OrderedThenOthers(ts: seq<Table>, order: seq<string>)
    requires Distinct(order)
    requires Distinct(TableNames(ts))
    ensures multiset(Filter(IsPresent(ts), order) + Filter(NotIn(order), TableNames(ts))) ==
      multiset(TableNames(ts))
  {
    var names := TableNames(ts);
    var a := Filter(IsPresent(ts), order);
    var b := Filter(NotIn(order), names);
    FilterDistinct(IsPresent(ts), order);
    FilterDistinct(NotIn(order), names);
    DistinctConcat(a, b);
    forall x ensures x in a + b <==> x in names {
      if x in names {
        var i :| 0 <= i < |names| && names[i] == x;
        assert ts[i].name == x;
      }
      if x in a {
        var i :| 0 <= i < |ts| && ts[i].name == x;
        assert names[i] == x;
      }
    }
    DistinctSameElements(a + b, names);
  }

  /** When the overview's table names are distinct, the portfolio import
      processes every table exactly once. */
  lemma PortfolioEachOnce(dbs: seq<Database>)
    requires NamedDatabase(dbs, Portfolio).Some?
    requires Distinct(TableNames(NamedDatabase(dbs, Portfolio).value.tables))
    ensures multiset(Processed(ImportPortfolio(dbs).steps)) == multiset(TableNames(NamedDatabase(dbs, Portfolio).value.tables))
  {
    TableOrderDistinct();
    OrderedThenOthers(NamedDatabase(dbs, Portfolio).value.tables, TableOrder);
  }
}
