/** The import scripts' serialisers: a column schema (as MySQL's SHOW COLUMNS
    reports it) turned into a CREATE TABLE statement, and sample rows turned
    into INSERT IGNORE executions. The two scripts render column definitions
    slightly differently; `Variant` names which one is meant. */
module Ddl {
  import opened Common
  import opened Statements

  /** One column of a table schema. `extra` is None for a missing or null
      Extra; an empty Extra counts as absent too. */
  datatype Column = Column(
    field: string,
    typ: string,
    nullable: string,         // "YES" or "NO"
    default: Option<string>,  // None for a NULL or missing default
    extra: Option<string>,
    key: string)              // "PRI", "MUL", "UNI" or ""

  /** The script that renders the definition: the two-database import, or the
      single portfolio import. */
  datatype Variant = AllDatabases | PortfolioOnly

  predicate HasExtra(c: Column) {
    c.extra.Some? && c.extra.value != ""
  }

  predicate StartsWith(s: string, p: string) {
    |p| <= |s| && s[..|p|] == p
  }

  predicate EndsWith(s: string, p: string) {
    |p| <= |s| && s[|s| - |p|..] == p
  }

  const NotNullText := " NOT NULL"
  const DefaultText := " DEFAULT "
  const AutoText := " AUTO_INCREMENT"
  const CurrentTimestamp := "CURRENT_TIMESTAMP"

  function Quoted(v: string): string {
    "'" + v + "'"
  }

  /** Two spaces, the backticked field name, a space and the type. */
  function ColumnHead(c: Column): string {
    "  `" + c.field + "` " + c.typ
  }

  function NotNullClause(c: Column): string {
    if c.nullable == "NO" then NotNullText else ""
  }

  /** The DEFAULT clause. Both scripts leave CURRENT_TIMESTAMP unquoted; only
      the two-database import leaves '0' unquoted as well. */
  function DefaultClause(v: Variant, d: Option<string>): string {
    match d
    case None => ""
    case Some(x) =>
      DefaultText + (if x == CurrentTimestamp || (v.AllDatabases? && x == "0") then x else Quoted(x))
  }

  /** The two-database import keeps only auto_increment, upper-cased; the
      portfolio import appends any Extra verbatim. */
  function ExtraClause(v: Variant, c: Column): string {
    if !HasExtra(c) then ""
    else if v.PortfolioOnly? then " " + c.extra.value
    else if c.extra.value == "auto_increment" then AutoText
    else ""
  }

  function Tail(v: Variant, c: Column): string {
    NotNullClause(c) + DefaultClause(v, c.default) + ExtraClause(v, c)
  }

  // ---------------------------------------------------------------------------
  // Reading a column definition back

  /** What a rendered column definition says about the column. */
  datatype Traits = Traits(notNull: bool, default: Option<string>, autoIncrement: bool)

  /** Reads a DEFAULT clause: an unquoted keyword or number, or a quoted text. */
  function ParseDefault(d: string): Option<Option<string>> {
    if d == "" then Some(None)
    else if !StartsWith(d, DefaultText) then None
    else
      var x := d[|DefaultText|..];
      if x == CurrentTimestamp || x == "0" then Some(Some(x))
      else if |x| >= 2 && x[0] == '\'' && x[|x| - 1] == '\'' then Some(Some(x[1..|x| - 1]))
      else None
  }

  /** Reads the clauses after the type: an AUTO_INCREMENT suffix, a NOT NULL
      prefix, and the DEFAULT clause between them. */
  function ParseTail(t: string): Option<Traits> {
    var auto := EndsWith(t, AutoText);
    var t1 := if auto then t[..|t| - |AutoText|] else t;
    var nn := StartsWith(t1, NotNullText);
    var t2 := if nn then t1[|NotNullText|..] else t1;
    match ParseDefault(t2)
    case None => None
    case Some(d) => Some(Traits(nn, d, auto))
  }

  /** Every DEFAULT clause reads back as the default it renders. */
  lemma DefaultRoundTrip(v: Variant, d: Option<string>)
    ensures ParseDefault(DefaultClause(v, d)) == Some(d)
    ensures DefaultClause(v, d) == "" || DefaultClause(v, d)[1] == 'D'
    ensures DefaultClause(v, d) == "" || DefaultClause(v, d)[|DefaultClause(v, d)| - 1] in {'\'', 'P', '0'}
  {
    if d.Some? {
      var x := d.value;
      var w := if x == CurrentTimestamp || (v.AllDatabases? && x == "0") then x else Quoted(x);
      var s := DefaultText + w;
      assert s == DefaultClause(v, d);
      assert s[..|DefaultText|] == DefaultText;
      assert s[|DefaultText|..] == w;
      if w == Quoted(x) {
        assert w[0] == '\'';
        assert w != CurrentTimestamp && w != "0";
        assert w[1..|w| - 1] == x;
      }
    }
  }

  /** The column's traits as the given variant renders them. */
  function TraitsOf(v: Variant, c: Column): Traits {
    Traits(c.nullable == "NO", c.default, v.AllDatabases? && HasExtra(c) && c.extra.value == "auto_increment")
  }

  /** A text ending in a quote, a digit, P or L is not an AUTO_INCREMENT suffix. */
  lemma NoAutoSuffix(x: string)
    requires x == "" || x[|x| - 1] in {'\'', 'P', '0', 'L'}
    ensures !EndsWith(x, AutoText)
  {
    if |AutoText| <= |x| {
      assert x[|x| - |AutoText|..][|AutoText| - 1] == x[|x| - 1];
    }
  }

  /** NOT NULL followed by a DEFAULT clause. */
  lemma NotNullThenDefault(n: string, d: string)
    requires n == "" || n == NotNullText
    requires d == "" || (|d| > 1 && d[1] == 'D' && d[|d| - 1] in {'\'', 'P', '0'})
    ensures n + d == "" || (n + d)[|n + d| - 1] in {'\'', 'P', '0', 'L'}
    ensures StartsWith(n + d, NotNullText) <==> n != ""
    ensures n != "" ==> (n + d)[|NotNullText|..] == d
  {
    var x := n + d;
    if d == "" {
      assert x == n;
    } else {
      assert x[|x| - 1] == d[|d| - 1];
    }
    if n == "" {
      assert x == d;
      if |NotNullText| <= |x| {
        assert x[..|NotNullText|][1] == x[1];
      }
    } else {
      assert x[..|NotNullText|] == NotNullText;
    }
  }

  /** The clauses after the type read back as NOT NULL, the default and
      AUTO_INCREMENT — for the portfolio import only when there is no Extra,
      which it appends verbatim. */
  lemma TailRoundTrip(v: Variant, c: Column)
    requires v.AllDatabases? || !HasExtra(c)
    ensures ParseTail(Tail(v, c)) == Some(TraitsOf(v, c))
  {
    var n := NotNullClause(c);
    var d := DefaultClause(v, c.default);
    var e := ExtraClause(v, c);
    var x := n + d;
    DefaultRoundTrip(v, c.default);
    NotNullThenDefault(n, d);
    NoAutoSuffix(x);
    assert Tail(v, c) == x + e;
    assert e == AutoText || e == "";
    assert e == AutoText <==> TraitsOf(v, c).autoIncrement;
    var t1 := if e == AutoText then (x + e)[..|x + e| - |AutoText|] else x + e;
    assert t1 == x;
    assert EndsWith(x + e, AutoText) <==> e == AutoText;
    var t2 := if n != "" then x[|NotNullText|..] else x;
    assert t2 == d;
  }

  /** The definition of one column. */
  function ColumnDef(v: Variant, c: Column): (r: string)
    ensures StartsWith(r, ColumnHead(c))
    ensures r[|ColumnHead(c)|..] == Tail(v, c)
  {
    var r := ColumnHead(c) + Tail(v, c);
    assert r[..|ColumnHead(c)|] == ColumnHead(c);
    r
  }

  /** The two-database import's definition starts with the field and type, and
      the rest reads back as NOT NULL exactly when Null is "NO", the default,
      and AUTO_INCREMENT exactly when Extra is auto_increment. */
  lemma ColumnDefAllDatabases(c: Column)
    ensures StartsWith(ColumnDef(AllDatabases, c), ColumnHead(c))
    ensures ParseTail(ColumnDef(AllDatabases, c)[|ColumnHead(c)|..]) ==
      Some(Traits(c.nullable == "NO", c.default, c.extra == Some("auto_increment")))
  {
    TailRoundTrip(AllDatabases, c);
  }

  /** The portfolio import's definition, for a column without Extra, reads
      back the same way; with an Extra it ends with that Extra after a space. */
  lemma ColumnDefPortfolio(c: Column)
    ensures StartsWith(ColumnDef(PortfolioOnly, c), ColumnHead(c))
    ensures !HasExtra(c) ==>
      ParseTail(ColumnDef(PortfolioOnly, c)[|ColumnHead(c)|..]) == Some(Traits(c.nullable == "NO", c.default, false))
    ensures HasExtra(c) ==> EndsWith(ColumnDef(PortfolioOnly, c), " " + c.extra.value)
  {
    if !HasExtra(c) {
      TailRoundTrip(PortfolioOnly, c);
    } else {
      var p := ColumnHead(c) + (NotNullClause(c) + DefaultClause(PortfolioOnly, c.default));
      var e := " " + c.extra.value;
      Regroup3(ColumnHead(c), NotNullClause(c) + DefaultClause(PortfolioOnly, c.default), e);
      Framed(p, "", e);
      assert p + "" + e == p + e;
    }
  }

  /** The two-database import drops every Extra other than auto_increment. */
  lemma OtherExtraDropped(c: Column)
    requires c.extra != Some("auto_increment")
    ensures ColumnDef(AllDatabases, c) == ColumnDef(AllDatabases, c.(extra := None))
  {
  }

  /** Without a '0' default or an Extra, the two scripts agree. */
  lemma VariantsAgree(c: Column)
    requires c.default != Some("0") && !HasExtra(c)
    ensures ColumnDef(AllDatabases, c) == ColumnDef(PortfolioOnly, c)
  {
  }

  /** A '0' default is where they part: the character after DEFAULT is the
      digit in one and a quote in the other. */
  lemma ZeroDefaultDiffers(c: Column)
    requires c.default == Some("0")
    ensures ColumnDef(AllDatabases, c) != ColumnDef(PortfolioOnly, c)
  {
    var p := ColumnHead(c) + NotNullClause(c) + DefaultText;
    DefaultSplit(AllDatabases, c);
    DefaultSplit(PortfolioOnly, c);
    CharAfter(p, "0", ExtraClause(AllDatabases, c));
    CharAfter(p, "'0'", ExtraClause(PortfolioOnly, c));
  }

  lemma CharAfter(p: string, s: string, t: string)
    requires |s| > 0
    ensures (p + s + t)[|p|] == s[0]
  {
  }

  /** A column's definition splits as the prefix up to DEFAULT, the value, and
      the extra clause. */
  lemma DefaultSplit(v: Variant, c: Column)
    requires c.default.Some?
    ensures ColumnDef(v, c) ==
      ColumnHead(c) + NotNullClause(c) + DefaultText +
      (if c.default.value == CurrentTimestamp || (v.AllDatabases? && c.default.value == "0") then c.default.value else Quoted(c.default.value)) +
      ExtraClause(v, c)
  {
    var d := c.default.value;
    var w := if d == CurrentTimestamp || (v.AllDatabases? && d == "0") then d else Quoted(d);
    Regroup5(ColumnHead(c), NotNullClause(c), DefaultText, w, ExtraClause(v, c));
  }

  lemma Regroup3(a: string, b: string, e: string)
    ensures a + (b + e) == a + b + e
  {
  }

  lemma Regroup5(a: string, b: string, c: string, d: string, e: string)
    ensures a + (b + (c + d) + e) == a + b + c + d + e
  {
  }

  // ---------------------------------------------------------------------------
  // CREATE TABLE

  /** The field of the first column whose Key is PRI. */
  function FirstPrimaryKey(cols: seq<Column>): (r: Option<string>)
    ensures r.None? <==> forall i :: 0 <= i < |cols| ==> cols[i].key != "PRI"
    ensures r.Some? ==> exists i :: 0 <= i < |cols| && cols[i].key == "PRI" && cols[i].field == r.value &&
                                    (forall j :: 0 <= j < i ==> cols[j].key != "PRI")
  {
    if |cols| == 0 then None
    else if cols[0].key == "PRI" then Some(cols[0].field)
    else
      var r := FirstPrimaryKey(cols[1..]);
      assert forall i :: 1 <= i < |cols| ==> cols[i] == cols[1..][i - 1];
      assert r.Some? ==> exists i :: 0 <= i < |cols| && cols[i].key == "PRI" && cols[i].field == r.value &&
                                       (forall j :: 0 <= j < i ==> cols[j].key != "PRI") by {
        if r.Some? {
          var i :| 0 <= i < |cols[1..]| && cols[1..][i].key == "PRI" && cols[1..][i].field == r.value &&
            forall j :: 0 <= j < i ==> cols[1..][j].key != "PRI";
          assert forall j :: 0 <= j < i + 1 ==> cols[j].key != "PRI" by {
            forall j | 0 <= j < i + 1 ensures cols[j].key != "PRI" {
              if j > 0 {
                assert cols[j] == cols[1..][j - 1];
              }
            }
          }
          assert cols[i + 1] == cols[1..][i];
        }
      }
      r
  }

  function PrimaryKeyClause(pk: Option<string>): string {
    match pk
    case None => ""
    case Some(f) => ",\n  PRIMARY KEY (`" + f + "`)"
  }

  /** The texts joined with `sep` between neighbours. */
  function Join(xs: seq<string>, sep: string): string {
    if |xs| == 0 then ""
    else if |xs| == 1 then xs[0]
    else xs[0] + sep + Join(xs[1..], sep)
  }

  /** Joining two non-empty lists joins each and puts one separator between
      them: the texts keep their order. */
  lemma {:induction false} JoinConcat(xs: seq<string>, ys: seq<string>, sep: string)
    requires |xs| > 0 && |ys| > 0
    ensures Join(xs + ys, sep) == Join(xs, sep) + sep + Join(ys, sep)
  {
    assert (xs + ys)[0] == xs[0];
    assert (xs + ys)[1..] == xs[1..] + ys;
    if |xs| > 1 {
      JoinConcat(xs[1..], ys, sep);
      Regroup5(xs[0], sep, Join(xs[1..], sep), sep, Join(ys, sep));
    }
  }

  /** Every joined text occurs in the joined whole. */
  lemma {:induction false} JoinContains(xs: seq<string>, sep: string, i: nat)
    requires i < |xs|
    ensures Contains(Join(xs, sep), xs[i])
  {
    var j := Join(xs, sep);
    if i == 0 {
      assert OccursAt(j, xs[0], 0);
    } else {
      JoinContains(xs[1..], sep, i - 1);
      var rest := Join(xs[1..], sep);
      var k :| 0 <= k <= |rest| && OccursAt(rest, xs[1..][i - 1], k);
      var off := |xs[0] + sep|;
      assert j == (xs[0] + sep) + rest;
      assert j[off + k..off + k + |xs[i]|] == rest[k..k + |xs[i]|];
      assert OccursAt(j, xs[i], off + k);
    }
  }

  function ColumnDefs(v: Variant, cols: seq<Column>): (r: seq<string>)
    ensures |r| == |cols|
    ensures forall i :: 0 <= i < |cols| ==> r[i] == ColumnDef(v, cols[i])
  {
    if |cols| == 0 then [] else [ColumnDef(v, cols[0])] + ColumnDefs(v, cols[1..])
  }

  function CreateHeader(name: string): string {
    "CREATE TABLE IF NOT EXISTS `" + name + "` (\n"
  }

  /** A text inside the middle part is inside the whole. */
  lemma ContainsInMiddle(h: string, body: string, t: string, w: string)
    requires Contains(body, w)
    ensures Contains(h + body + t, w)
  {
    var k :| 0 <= k <= |body| && OccursAt(body, w, k);
    var r := h + body + t;
    assert r[|h| + k..|h| + k + |w|] == body[k..k + |w|];
    assert OccursAt(r, w, |h| + k);
  }

  lemma Framed(h: string, body: string, t: string)
    ensures StartsWith(h + body + t, h)
    ensures EndsWith(h + body + t, t)
    ensures (h + body + t)[|h|..|h + body + t| - |t|] == body
  {
    var r := h + body + t;
    assert r[..|h|] == h;
    assert r[|r| - |t|..] == t;
    assert r[|h|..|r| - |t|] == body;
  }

  /** `CREATE TABLE IF NOT EXISTS`: the header naming the table, the column
      definitions in schema order joined by `,\n`, and a PRIMARY KEY clause for
      the first PRI column, if any. */
  function CreateTable(v: Variant, name: string, cols: seq<Column>): (r: string)
    ensures StartsWith(r, CreateHeader(name))
    ensures EndsWith(r, PrimaryKeyClause(FirstPrimaryKey(cols)) + "\n)")
    ensures |CreateHeader(name)| + |PrimaryKeyClause(FirstPrimaryKey(cols)) + "\n)"| <= |r|
    ensures r[|CreateHeader(name)|..|r| - |PrimaryKeyClause(FirstPrimaryKey(cols)) + "\n)"|]
      == Join(ColumnDefs(v, cols), ",\n")
    ensures forall i :: 0 <= i < |cols| ==> Contains(r, ColumnDef(v, cols[i]))
  {
    var h := CreateHeader(name);
    var defs := ColumnDefs(v, cols);
    var body := Join(defs, ",\n");
    var t := PrimaryKeyClause(FirstPrimaryKey(cols)) + "\n)";
    Framed(h, body, t);
    assert forall i :: 0 <= i < |cols| ==> Contains(h + body + t, defs[i]) by {
      forall i | 0 <= i < |cols| ensures Contains(h + body + t, defs[i]) {
        JoinContains(defs, ",\n", i);
        ContainsInMiddle(h, body, t, defs[i]);
      }
    }
    h + body + t
  }

  /** The statement ends with a PRIMARY KEY clause naming the first PRI
      column. */
  lemma PrimaryKeyEmitted(v: Variant, name: string, cols: seq<Column>, i: nat)
    requires i < |cols| && cols[i].key == "PRI"
    requires forall j :: 0 <= j < i ==> cols[j].key != "PRI"
    ensures EndsWith(CreateTable(v, name, cols), ",\n  PRIMARY KEY (`" + cols[i].field + "`)\n)")
  {
    FirstPrimaryKeyIs(cols, i);
    PrimaryKeyTail(cols[i].field);
  }

  /** The PRIMARY KEY clause and the closing parenthesis, as one text. */
  lemma PrimaryKeyTail(f: string)
    ensures PrimaryKeyClause(Some(f)) + "\n)" == ",\n  PRIMARY KEY (`" + f + "`)\n)"
  {
    assert "`)" + "\n)" == "`)\n)";
  }

  lemma FirstPrimaryKeyIs(cols: seq<Column>, i: nat)
    requires i < |cols| && cols[i].key == "PRI"
    requires forall j :: 0 <= j < i ==> cols[j].key != "PRI"
    ensures FirstPrimaryKey(cols) == Some(cols[i].field)
  {
    var p := FirstPrimaryKey(cols);
    var k :| 0 <= k < |cols| && cols[k].key == "PRI" && cols[k].field == p.value &&
      (forall j :: 0 <= j < k ==> cols[j].key != "PRI");
    assert k == i;
  }

  /** Without a PRI column the statement closes right after the last column
      definition: no PRIMARY KEY clause is emitted. */
  lemma PrimaryKeyAbsent(v: Variant, name: string, cols: seq<Column>)
    requires forall j :: 0 <= j < |cols| ==> cols[j].key != "PRI"
    ensures EndsWith(CreateTable(v, name, cols), Join(ColumnDefs(v, cols), ",\n") + "\n)")
  {
    var t := PrimaryKeyClause(FirstPrimaryKey(cols)) + "\n)";
    assert FirstPrimaryKey(cols) == None;
    assert t == "\n)";
    BodyBeforeTail(CreateTable(v, name, cols), |CreateHeader(name)|, Join(ColumnDefs(v, cols), ",\n"), t);
  }

  /** A body that runs up to a closing text ends the whole together with it. */
  lemma BodyBeforeTail(r: string, start: nat, body: string, t: string)
    requires start + |t| <= |r| && EndsWith(r, t)
    requires r[start..|r| - |t|] == body
    ensures EndsWith(r, body + t)
  {
    assert r[|r| - |body| - |t|..] == r[start..|r| - |t|] + r[|r| - |t|..];
  }

  // ---------------------------------------------------------------------------
  // INSERT IGNORE

  function Backticked(cols: seq<string>): (r: seq<string>)
    ensures |r| == |cols|
    ensures forall i :: 0 <= i < |cols| ==> r[i] == "`" + cols[i] + "`"
  {
    if |cols| == 0 then [] else ["`" + cols[0] + "`"] + Backticked(cols[1..])
  }

  /** `(?, ?, …)` without the parentheses: one placeholder per column. */
  function Placeholders(n: nat): (r: seq<Piece>)
    ensures Marks(r) == n
    ensures PlainText(r)
  {
    if n == 0 then []
    else if n == 1 then [Mark]
    else
      var rest := Placeholders(n - 1);
      MarksConcat([Mark, Text(", ")], rest);
      PlainTextConcat([Mark, Text(", ")], rest);
      [Mark, Text(", ")] + rest
  }

  const InsertText := "INSERT IGNORE INTO `"

  /** `INSERT IGNORE INTO \`t\` (\`c1\`, …) VALUES (?, …)`: as many placeholders
      as columns. */
  function InsertSql(table: string, cols: seq<string>): (r: seq<Piece>)
    ensures Marks(r) == |cols|
  {
    var head := [Text(InsertText + table + "` (" + Join(Backticked(cols), ", ") + ") VALUES (")];
    var r := head + Placeholders(|cols|) + [Text(")")];
    MarksConcat(head, Placeholders(|cols|));
    MarksConcat(head + Placeholders(|cols|), [Text(")")]);
    r
  }

  /** No `?` in any of the texts. */
  lemma JoinUnmarked(xs: seq<string>, sep: string)
    requires forall i :: 0 <= i < |xs| ==> '?' !in xs[i]
    requires '?' !in sep
    ensures '?' !in Join(xs, sep)
    decreases |xs|
  {
    if |xs| > 1 {
      JoinUnmarked(xs[1..], sep);
    }
  }

  /** When neither the table name nor any column name contains a `?`, the
      statement text holds exactly one `?` per column. */
  lemma InsertRendered(table: string, cols: seq<string>)
    requires '?' !in table
    requires forall i :: 0 <= i < |cols| ==> '?' !in cols[i]
    ensures CountChar('?', Render(InsertSql(table, cols))) == |cols|
  {
    var b := Backticked(cols);
    assert forall i :: 0 <= i < |b| ==> '?' !in b[i];
    JoinUnmarked(b, ", ");
    var text := InsertText + table + "` (" + Join(b, ", ") + ") VALUES (";
    assert '?' !in text;
    assert PlainText([Text(text)]);
    PlainTextConcat([Text(text)], Placeholders(|cols|));
    PlainTextConcat([Text(text)] + Placeholders(|cols|), [Text(")")]);
    RenderMarks(InsertSql(table, cols));
  }

  // ---------------------------------------------------------------------------
  // Sample rows

  /** The sample rows recorded for a table; either part may be missing. */
  datatype SampleData = SampleData(columns: Option<seq<string>>, rows: Option<seq<seq<Param>>>)

  /** A table as the schema overview records it. */
  datatype Table = Table(name: string, schema: seq<Column>, sample: Option<SampleData>)

  /** One prepared execution: statement and bound row. */
  datatype Execution = Execution(sql: seq<Piece>, params: seq<Param>)

  /** There is something to insert: sample data with a non-empty row list and a
      column list. */
  predicate HasRows(t: Table) {
    t.sample.Some? && t.sample.value.rows.Some? && |t.sample.value.rows.value| > 0 &&
    t.sample.value.columns.Some?
  }

  /** The executions of `insertData`: none without sample data, rows or
      columns; otherwise one per row, in order, all with the same statement. */
  function InsertPlan(t: Table): (r: seq<Execution>)
    ensures |r| == 0 <==> !HasRows(t)
    ensures HasRows(t) ==> |r| == |t.sample.value.rows.value|
    ensures HasRows(t) ==> forall i :: 0 <= i < |r| ==>
      r[i].params == t.sample.value.rows.value[i] &&
      r[i].sql == InsertSql(t.name, t.sample.value.columns.value) &&
      Marks(r[i].sql) == |t.sample.value.columns.value|
  {
    if !HasRows(t) then []
    else Executions(InsertSql(t.name, t.sample.value.columns.value), t.sample.value.rows.value)
  }

  function Executions(sql: seq<Piece>, rows: seq<seq<Param>>): (r: seq<Execution>)
    ensures |r| == |rows|
    ensures forall i :: 0 <= i < |rows| ==> r[i] == Execution(sql, rows[i])
  {
    if |rows| == 0 then [] else [Execution(sql, rows[0])] + Executions(sql, rows[1..])
  }

  /** What happened to one execution. */
  datatype Outcome = Outcome(execution: Execution, succeeded: bool)

  /** Runs the executions one after another; `accepts` stands for the server.
      A failure is caught and reported, and the next row is still tried. */
  function RunInserts(plan: seq<Execution>, accepts: Execution -> bool): (r: seq<Outcome>)
    ensures |r| == |plan|
    ensures forall i :: 0 <= i < |plan| ==> r[i].execution == plan[i] && (r[i].succeeded <==> accepts(plan[i]))
  {
    if |plan| == 0 then [] else [Outcome(plan[0], accepts(plan[0]))] + RunInserts(plan[1..], accepts)
  }

  /** The executions that succeeded, in order. */
  function Accepted(outcomes: seq<Outcome>): seq<Execution> {
    if |outcomes| == 0 then []
    else (if outcomes[0].succeeded then [outcomes[0].execution] else []) + Accepted(outcomes[1..])
  }

  /** A failing row never stops the rows after it: the rows inserted are
      exactly those the server accepts, in plan order. */
  lemma {:induction false} AcceptedRows(plan: seq<Execution>, accepts: Execution -> bool)
    ensures Accepted(RunInserts(plan, accepts)) == Filter(accepts, plan)
  {
    if |plan| > 0 {
      AcceptedRows(plan[1..], accepts);
      assert RunInserts(plan, accepts)[1..] == RunInserts(plan[1..], accepts);
    }
  }

  /** The statements `createTable` and `insertData` issue for one table. */
  datatype TableWork = TableWork(create: string, inserts: seq<Execution>)

  function ProcessTable(v: Variant, t: Table): (r: TableWork)
    ensures r.create == CreateTable(v, t.name, t.schema)
    ensures r.inserts == InsertPlan(t)
    ensures StartsWith(r.create, CreateHeader(t.name))
    ensures |r.inserts| == 0 <==> !HasRows(t)
  {
    TableWork(CreateTable(v, t.name, t.schema), InsertPlan(t))
  }
}
