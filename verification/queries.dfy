/** The statements the company routes send: SQL text with `?` placeholders,
    the values bound to them, and positional binding. */
module Queries {
  import opened Common
  import opened Statements
  import opened Patterns

  /** A filter appended to `WHERE 1=1`. */
  datatype Clause = StatusClause | CountryClause

  /** A composed statement: the filters appended, in order, and the values bound
      to its placeholders, in order. The statement always ends with
      `ORDER BY … LIMIT ? OFFSET ?`. */
  datatype Query = Query(clauses: seq<Clause>, params: seq<Param>)

  /** The clauses of the fixed SELECT … FROM … LEFT JOIN … WHERE 1=1 prefix
      (whitespace collapsed); the lookup statement shares some of them. */
  const SelectId: string := "SELECT nc.new_company_id, "
  const NameTicker: string := "nc.company_name, nc.ticker, "
  const IsinCountry: string := "nc.isin, nc.country_name, "
  const YieldInspiration: string := "nc.yield, nc.inspiration, "
  const CommentsBorsdata: string := "nc.comments, nc.borsdata_available, "
  const StatusColumn: string := "ncs.status as company_status, "
  const CountryColumn: string := "ci.country_name as country_full_name"
  const FromCompanies: string := "FROM new_companies nc "
  const JoinStatus: string := "LEFT JOIN new_companies_status ncs "
  const OnStatus: string := "ON nc.new_companies_status_id = ncs.id "
  const JoinCountry: string := "LEFT JOIN country_info ci "
  const OnCountry: string := "ON nc.country_id = ci.id "
  const WhereTrue: string := "WHERE 1=1"

  const SelectColumns: string :=
    SelectId + NameTicker + IsinCountry + YieldInspiration + CommentsBorsdata + StatusColumn + CountryColumn + " "
  const SelectFrom: string :=
    FromCompanies + JoinStatus + OnStatus + JoinCountry + OnCountry + WhereTrue
  const SelectText: string := SelectColumns + SelectFrom

  const SelectSql: seq<Piece> := [Text(SelectText)]
  const StatusSql: seq<Piece> := [Text(" AND nc.new_companies_status_id = "), Mark]
  const CountrySql: seq<Piece> :=
    [Text(" AND (nc.country_name LIKE "), Mark, Text(" OR ci.country_name LIKE "), Mark, Text(")")]
  const OrderSql: seq<Piece> := [Text(" ORDER BY nc.new_company_id DESC LIMIT "), Mark, Text(" OFFSET "), Mark]

  function ClauseSql(c: Clause): seq<Piece> {
    match c
    case StatusClause => StatusSql
    case CountryClause => CountrySql
  }

  /** Number of values a clause binds. */
  function Arity(c: Clause): nat {
    match c
    case StatusClause => 1
    case CountryClause => 2
  }

  function ClausesSql(cs: seq<Clause>): seq<Piece> {
    if |cs| == 0 then [] else ClauseSql(cs[0]) + ClausesSql(cs[1..])
  }

  function TotalArity(cs: seq<Clause>): nat {
    if |cs| == 0 then 0 else Arity(cs[0]) + TotalArity(cs[1..])
  }

  /** The SQL text of a composed statement. */
  function Sql(q: Query): seq<Piece> {
    SelectSql + ClausesSql(q.clauses) + OrderSql
  }

  /** None of the fixed SQL text contains a `?` of its own. */
  lemma FixedTextPlain()
    ensures PlainText(SelectSql) && PlainText(StatusSql) && PlainText(CountrySql) && PlainText(OrderSql)
  {
    SelectTextUnmarked();
    assert PlainText(SelectSql);
    StatusTextUnmarked();
    TextThenMark(" AND nc.new_companies_status_id = ");
    CountryTextUnmarked();
    TextThenMark(" AND (nc.country_name LIKE ");
    TextThenMark(" OR ci.country_name LIKE ");
    PlainTextConcat([Text(" AND (nc.country_name LIKE "), Mark], [Text(" OR ci.country_name LIKE "), Mark]);
    PlainTextConcat([Text(" AND (nc.country_name LIKE "), Mark] + [Text(" OR ci.country_name LIKE "), Mark], [Text(")")]);
    assert CountrySql == [Text(" AND (nc.country_name LIKE "), Mark] + [Text(" OR ci.country_name LIKE "), Mark] + [Text(")")];
    OrderTextUnmarked();
    TextThenMark(" ORDER BY nc.new_company_id DESC LIMIT ");
    TextThenMark(" OFFSET ");
    PlainTextConcat([Text(" ORDER BY nc.new_company_id DESC LIMIT "), Mark], [Text(" OFFSET "), Mark]);
    assert OrderSql == [Text(" ORDER BY nc.new_company_id DESC LIMIT "), Mark] + [Text(" OFFSET "), Mark];
  }

  lemma SelectTextUnmarked()
    ensures '?' !in SelectText
  {
    SelectIdUnmarked(); NameTickerUnmarked(); IsinCountryUnmarked(); YieldInspirationUnmarked();
    CommentsBorsdataUnmarked(); StatusColumnUnmarked(); CountryColumnUnmarked();
    FromCompaniesUnmarked(); JoinStatusUnmarked(); OnStatusUnmarked(); JoinCountryUnmarked();
    OnCountryUnmarked(); WhereTrueUnmarked();
  }

  // One fact per clause: a long literal is checked character by character,
  // so each clause is checked on its own.
  lemma SelectIdUnmarked() ensures '?' !in SelectId {}
  lemma NameTickerUnmarked() ensures '?' !in NameTicker {}
  lemma IsinCountryUnmarked() ensures '?' !in IsinCountry {}
  lemma YieldInspirationUnmarked() ensures '?' !in YieldInspiration {}
  lemma CommentsBorsdataUnmarked() ensures '?' !in CommentsBorsdata {}
  lemma StatusColumnUnmarked() ensures '?' !in StatusColumn {}
  lemma CountryColumnUnmarked() ensures '?' !in CountryColumn {}
  lemma FromCompaniesUnmarked() ensures '?' !in FromCompanies {}
  lemma JoinStatusUnmarked() ensures '?' !in JoinStatus {}
  lemma OnStatusUnmarked() ensures '?' !in OnStatus {}
  lemma JoinCountryUnmarked() ensures '?' !in JoinCountry {}
  lemma OnCountryUnmarked() ensures '?' !in OnCountry {}
  lemma WhereTrueUnmarked() ensures '?' !in WhereTrue {}

  lemma StatusTextUnmarked()
    ensures '?' !in " AND nc.new_companies_status_id = "
  {
  }

  lemma CountryTextUnmarked()
    ensures '?' !in " AND (nc.country_name LIKE " && '?' !in " OR ci.country_name LIKE " && '?' !in ")"
  {
  }

  lemma OrderTextUnmarked()
    ensures '?' !in " ORDER BY nc.new_company_id DESC LIMIT " && '?' !in " OFFSET "
  {
  }

  /** A text followed by one placeholder. */
  lemma TextThenMark(t: string)
    requires '?' !in t
    ensures PlainText([Text(t), Mark]) && Marks([Text(t), Mark]) == 1
  {
    var ps := [Text(t), Mark];
    assert ps[1..] == [Mark] && ps[1..][1..] == [];
    assert Marks(ps[1..]) == 1;
  }

  /** Each clause text carries exactly as many placeholders as it binds values;
      the ordering carries LIMIT's and OFFSET's. */
  lemma FixedTextMarks()
    ensures Marks(SelectSql) == 0 && Marks(OrderSql) == 2
    ensures forall c :: Marks(ClauseSql(c)) == Arity(c)
  {
  }

  /** Every clause contributes exactly its arity of placeholders. */
  lemma {:induction false} ClausesPlaceholders(cs: seq<Clause>)
    ensures PlainText(ClausesSql(cs)) && Marks(ClausesSql(cs)) == TotalArity(cs)
  {
    if |cs| > 0 {
      FixedTextPlain();
      FixedTextMarks();
      ClausesPlaceholders(cs[1..]);
      MarksConcat(ClauseSql(cs[0]), ClausesSql(cs[1..]));
      PlainTextConcat(ClauseSql(cs[0]), ClausesSql(cs[1..]));
    }
  }

  /** The placeholders of a statement: its clauses' plus LIMIT and OFFSET. */
  lemma SqlPlaceholders(q: Query)
    ensures PlainText(Sql(q)) && Marks(Sql(q)) == TotalArity(q.clauses) + 2
  {
    FixedTextPlain();
    FixedTextMarks();
    ClausesPlaceholders(q.clauses);
    MarksConcat(SelectSql, ClausesSql(q.clauses));
    MarksConcat(SelectSql + ClausesSql(q.clauses), OrderSql);
    PlainTextConcat(SelectSql, ClausesSql(q.clauses));
    PlainTextConcat(SelectSql + ClausesSql(q.clauses), OrderSql);
  }

  /** A filter with its placeholders replaced by the values bound to them. */
  datatype Condition = StatusEquals(id: int) | CountryLike(labelPattern: string, fullNamePattern: string)

  /** A fully bound statement. */
  datatype Bound = Bound(conditions: seq<Condition>, limit: int, offset: int)

  /** Positional binding: each clause takes the next `Arity` values, in order;
      the values left over are returned. None when the values run out or have
      the wrong kind. */
  function BindClauses(cs: seq<Clause>, ps: seq<Param>): Option<(seq<Condition>, seq<Param>)> {
    if |cs| == 0 then Some(([], ps))
    else
      match cs[0]
      case StatusClause =>
        if |ps| >= 1 && ps[0].IntParam? then
          match BindClauses(cs[1..], ps[1..])
          case None => None
          case Some(rest) => Some(([StatusEquals(ps[0].n)] + rest.0, rest.1))
        else None
      case CountryClause =>
        if |ps| >= 2 && ps[0].TextParam? && ps[1].TextParam? then
          match BindClauses(cs[1..], ps[2..])
          case None => None
          case Some(rest) => Some(([CountryLike(ps[0].t, ps[1].t)] + rest.0, rest.1))
        else None
  }

  /** Binds a statement: the clauses first, then exactly LIMIT and OFFSET. */
  function Bind(q: Query): Option<Bound> {
    match BindClauses(q.clauses, q.params)
    case None => None
    case Some(b) =>
      if |b.1| == 2 && b.1[0].IntParam? && b.1[1].IntParam? then Some(Bound(b.0, b.1[0].n, b.1[1].n))
      else None
  }

  /** `if (country)`: a country text takes part only when it is present and
      non-empty (JavaScript truthiness of a string). */
  predicate Given(country: Option<string>) {
    country.Some? && country.value != ""
  }

  /** The filters a request asks for, with their values. */
  function Conditions(status: Option<int>, country: Option<string>): seq<Condition> {
    (if status.Some? then [StatusEquals(status.value)] else [])
    + (if Given(country) then [CountryLike(Wrap(country.value), Wrap(country.value))] else [])
  }

  /** The statement of the `GET /` listing: start from `WHERE 1=1`, append the
      status filter when a status is given, then the country filter when a
      non-empty country text is given, then the ordering and paging, pushing
      each clause's values as it is appended.
      The placeholders of the text and the bound values agree in number, and
      binding them positionally hands every clause exactly its own values. */
  function Compose(status: Option<int>, country: Option<string>, limit: int, offset: int): (q: Query)
    ensures PlainText(Sql(q)) && Marks(Sql(q)) == |q.params|
    ensures Bind(q) == Some(Bound(Conditions(status, country), limit, offset))
    ensures |q.params| == 2 + (if status.Some? then 1 else 0) + (if Given(country) then 2 else 0)
    ensures q.params[|q.params| - 2..] == [IntParam(limit), IntParam(offset)]
  {
    var sc := if status.Some? then [StatusClause] else [];
    var sp := if status.Some? then [IntParam(status.value)] else [];
    var cc := if Given(country) then [CountryClause] else [];
    var cp := if Given(country) then [TextParam(Wrap(country.value)), TextParam(Wrap(country.value))] else [];
    var q := Query(sc + cc, sp + cp + [IntParam(limit), IntParam(offset)]);
    SqlPlaceholders(q);
    assert TotalArity(q.clauses) == |sp| + |cp| by {
      if status.Some? {
        assert (sc + cc)[1..] == cc;
      } else {
        assert sc + cc == cc;
      }
    }
    BindComposed(status, country, limit, offset);
    q
  }

  /** The statement sent to the driver has exactly one `?` per bound value. */
  lemma ComposeRendered(status: Option<int>, country: Option<string>, limit: int, offset: int)
    ensures var q := Compose(status, country, limit, offset);
      CountChar('?', Render(Sql(q))) == |q.params|
  {
    RenderMarks(Sql(Compose(status, country, limit, offset)));
  }

  /** Binding the country clause alone consumes its two values and leaves the rest. */
  lemma BindCountry(pattern: string, rest: seq<Param>)
    ensures BindClauses([CountryClause], [TextParam(pattern), TextParam(pattern)] + rest)
      == Some(([CountryLike(pattern, pattern)], rest))
  {
    var ps := [TextParam(pattern), TextParam(pattern)] + rest;
    assert ps[2..] == rest;
    assert [CountryClause][1..] == [];
    assert [CountryLike(pattern, pattern)] + [] == [CountryLike(pattern, pattern)];
  }

  /** Binding the status clause in front of others consumes its one value first. */
  lemma BindStatus(id: int, cs: seq<Clause>, rest: seq<Param>, conds: seq<Condition>, left: seq<Param>)
    requires BindClauses(cs, rest) == Some((conds, left))
    ensures BindClauses([StatusClause] + cs, [IntParam(id)] + rest) == Some(([StatusEquals(id)] + conds, left))
  {
    assert ([StatusClause] + cs)[1..] == cs;
    assert ([IntParam(id)] + rest)[1..] == rest;
  }

  lemma BindComposed(status: Option<int>, country: Option<string>, limit: int, offset: int)
    ensures
      var sc := if status.Some? then [StatusClause] else [];
      var sp := if status.Some? then [IntParam(status.value)] else [];
      var cc := if Given(country) then [CountryClause] else [];
      var cp := if Given(country) then [TextParam(Wrap(country.value)), TextParam(Wrap(country.value))] else [];
      Bind(Query(sc + cc, sp + cp + [IntParam(limit), IntParam(offset)]))
        == Some(Bound(Conditions(status, country), limit, offset))
  {
    var tail := [IntParam(limit), IntParam(offset)];
    var cc: seq<Clause> := if Given(country) then [CountryClause] else [];
    var cp: seq<Param> := if Given(country) then [TextParam(Wrap(country.value)), TextParam(Wrap(country.value))] else [];
    var cconds: seq<Condition> := if Given(country) then [CountryLike(Wrap(country.value), Wrap(country.value))] else [];
    if Given(country) {
      BindCountry(Wrap(country.value), tail);
    } else {
      assert cp + tail == tail;
    }
    assert BindClauses(cc, cp + tail) == Some((cconds, tail));
    if status.Some? {
      BindStatus(status.value, cc, cp + tail, cconds, tail);
      assert [IntParam(status.value)] + cp + tail == [IntParam(status.value)] + (cp + tail);
      assert Conditions(status, country) == [StatusEquals(status.value)] + cconds;
    } else {
      assert [] + cc == cc;
      assert [] + cp + tail == cp + tail;
      assert Conditions(status, country) == cconds;
    }
  }

  /** The statement text depends only on which filters are present, never on
      their values: a status or a country value never reaches the SQL string. */
  lemma ComposeTextIndependentOfValues(s1: Option<int>, c1: Option<string>, l1: int, o1: int,
                                       s2: Option<int>, c2: Option<string>, l2: int, o2: int)
    requires s1.Some? == s2.Some? && Given(c1) == Given(c2)
    ensures Sql(Compose(s1, c1, l1, o1)) == Sql(Compose(s2, c2, l2, o2))
  {
  }

  /** The lookup statement up to its one placeholder. */
  const SelectAll: string := "SELECT nc.*, "
  const BrokerStrategyColumns: string := "b.broker_name, psg.strategy_group_name "
  const JoinBrokers: string := "LEFT JOIN brokers b "
  const OnBrokers: string := "ON nc.broker_id = b.broker_id "
  const JoinStrategy: string := "LEFT JOIN portfolio_strategy_groups psg "
  const OnStrategy: string := "ON nc.strategy_group_id = "
  const StrategyId: string := "psg.strategy_group_id "
  const WhereId: string := "WHERE nc.new_company_id = "

  const ByIdColumns: string :=
    SelectAll + StatusColumn + CountryColumn + ", " + BrokerStrategyColumns + FromCompanies
  const ByIdJoins: string :=
    JoinStatus + OnStatus + JoinCountry + OnCountry + JoinBrokers + OnBrokers
  const ByIdTail: string :=
    JoinStrategy + OnStrategy + StrategyId + WhereId
  const ByIdPrefix: string := ByIdColumns + ByIdJoins + ByIdTail

  const ByIdSql: seq<Piece> := [Text(ByIdPrefix), Mark]

  /** The lookup statement has one placeholder, bound to the requested id alone. */
  function ByIdParams(id: int): (ps: seq<Param>)
    ensures PlainText(ByIdSql) && |ps| == Marks(ByIdSql) == 1
    ensures ps[0] == IntParam(id)
  {
    ByIdPrefixUnmarked();
    TextThenMark(ByIdPrefix);
    [IntParam(id)]
  }

  lemma ByIdPrefixUnmarked()
    ensures '?' !in ByIdPrefix
  {
    SelectAllUnmarked(); StatusColumnUnmarked(); CountryColumnUnmarked(); BrokerStrategyColumnsUnmarked();
    FromCompaniesUnmarked(); JoinStatusUnmarked(); OnStatusUnmarked(); JoinCountryUnmarked();
    OnCountryUnmarked(); JoinBrokersUnmarked(); OnBrokersUnmarked(); JoinStrategyUnmarked();
    OnStrategyUnmarked(); StrategyIdUnmarked(); WhereIdUnmarked();
  }

  lemma SelectAllUnmarked() ensures '?' !in SelectAll {}
  lemma BrokerStrategyColumnsUnmarked() ensures '?' !in BrokerStrategyColumns {}
  lemma JoinBrokersUnmarked() ensures '?' !in JoinBrokers {}
  lemma OnBrokersUnmarked() ensures '?' !in OnBrokers {}
  lemma JoinStrategyUnmarked() ensures '?' !in JoinStrategy {}
  lemma OnStrategyUnmarked() ensures '?' !in OnStrategy {}
  lemma StrategyIdUnmarked() ensures '?' !in StrategyId {}
  lemma WhereIdUnmarked() ensures '?' !in WhereId {}
}
