# psw_mobile5.0 API core in Dafny

This project models the Node/Express back end of psw_mobile5.0. That back end serves the mobile app's list of "new companies" (candidate stocks) and its dashboard, and it has scripts that rebuild the MySQL databases from a JSON overview of their schema. The model covers:

- **`GET /companies`** (module `Companies`, with `Queries`, `Patterns`, `Statements`). It models:
  - the four query-string validators and their 400 response;
  - how the optional `status` and `country` filters turn into `AND …` clauses and positional `?` parameters;
  - the defaults `limit = 20` and `offset = 0`;
  - evaluation over an in-memory store: LEFT JOINs to statuses and country info, the WHERE clause, `ORDER BY new_company_id DESC`, LIMIT and OFFSET;
  - the response shape.
- **`GET /companies/:id`** and **`GET /companies/stats/summary`**: the lookup by id with its 404, and the summary counts with the per-country GROUP BY.
- **`GET /dashboard/overview`** and **`GET /dashboard/charts`** (module `Dashboard`). It models:
  - the five most recent companies, with the DATE of their creation time;
  - the summary counts and the weekly additions;
  - the top five countries;
  - the status chart, with its `'Unknown'` label for NULL statuses;
  - the country chart;
  - the yield buckets with their CASE ordering.
- **The cross-store queries** of `test-cross-db.js` (module `CrossStore`). It models:
  - the LEFT JOIN of portfolio companies to the foundation store's brokers;
  - the pending listing (NULL status, LIMIT 5) and the unfiltered listing (LIMIT 10);
  - the DISTINCT, ordered broker and country filter options.
- **The import scripts** (modules `Ddl` and `Import`). They cover:
  - the CREATE TABLE serialiser in both of its variants: NOT NULL, DEFAULT quoting, Extra, and the first-PRI PRIMARY KEY clause;
  - the INSERT IGNORE statement with one `?` per column, and the row loop that carries on past failing rows;
  - which databases and tables each driver processes, and in which order.

Shared vocabulary:

| module | contents |
|---|---|
| `Common` | `Option` for SQL NULL, `Filter`, `Take` / `Skip` for LIMIT / OFFSET, substring search, `Dedup` for DISTINCT, distinctness lemmas |
| `Sorting` | a stable insertion sort over any total preorder, used for ORDER BY, and character-code text order |
| `Grouping` | `GROUP BY … COUNT(*)` as a fold that produces groups in first-appearance order |
| `Statements` | SQL text as a sequence of fixed-text pieces and `?` placeholders |
| `Schema` | the rows of the tables and the first-match LEFT JOIN lookup |

Modelling conventions:

- Statements are values, not executed text. A query is its text pieces plus its parameter list. Evaluation binds the parameters by position (`Queries.Bind`) and runs the resulting conditions over the store (`Companies.Eval`).
- SQL NULL is `Option.None`.
- Two `brokers` tables exist. The single-database import creates one in psw_portfolio, and the lookup by id joins that one: it is unqualified and runs on the default portfolio connection. The cross-store queries name `psw_foundation.brokers`. `Schema.Store` holds both tables: `brokers` for the portfolio one and `foundationBrokers` for the foundation one.
- Yields are whole hundredths of a percent, so `yield <= 2` is `<= 200`.
- `created` is whole seconds since the epoch. `DATE(created)` is the day number (floor of `created / 86400`), and "now" is a parameter.
- The database server that runs the import scripts' statements is a parameter (`accepts`).

## Model

| member | source | states |
|---|---|---|
| Statements.RenderMarks | api/routes/companies.js:44-57 | when no fixed text contains a `?`, the statement text sent to the driver holds exactly one `?` per placeholder |
| Queries.Compose | api/routes/companies.js:44-57 | for every combination of a status and a country text, present, absent or (for the text) empty: there are as many placeholders as params; binding the params by position gives back the status condition, both LIKE patterns, the limit and the offset; an empty country text adds no clause, as `if (country)` skips it; there are 2 + 1 + 2 params; the last two are limit and offset |
| Queries.ComposeRendered | api/routes/companies.js:25-57 | the rendered SQL text contains exactly one `?` per parameter |
| Queries.SqlPlaceholders | api/routes/companies.js:25-56 | the statement's fixed text has no `?`, and its placeholder count is two plus each clause's own count |
| Queries.ClausesPlaceholders | api/routes/companies.js:46-54 | the status clause contributes one placeholder and the country clause two, whatever the clause list |
| Queries.FixedTextMarks | api/routes/companies.js:25-56 | the SELECT text has no placeholder, the ORDER BY text has two, and each clause has as many as its arity |
| Queries.BindComposed | api/routes/companies.js:44-57 | the composed params bind back to exactly the requested conditions, limit and offset |
| Queries.BindStatus | api/routes/companies.js:46-49 | a status clause followed by other clauses consumes the status id first, then binds the rest as before |
| Queries.BindCountry | api/routes/companies.js:51-54 | the country clause consumes two text params and turns them into one LIKE-on-either-name condition |
| Queries.ComposeTextIndependentOfValues | api/routes/companies.js:46-56 | the SQL text depends only on which filters are present, not on their values |
| Queries.ByIdParams | api/routes/companies.js:84-99 | the lookup statement has one placeholder, bound to the requested id |
| Companies.Validate | api/routes/companies.js:10-15 | a violation is reported exactly when its validator is in the chain and fails, and the reported violations stay in validator order |
| Companies.Violations | api/routes/companies.js:10-21 | the 400 errors are exactly the failing validators (status in 1..3, country of length 1..100, limit in 1..100, offset ≥ 0), in declaration order, without repeats |
| Companies.ListCompanies | api/routes/companies.js:16-69 | the response is 400 exactly when some validator fails, and then nothing is sent to the store; otherwise exactly the statement composed from the request, with limit and offset defaulting to 20 and 0, is sent, and the listing's data is that statement's result over the store; `count` is the page's own length (at most `limit`), with ids non-increasing |
| Companies.ListingSelects | api/routes/companies.js:23-69 | for country text without LIKE wildcards, the listing's data is the requested LIMIT/OFFSET window of the companies meeting the status and country filters, ordered by id descending |
| Companies.EvalPage | api/routes/companies.js:56-59 | whatever statement runs, at most its bound LIMIT of rows comes back, in non-increasing id order |
| Companies.ListingStrictlyDescending | api/routes/companies.js:56 | with unique company ids, the page is in strictly descending id order |
| Companies.SortStrictlyDescending | api/routes/companies.js:56 | sorting distinct rows with unique ids by id DESC gives strictly descending ids |
| Companies.PageStrictlyDescending | api/routes/companies.js:56-57 | LIMIT/OFFSET keep a strictly descending order |
| Companies.SortByIdDesc | api/routes/companies.js:56 | the ORDER BY result is sorted by id descending and is a permutation of its input |
| Companies.Page | api/routes/companies.js:56-57 | LIMIT/OFFSET: exactly min(limit, n - offset) rows (none when the offset is past the end), and row i is input row `offset + i` |
| Companies.Where | api/routes/companies.js:41-54 | a row is kept exactly when it satisfies every bound condition |
| Companies.JoinListing | api/routes/companies.js:38-40 | the LEFT JOINs keep one listing row per company, in table order |
| Companies.Selected | api/routes/companies.js:46-54 | the reference filter keeps exactly the rows with the requested status id whose own or full country name contains the requested text; an empty text filters nothing |
| Companies.HoldsConditions | api/routes/companies.js:46-54 | for filter text without wildcards, the bound conditions hold exactly when the row matches the requested status and country |
| Companies.WhereSelected | api/routes/companies.js:46-54 | evaluating the composed WHERE clause gives the same rows as the reference filter |
| Companies.ComposeEvalSelects | api/routes/companies.js:44-59 | running the composed statement gives the reference-filtered rows, ordered by id descending and paged |
| Companies.JoinIdsUnique | api/routes/companies.js:38-40 | the join keeps company ids unique |
| Companies.WhereUnique | api/routes/companies.js:41-54 | filtering keeps ids unique and rows distinct |
| Companies.SortedRowsDiffer | api/routes/companies.js:56 | in the sorted rows, an earlier row has a strictly larger id than a later one |
| Companies.RowsWithId | api/routes/companies.js:91-96 | the lookup returns no rows exactly when no company has the id, and otherwise starts with the detail row of a company with that id |
| Companies.GetCompany | api/routes/companies.js:84-108 | the response is 404 "Company not found" exactly when no company has the id; otherwise the data is the detail row (status, full country, broker and strategy-group names) of the first company in table order with that id, with the broker named from the portfolio store's own `brokers` |
| Companies.LookupBrokers | api/routes/companies.js:88-99 | the lookup takes broker names from the portfolio store's unqualified `brokers` alone; changing psw_foundation.brokers changes no detail row |
| Companies.GetCompanyUnique | api/routes/companies.js:96-108 | with unique ids, the lookup returns the one company with the id |
| Companies.Summary | api/routes/companies.js:121-145 | the total is the row count; active, inactive and Börsdata counts are the status-1, status-3 and `borsdata_available = 1` tallies of `Count`, bounded by the total; the per-country groups are distinct, ordered by count descending, cover exactly the non-NULL countries, and each counts its country's companies |
| Patterns.LikeWrapContains | api/routes/companies.js:52-53 | `LIKE '%x%'` matches exactly when x occurs in the text, for x without wildcards |
| Patterns.LikePrefix | api/routes/companies.js:52-53 | `LIKE 'x%'` matches exactly when the text starts with x, for x without wildcards |
| Patterns.Wrap | api/routes/companies.js:53 | the pattern is the text between two `%` |
| Schema.LeftJoinName | api/routes/companies.js:39-40 | a LEFT JOINed name is NULL exactly when the foreign key is NULL or matches no row; otherwise it is the name of a row with that id |
| Schema.StatusNameNull | api/routes/dashboard.js:76-79 | the joined status is NULL exactly for companies whose status id is NULL or dangling |
| Aggregates.Count | api/routes/companies.js:121-129 | `COUNT(*)` is the row count, and active + inactive, Börsdata-available and with-yield counts never exceed it |
| Aggregates.CountAppend | api/routes/companies.js:121-129 | the counts of two row sets add up to the counts of their union |
| Aggregates.CountSingle | api/routes/companies.js:123-127 | a one-row table counts exactly that row's CASE conditions: 1 in total, and 1 in each counter whose condition it meets |
| Aggregates.NonNullCountries | api/routes/companies.js:134 | the non-NULL country names are exactly the country names some company has |
| Aggregates.CountryCounts | api/routes/companies.js:131-137 | one group per distinct non-NULL country, each counting that country's companies, ordered by count descending |
| Grouping.GroupCount | api/routes/dashboard.js:84-92 | GROUP BY gives one group per distinct key; each count is the key's number of occurrences and is positive; the counts add up to the number of rows |
| Grouping.GroupOf | api/routes/dashboard.js:74-81 | every key that occurs has its group, carrying its occurrence count |
| Grouping.GroupsPermutation | api/routes/dashboard.js:89-91 | reordering groups keeps their keys distinct and their key set unchanged |
| Grouping.TotalSort | api/routes/dashboard.js:89-91 | ORDER BY does not change the sum of the counts |
| Grouping.OccurrencesPositive | api/routes/dashboard.js:84-92 | a key has a positive count exactly when it occurs |
| Sorting.Sort | api/routes/companies.js:56 | ORDER BY yields a sorted permutation of its input |
| Sorting.TakeDominates | api/routes/dashboard.js:44-45 | after ORDER BY, every row LIMIT cuts off is ordered after every row it keeps |
| Sorting.SortedDistinctStrict | api/test-cross-db.js:64-67 | sorted, repetition-free text is strictly increasing |
| Dashboard.DayOf | api/routes/dashboard.js:18 | `DATE(created)` is the day whose 86400-second span contains the timestamp, and is NULL exactly when created is NULL |
| Dashboard.RecentCompanies | api/routes/dashboard.js:10-23 | min(5, n) rows in id-descending order, each some company's row, and every company left out has an id no larger than every id listed |
| Dashboard.RecentStrictlyDescending | api/routes/dashboard.js:21-22 | with unique ids, the recent rows are in strictly descending id order |
| Dashboard.RecentRowsDiffer | api/routes/dashboard.js:21-22 | with unique ids, no two recent rows share an id |
| Dashboard.OverviewSummary | api/routes/dashboard.js:26-34 | the total is the row count; the active count and the count with positive yield are the status-1 and yield > 0 counts and are bounded by it |
| Dashboard.WeeklyAdditions | api/routes/dashboard.js:49-53 | the count is the number of companies created at or after now minus seven days, that is the length of the table filtered by that test; hence at most the row count, and zero exactly when no company qualifies |
| Dashboard.WeeklyAdditionsAntitone | api/routes/dashboard.js:49-53 | asking later never counts more companies |
| Dashboard.WeeklyAdditionsAll | api/routes/dashboard.js:49-53 | when every company was created within the week, all are counted |
| Dashboard.TopCountries | api/routes/dashboard.js:37-46 | exactly min(5, number of distinct non-NULL countries) groups, by count descending, each count the country's number of companies; when fewer than five are listed every country is listed, and any country left out has no more companies than any country listed |
| Dashboard.TopCountriesCutOff | api/routes/dashboard.js:44-45 | a country that LIMIT 5 cuts off counts no more than every listed country |
| Dashboard.CountryDistribution | api/routes/dashboard.js:84-92 | one group per non-NULL country, ordered by count descending, each counting that country's companies, with counts summing to the number of companies with a country |
| Dashboard.Labelled | api/routes/dashboard.js:76 | `COALESCE(status, 'Unknown')` relabels every group and keeps the counts |
| Dashboard.UnknownKeys | api/routes/dashboard.js:76-80 | the NULL-status group counts exactly the companies without a joined status |
| Dashboard.StatusDistribution | api/routes/dashboard.js:74-81 | the counts add up to the number of companies and are positive; the 'Unknown' group counts the NULL or dangling statuses; every joined status has its group; every other group is a status name some company joins to and counts exactly the companies joined to it |
| Dashboard.GroupOrigins | api/routes/dashboard.js:74-81 | every status group is either 'Unknown' counting the companies of unknown status, or a status name some company joins to, counting the companies joined to that name |
| Dashboard.YieldRankBucket | api/routes/dashboard.js:97-104 | a yield falls in CASE bucket k exactly when its interval contains it: NULL or 0, then ≤ 2, ≤ 4, ≤ 6, ≤ 8, and above |
| Dashboard.YieldRankMonotone | api/routes/dashboard.js:97-104 | among non-zero yields, a larger yield never lands in an earlier bucket |
| Dashboard.LabelRankInverse | api/routes/dashboard.js:108-116 | the ORDER BY CASE gives each bucket label its bucket's position |
| Dashboard.YieldDistribution | api/routes/dashboard.js:95-117 | counts add up to the number of companies; one positive group per used bucket label and none for unused ones; each count is the number of companies in that bucket; groups in strictly increasing bucket order |
| Dashboard.YieldLabelUsed | api/routes/dashboard.js:97-107 | a bucket label appears among the companies' labels exactly when some company's yield is in that bucket |
| Dashboard.YieldGroupsStrict | api/routes/dashboard.js:108-116 | groups sorted by the CASE order with distinct labels are in strictly increasing bucket order |
| CrossStore.JoinBrokers | api/test-cross-db.js:14-24 | one row per company, none dropped; the broker name is NULL exactly when the broker id is NULL or names no broker of psw_foundation.brokers |
| CrossStore.PendingCompanies | api/test-cross-db.js:25 | exactly the companies whose status id is NULL, each as often as in the table and in table order (the table filtered by that test) |
| CrossStore.CrossStoreBrokers | api/test-cross-db.js:22-24 | the cross-store rows take broker names from psw_foundation.brokers alone; changing the portfolio store's `brokers` changes no row |
| CrossStore.PendingWithBrokers | api/test-cross-db.js:14-27 | min(5, pending) rows, each the joined row of a pending company in table order, each with a NULL status |
| CrossStore.AllWithBrokers | api/test-cross-db.js:33-45 | min(10, n) rows, row i being company i joined, whatever its status |
| CrossStore.MatchesOf | api/test-cross-db.js:53-55 | the inner-join rows of a broker are its (id, name) when some company names it, and otherwise none |
| CrossStore.InnerJoin | api/test-cross-db.js:51-55 | the inner join yields exactly the (id, name) of brokers that some company references |
| CrossStore.BrokerOptions | api/test-cross-db.js:51-57 | the broker options are repetition-free, ordered by name, and are exactly the referenced brokers |
| CrossStore.CountryLabels | api/test-cross-db.js:66 | the labels are exactly the non-NULL, non-empty country names |
| CrossStore.SortedLabels | api/test-cross-db.js:64-67 | the distinct labels in strictly increasing text order |
| CrossStore.CountryOptions | api/test-cross-db.js:63-68 | id equals name; every non-empty country name appears once; strictly increasing order |
| Ddl.DefaultRoundTrip | api/import-all-databases.js:108-116 | every DEFAULT clause, quoted or not, reads back as the default it renders; NULL renders nothing |
| Ddl.TailRoundTrip | api/import-all-databases.js:104-122 | the clauses after the type read back as NOT NULL exactly when Null is "NO", the default, and AUTO_INCREMENT exactly when Extra is auto_increment |
| Ddl.ColumnDefAllDatabases | api/import-all-databases.js:102-124 | a column definition starts with the backticked field and its type, and the rest decodes to NOT NULL iff Null is "NO", the default, and AUTO_INCREMENT iff Extra is auto_increment |
| Ddl.ColumnDefPortfolio | api/import-database.js:89-107 | the definition starts with field and type; without Extra the rest decodes to NOT NULL and the default; with Extra it ends with a space and the Extra verbatim |
| Ddl.ZeroDefaultDiffers | api/import-database.js:95-101 | a '0' default is rendered differently by the two scripts (unquoted in one, quoted in the other) |
| Ddl.FirstPrimaryKey | api/import-all-databases.js:130 | the key is NULL exactly when no column is PRI, and otherwise it is the field of the first PRI column |
| Ddl.CreateTable | api/import-all-databases.js:98-135 | the statement starts with `CREATE TABLE IF NOT EXISTS` and the backticked name, ends with the primary-key clause of the first PRI column (if any) and `\n)`, and between the two holds exactly the column definitions in schema order joined by `,\n` |
| Ddl.PrimaryKeyEmitted | api/import-all-databases.js:129-135 | when column i is the first PRI column, the statement ends with a PRIMARY KEY clause naming its field |
| Ddl.PrimaryKeyAbsent | api/import-all-databases.js:127-135 | without a PRI column, the joined column definitions are followed directly by `\n)`: no PRIMARY KEY clause is emitted |
| Ddl.JoinContains | api/import-all-databases.js:127 | every column definition occurs in the joined column list |
| Ddl.JoinConcat | api/import-all-databases.js:127 | joining two non-empty lists is joining each with one separator between, so the definitions keep their order |
| Ddl.Placeholders | api/import-all-databases.js:158 | the VALUES list has exactly n placeholders and no other `?` |
| Ddl.InsertSql | api/import-all-databases.js:156-160 | the INSERT IGNORE statement has exactly one placeholder per column |
| Ddl.InsertRendered | api/import-all-databases.js:157-160 | when no table or column name contains `?`, the statement text contains exactly one `?` per column |
| Ddl.InsertPlan | api/import-all-databases.js:145-168 | there are no executions exactly when sample data, rows or columns are missing or rows are empty; otherwise one per row, in order, each binding that row to the same statement |
| Ddl.RunInserts | api/import-all-databases.js:162-168 | every execution is attempted, in order, and its outcome is the server's verdict on it |
| Ddl.AcceptedRows | api/import-all-databases.js:162-168 | a failing row does not stop the loop: the rows inserted are exactly those the server accepts, in plan order |
| Ddl.ProcessTable | api/import-all-databases.js:84-86 | a processed table gets the CREATE TABLE of its name and schema and the insert plan of its sample rows; no inserts exactly when it has no rows to insert |
| Import.Named | api/import-all-databases.js:83 | the table found is the first with the name, and there is none exactly when no table has it |
| Import.NamedDatabase | api/import-all-databases.js:53 | the database found is the first with the name, and there is none exactly when no database has it |
| Import.Listed | api/import-all-databases.js:82-90 | the tables processed are the listed names the overview has, in list order, each being the first table with that name |
| Import.ImportDatabase | api/import-all-databases.js:45-93 | CREATE DATABASE and USE come first; a database the overview lacks gets nothing else; otherwise its fixed tables that exist are processed in list order, each step carrying the overview's own first table of that name (schema and sample rows), each while that database is selected, and the database stays selected afterwards |
| Import.FirstTablesUnique | api/import-all-databases.js:82-86 | two step lists that each carry the overview's first table for every name and process the same names are equal |
| Import.ImportsIntoUnique | api/import-all-databases.js:45-93 | the create/select prefix, the expected names and the overview's own tables together determine a database's import: `ImportDatabase` is the only step list meeting them |
| Import.SelectThenProcess | api/import-all-databases.js:45-51 | after CREATE DATABASE and USE of a database, every table processed goes into that database |
| Import.ImportAll | api/import-all-databases.js:28-32 | psw_foundation is created before psw_portfolio; each database's expected tables are processed, foundation first, and each table is processed while its own database is selected; the steps split into a foundation import and a portfolio import, each carrying its database's own tables |
| Import.ImportAllTables | api/import-all-databases.js:63-79 | only tables of the two fixed lists are ever processed |
| Import.Others | api/import-database.js:64-69 | the remaining pass processes every table not named in the dependency order, in overview order, as the overview's table values themselves |
| Import.ImportPortfolio | api/import-database.js:29-69 | CREATE DATABASE and USE come first; it fails, processing no table, exactly when the overview lacks psw_portfolio; otherwise the dependency-ordered tables that exist come first, each the overview's first table of that name, then the overview's other tables themselves in overview order; every table processed goes into psw_portfolio |
| Import.OrderedThenOthers | api/import-database.js:53-69 | with distinct table names, the ordered pass followed by the remaining pass covers every table name exactly once |
| Import.PortfolioEachOnce | api/import-database.js:45-69 | with distinct table names, the portfolio import processes each table exactly once |

## Left out

- Authentication (the `auth` middleware on every route) is left out. It is JWT and bcrypt code in libraries that are not part of this model.
- The connection registry (`api/config/database.js`) is left out. Statements run against an in-memory `Schema.Store` instead. The registry's default store is 'portfolio' (api/config/database.js:44).
- The query string is taken as already typed: `status`, `limit` and `offset` are integers and `country` is text. The express-validator string-to-integer parsing and `parseInt` are not modelled, and the status id is bound as an integer where the route passes the raw string.
- Companies.GetCompany: `GET /:id` has no validator and binds the raw path segment; MySQL converts it to a number for the comparison, so `/12abc` finds company 12. The model takes the id as an integer and does not model that conversion.
- LIKE is matched character by character with `%` and `_` as wildcards. MySQL's default escape character `\` is not modelled. Database collations (case-insensitive matching) are not modelled either. `Companies.ComposeEvalSelects`, `Companies.ListingSelects` and `Companies.HoldsConditions` assume the country filter contains none of `%`, `_` and `\`. With any of them, the route's LIKE does more than substring search.
- `AVG(yield)` and `MAX(yield)` are left out: they are floating-point aggregates and are not part of the model's tallies.
- Time zones are left out: `DATE()` and `NOW() - INTERVAL 7 DAY` are taken in whole UTC seconds, and the clock is a parameter.
- GROUP BY without ORDER BY (the status chart) yields groups in first-appearance order, one valid choice among those SQL allows.
- ORDER BY on text compares character codes, not MySQL's collation order.
- SELECT DISTINCT, GROUP BY and `!= ''` on text also compare under the collation, which is case-insensitive by default, so `Sweden` and `sweden` form one filter option or one country group. The model compares character by character (`CrossStore.BrokerOptions`, `CrossStore.CountryOptions`, `Aggregates.CountryCounts`).
- CrossStore.PendingWithBrokers and CrossStore.AllWithBrokers: the statements use LIMIT 5 and LIMIT 10 without ORDER BY, so the server may return any five or ten qualifying rows. The model returns the first ones in table order, one valid choice among those SQL allows.
- LEFT JOINs take the first matching row. In the store, ids are primary keys, so there is at most one match.
- The companies routes select `nc.company_name` and the cross-store queries select `nc.company`. One `name` field stands for both.
- The 500 responses are modelled only as the `ServerError` branch, taken when evaluation fails (parameters that do not bind, or a negative LIMIT or OFFSET). Driver and network failures are not modelled.
- The SQL texts are modelled with their whitespace collapsed to single spaces; the driver ignores layout.
- A status literally named 'Unknown' would appear twice in the status chart, once for NULL statuses and once for itself. `Dashboard.StatusDistribution` does not single that case out.
- Import I/O is left out: reading the JSON overview, the connections, and logging. The server that executes CREATE and INSERT statements is a parameter, and whether a CREATE TABLE succeeds does not change what runs next.
- Sample-row values are modelled as integers and texts. JSON nulls, floats and dates are not modelled.
- DEFAULT values are inserted into quotes without escaping, as the scripts do. A default containing a quote gives invalid DDL; the model renders it as written.
- Ddl.ColumnDefPortfolio: for a column with an Extra, the contract says only that the definition ends with that Extra, because verbatim Extra text cannot be told apart from the clauses before it.
- Companies.Violations: the country's length is counted in Dafny characters. validator.js's isLength, behind `isLength({ min: 1, max: 100 })` at api/routes/companies.js:12, skips the variation selectors U+FE0E and U+FE0F and counts a surrogate pair once. So a lone U+FE0F is rejected by the route but accepted here, and 100 letters followed by U+FE0F are accepted by the route but rejected here.
- Import.PortfolioEachOnce: stated only for overviews whose table names are distinct. With a duplicate name outside the dependency order, the script processes every copy.
- The debug scripts (`test-db.js`, `test-simple.js`, `list-databases.js`, `test-env.js`) and the Android app are not part of this model: they print state or are user-interface code.
