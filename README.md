# BigQuery driver for CakePHP: query builder and connection lifecycle

This project models three parts of a CakePHP datasource that talks to Google
BigQuery, and proves properties of the model:

- `Giginc\BigQuery\ORM\Table` is a fluent query builder. `fields`, `where`,
  `between`, `group`, `order`, `limit` and `date` update the table's fields
  in place, and `all()` renders them into one SQL string plus a map of bound
  parameters. `getTableName()` resolves a dated table-name template such as
  `events_%Y%m%d`. All `%X` directives are joined into one search text, and
  that text is replaced by the formatted date, or by the wildcard `*` when
  no date is set. Unless all directives stand next to each other, the
  joined text does not occur and the template comes back whole.
  `find()` checks finder names.
- `Giginc\BigQuery\Database\Driver\BigQuery` is the driver. It merges the
  caller's configuration over `_baseConfig` and projects it into the client
  configuration. It also keeps a `connected` flag and the client `_db`,
  with a lazy `getConnection` and a `disconnect` that answers `false` when
  it actually disconnects.
- `Giginc\BigQuery\Database\Connection` owns a driver. It can replace the
  driver, delegates `disconnect` to it, and disconnects it on destruction.

Modules:

- `PhpStrings` (`php_strings.dfy`) covers decimal rendering of integers,
  `implode`, `str_replace`, ASCII case and `ucfirst`.
- `PhpValues` (`php_values.dfy`) covers PHP values, truthiness, string
  interpolation and `$v[k]` offset reads.
- `TableNames` (`table_names.dfy`) is `getTableName`.
- `QueryClauses` (`query_clauses.dfy`) states the builder's fragments,
  bindings and SQL clauses as functions, with lemmas about them.
- `OrmTable` (`orm_table.dfy`) is the `Table` class. Its builder methods
  are loops proved against the `QueryClauses` functions.
- `BigQueryDriver` (`bigquery_driver.dfy`) is the driver class.
- `DatabaseConnection` (`connection.dfy`) is the connection class.

Some behaviour comes from outside the repository and is passed in as a
parameter:

- the date formatting done by `DateTime`;
- whether `new BigQueryClient(...)` succeeds;
- the `dataSet` value read from the driver;
- the set of method names a table defines (`find` itself among them), which
  `find()` searches for `find<Type>`.

The model keeps these quirks of the code:

- `where()` renders `" key @where{i}"`, with no `=`, and `" key NULL"`, with
  no `IS`.
- The WHERE clause starts with a double space.
- The parameter counter restarts in every `where`/`between` call, so a
  second call overwrites `where0`. This is proved in
  `QueryClauses.WhereCounterRestarts`, not corrected.
- `disconnect()` keeps `_db`.
- A negative limit is rendered as written.
- `all()` does not disconnect the driver.

## Model

| member | source | states |
|---|---|---|
| PhpStrings.NatToString | src/ORM/Table.php:228-229 | the `{$i}` counter renders as a non-empty string of decimal digits, with no leading zero except for 0 itself |
| PhpStrings.ParseNatToString | src/ORM/Table.php:228-229 | reading the rendered counter back as a decimal number gives the counter |
| PhpStrings.NatToStringInjective | src/ORM/Table.php:228-229 | two counters render alike exactly when they are equal |
| PhpStrings.IntToString | src/ORM/Table.php:362 | a rendered limit is non-empty and starts with '-' exactly when it is negative |
| PhpStrings.ParseIntToString | src/ORM/Table.php:362 | reading the rendered limit back gives the limit, sign included |
| PhpStrings.Join | src/ORM/Table.php:135 | `implode` of a single part is that part |
| PhpStrings.JoinConcat | src/ORM/Table.php:343 | imploding two non-empty lists is imploding each and joining the results with the separator |
| PhpStrings.ReplaceAll | src/ORM/Table.php:120 | `str_replace` for one search text: every non-overlapping occurrence, scanning left to right, is replaced; an empty search text, or a search text replaced by itself, leaves the subject unchanged |
| PhpStrings.ReplaceAllSkipsPrefix | src/ORM/Table.php:120 | `str_replace` leaves a prefix that cannot start the search text untouched and carries on after it |
| PhpStrings.ReplaceAllAbsent | src/ORM/Table.php:120 | `str_replace` returns the subject unchanged when the search text's first character does not occur in it |
| PhpStrings.UcFirst | src/ORM/Table.php:167 | `ucfirst` keeps the length, upper-cases the first character (ASCII only) and keeps the rest |
| PhpValues.Truthy | src/ORM/Table.php:115 | PHP's conversion to bool: null, false, 0, `""`, `"0"` and the empty array are false, everything else true |
| PhpValues.Interpolate | src/ORM/Table.php:141 | PHP's string conversion inside `"{$x}"`: null and false give `""`, true gives `"1"`, integers their decimal text, arrays `"Array"` |
| PhpValues.Offset | src/ORM/Table.php:206-207 | `$value[k]`: the element of a list, one character of a string (the empty string past its end), null otherwise |
| TableNames.Captures | src/ORM/Table.php:110 | the characters `preg_match_all("/%(.)/")` captures: leftmost, non-overlapping matches, never a newline, at most one per two characters of the template |
| TableNames.Spell | src/ORM/Table.php:111 | the whole matches for captured characters, joined: two characters per directive, starting with `%` |
| TableNames.DirectiveText | src/ORM/Table.php:111 | `implode('', $matchs[0])`: twice as long as the format, and no longer than the template |
| TableNames.ResolveTemplate | src/ORM/Table.php:108-121 | resolution fails exactly when a date is set and `DateTime` rejects it under the captured format |
| TableNames.CapturesSkipLiteral | src/ORM/Table.php:110 | text without '%' contributes no directive to the `/%(.)/` scan |
| TableNames.CapturesOfSpell | src/ORM/Table.php:110-112 | scanning adjacent directives followed by literal text recovers exactly their format characters |
| TableNames.NoDirectiveIsIdentity | src/ORM/Table.php:108-121 | a template in which `/%(.)/` finds no match (including a trailing '%' as in `t_%`, or a '%' before a newline) comes back unchanged whatever the date (unless `DateTime` throws) |
| TableNames.NoPercentIsIdentity | src/ORM/Table.php:108-121 | in particular a template without any '%' comes back unchanged whatever the date (unless `DateTime` throws) |
| TableNames.StrayPercentIsKept | src/ORM/Table.php:110-120 | `t_%` and `a%` followed by a newline come back as they are when no date is set |
| TableNames.ReplaceDirectiveBlock | src/ORM/Table.php:120 | a directive block between literal texts is replaced and the literal texts are kept |
| TableNames.ShardedTemplate | src/ORM/Table.php:110-120 | for `prefix%Y%m%d suffix` (literal text around one block of directives), the format handed to `DateTime` is exactly the directive characters; without a date the result is `prefix*suffix`; with a date it is the prefix, the formatted date and the suffix |
| TableNames.CapturesOfSplit | src/ORM/Table.php:110 | the scan of `prefix%c mid%d suffix` captures exactly `c` and `d` |
| TableNames.SplitBlockAbsent | src/ORM/Table.php:120 | the joined text `%c%d` does not occur in `prefix%c mid%d suffix` when `mid` is not empty, so `str_replace` returns the template whatever replaces it |
| TableNames.SplitDirectivesAreKept | src/ORM/Table.php:110-120 | two directives separated by non-empty literal text (`a%Yb%m`) come back unchanged for every date, set or not; the only other outcome is `DateTime` throwing on a set date |
| QueryClauses.WhereNameInjective | src/ORM/Table.php:229 | distinct counters bind distinct `where{i}` names |
| QueryClauses.BetweenNameInjective | src/ORM/Table.php:206-207 | `between{i}{0,1}` names are distinct for distinct (counter, bound) pairs |
| QueryClauses.WhereAndBetweenNamesDiffer | src/ORM/Table.php:205-229 | a `where` name never equals a `between` name |
| QueryClauses.WhereFragments | src/ORM/Table.php:224-231 | the fragments one `where` call appends: one per entry |
| QueryClauses.WhereBindings | src/ORM/Table.php:224-231 | the parameters one `where` call writes, in iteration order; a null value writes none (stated by `WhereBindingsAt` and `WhereBindingsDomain`) |
| QueryClauses.WhereFragmentsAt | src/ORM/Table.php:224-231 | one fragment per entry, in order: `" key NULL"` for null and `" key @where{i}"` otherwise, with `i` the entry's position |
| QueryClauses.WhereBindingsAt | src/ORM/Table.php:224-231 | `where{i}` is bound exactly when entry `i` is not null, and then to that entry's value |
| QueryClauses.WhereBindingsDomain | src/ORM/Table.php:224-231 | the only names bound are `where{i}` for entry positions `i` |
| QueryClauses.WhereCounterRestarts | src/ORM/Table.php:221-235 | two `where` calls both use `@where0`, and the second call's first value overwrites the first call's binding |
| QueryClauses.BetweenFragments | src/ORM/Table.php:204-209 | the fragments one `between` call appends: one per entry |
| QueryClauses.BetweenBindings | src/ORM/Table.php:204-209 | the parameters one `between` call writes: two per entry (stated by `BetweenBindingsAt` and `BetweenBindingsDomain`) |
| QueryClauses.BetweenFragmentsAt | src/ORM/Table.php:204-209 | one `" key BETWEEN @between{i}0 AND @between{i}1"` fragment per entry, in order |
| QueryClauses.BetweenBindingsAt | src/ORM/Table.php:206-207 | `between{i}0` and `between{i}1` are bound to `value[0]` and `value[1]` of entry `i` |
| QueryClauses.BetweenBindingsDomain | src/ORM/Table.php:204-209 | the only names bound are `between{i}0`/`between{i}1` for entry positions `i` |
| QueryClauses.MatchesAscDesc | src/ORM/Table.php:271 | the `preg_match` pattern on a direction: ASC or DESC in any ASCII case, optionally followed by one final newline (`$` matches before it) |
| QueryClauses.CheckDirection | src/ORM/Table.php:267-273 | a truthy non-string is a type error and nothing else is; an accepted direction matches the pattern and is the caller's own string, or `ASC` for a falsy one |
| QueryClauses.CheckDirectionAccepts | src/ORM/Table.php:267-273 | the converse: a direction is accepted exactly when it, or `ASC` for a falsy one, matches the pattern, so a falsy direction is always kept as `ASC` and a truthy string exactly when it matches |
| QueryClauses.OrderTerms | src/ORM/Table.php:264-276 | the terms `order` keeps: at most one per entry (stated by the lemmas below) |
| QueryClauses.DirectionExamples | src/ORM/Table.php:267-271 | null and `""` become ASC; `desc` is kept as spelled; `Asc` followed by a newline is accepted; `SIDEWAYS` is dropped; a truthy integer is a type error |
| QueryClauses.OrderTermsMembers | src/ORM/Table.php:265-274 | a term is rendered exactly when some entry's direction passes the check, as `` `key` dir `` with the direction's own case |
| QueryClauses.OrderTermsConcat | src/ORM/Table.php:265-274 | the terms of two consecutive runs of entries are the terms of the first followed by those of the second, so input order is kept |
| QueryClauses.OrderDropsRejected | src/ORM/Table.php:271-273 | an entry whose direction fails the check, wherever it stands, contributes no term and leaves the others in order |
| QueryClauses.OrderTermsPrefix | src/ORM/Table.php:265-275 | each entry `order()` visits adds its own term exactly when its direction is accepted; an entry whose direction is a truthy non-string means the whole call fails |
| QueryClauses.OrderKeepsAccepted | src/ORM/Table.php:265-274 | when every direction is accepted there is one term per entry, and term `k` is entry `k`'s, so input order is kept |
| QueryClauses.SelectClause | src/ORM/Table.php:133-141 | ``SELECT <fields joined by ", " or *> FROM `<dataSet>.<table>` `` |
| QueryClauses.WhereClause | src/ORM/Table.php:340-344 | absent without fragments, else `" WHERE "` and the fragments joined by `" AND"` |
| QueryClauses.GroupClause | src/ORM/Table.php:347-351 | absent without columns, else `" GROUP BY "` and the columns joined by `", "` |
| QueryClauses.OrderClause | src/ORM/Table.php:354-358 | absent without terms, else `" ORDER BY "` and the terms joined by `", "` |
| QueryClauses.LimitClause | src/ORM/Table.php:361-363 | absent for 0, else `" LIMIT "` and the decimal limit (stated by `LimitClauseReadsBack`) |
| QueryClauses.RenderSql | src/ORM/Table.php:337-363 | the query `all()` assembles: the five clauses in their fixed order |
| QueryClauses.RenderEmptyState | src/ORM/Table.php:335-363 | with no builder calls the query is `SELECT * FROM` the backticked `dataSet.table` and nothing else |
| QueryClauses.LimitClauseReadsBack | src/ORM/Table.php:361-363 | the LIMIT clause is absent exactly for limit 0; otherwise it is `" LIMIT "` followed by digits that read back as the limit |
| QueryClauses.WhereClauseAppends | src/ORM/Table.php:340-344 | fragments added later are rendered after earlier ones, joined by `" AND"` |
| OrmTable.Table.GetTableName | src/ORM/Table.php:108-121 | `getTableName()` of the table's template and date: it fails exactly when a date is set and `DateTime` rejects it; without a date a template in which `/%(.)/` finds nothing, in particular one without `%`, is returned as is |
| OrmTable.Table.Date | src/ORM/Table.php:146-151 | `date()` records the date string |
| OrmTable.Table.Fields | src/ORM/Table.php:187-192 | `fields()` replaces the projection |
| OrmTable.Table.Where | src/ORM/Table.php:221-235 | the fragments are appended after the earlier ones, and the bindings are added over the earlier parameters as `WhereBindings` gives them |
| OrmTable.Table.Between | src/ORM/Table.php:201-212 | the BETWEEN fragments are appended, and both bounds of every entry are bound over the earlier parameters |
| OrmTable.Table.Group | src/ORM/Table.php:244-253 | the grouping is replaced by the columns in order, each wrapped in backticks |
| OrmTable.Table.Order | src/ORM/Table.php:262-279 | it succeeds exactly when no truthy direction is a non-string; on success the ordering is replaced by the accepted terms, otherwise it is left unchanged |
| OrmTable.Table.Limit | src/ORM/Table.php:288-293 | `limit()` records the number |
| OrmTable.Table.Find | src/ORM/Table.php:162-178 | `all` is accepted; the empty type selects `find` itself, whose re-entry with a null type ends in a TypeError, and nothing else does; any other type dispatches exactly when a case-insensitive `find`+ucfirst(type) method exists, and otherwise fails exactly then with `Unknown finder method "type"` |
| OrmTable.Table.Select | src/ORM/Table.php:129-144 | `select()` fails exactly when table-name resolution fails; otherwise it is the SELECT of the projection (`*` when there are no fields) from the data set and the resolved table |
| OrmTable.Table.AppendClauses | src/ORM/Table.php:339-363 | the tail of `all()` appends exactly the WHERE, GROUP BY, ORDER BY and LIMIT clauses, in that order, each only when present, to the query built so far |
| OrmTable.Table.All | src/ORM/Table.php:335-366 | it fails exactly when table-name resolution fails; otherwise `_query` becomes SELECT, WHERE, GROUP BY, ORDER BY and LIMIT in that order, each clause only when present, and the result carries the query with the current parameters |
| OrmTable.ExampleWhere | src/ORM/Table.php:221-235 | `{x: 1, y: null}` gives `" x @where0"`, `" y NULL"` and binds only `where0` |
| OrmTable.ExampleOrder | src/ORM/Table.php:262-279 | `{a: ""}` is accepted and orders by `` `a` ASC `` |
| OrmTable.ExampleSelectClause | src/ORM/Table.php:129-144 | fields `a, b` on `ds.tbl` render as ``SELECT a, b FROM `ds.tbl` `` |
| OrmTable.ExampleWhereClause | src/ORM/Table.php:340-344 | the WHERE clause keeps its double space and joins with `" AND"` |
| OrmTable.ExampleLimitClause | src/ORM/Table.php:361-363 | limit 5 renders as `" LIMIT 5"` |
| OrmTable.ExampleRender | src/ORM/Table.php:335-363 | a full state renders its clauses in the fixed order |
| OrmTable.BuildExample | src/ORM/Table.php:187-293 | `fields`, `where` with a null value, `group`, `order` with an empty direction and `limit` on one table leave exactly the expected fragments, terms, limit and single binding |
| OrmTable.ExampleQuery | src/ORM/Table.php:335-366 | a chain of builder calls on one table yields the exact query text and the single binding `where0 = 1` |
| BigQueryDriver.BaseConfig | src/Database/Driver/BigQuery.php:51-60 | `_baseConfig`: it has the three required client keys, and the three optional ones default to falsy values |
| BigQueryDriver.Lookup | src/Database/Driver/BigQuery.php:97-112 | `$this->_config[$key]`: the value, or null when the key is missing |
| BigQueryDriver.ArrayMerge | src/Database/Driver/BigQuery.php:67 | every caller key overrides the default and every other default is kept |
| BigQueryDriver.ClientConfig | src/Database/Driver/BigQuery.php:96-113 | the client configuration always has projectId, requestTimeout and retries; it has keyFile, keyFilePath and location exactly when they are truthy; and every value is the driver's |
| BigQueryDriver.ClientConfigOverDefaults | src/Database/Driver/BigQuery.php:51-113 | over the defaults, the optional keys are present exactly when the caller set them truthy, and requestTimeout/retries fall back to 0 and 3 |
| BigQueryDriver.BigQuery.constructor | src/Database/Driver/BigQuery.php:65-68 | the configuration is the caller's merged over `_baseConfig`; a new driver is disconnected and has no client |
| BigQueryDriver.BigQuery.GetConfig | src/Database/Driver/BigQuery.php:77-84 | the falsy keys `""` and `"0"` give the whole configuration; any other key gives its value, or null when unknown |
| BigQueryDriver.GetConfigAfterConstruction | src/Database/Driver/BigQuery.php:51-84 | after construction, `getConfig` gives the caller's value, else the default, else null |
| BigQueryDriver.BigQuery.IsConnected | src/Database/Driver/BigQuery.php:162-165 | `isConnected()`: the `connected` flag |
| BigQueryDriver.BigQuery.Enabled | src/Database/Driver/BigQuery.php:170-173 | always true |
| BigQueryDriver.BigQuery.Connect | src/Database/Driver/BigQuery.php:93-123 | a successful client construction connects the driver to a client built from `ClientConfig`; a failure appends the message to the notices and changes nothing else; it returns the flag |
| BigQueryDriver.BigQuery.GetConnection | src/Database/Driver/BigQuery.php:132-139 | it connects only when disconnected; a connected driver keeps its client; it returns `_db` |
| BigQueryDriver.BigQuery.Disconnect | src/Database/Driver/BigQuery.php:147-154 | it returns false exactly when it was connected; afterwards the driver is disconnected |
| DatabaseConnection.Connection.constructor | src/Database/Connection.php:17-24 | it stores the configuration and a fresh, disconnected driver with no client and no notices |
| DatabaseConnection.Connection.Config | src/Database/Connection.php:54-57 | `config()` returns `_config` |
| DatabaseConnection.Connection.ConfigName | src/Database/Connection.php:65-68 | always `bigquery` |
| DatabaseConnection.Connection.Driver | src/Database/Connection.php:75-83 | null gives the current driver unchanged; anything else installs and returns a fresh, disconnected driver over the given configuration |
| DatabaseConnection.Connection.ConnectAsWritten | src/Database/Connection.php:91-99 | the call ends in an uncaught ArgumentCountError |
| DatabaseConnection.Connection.Connect | src/Database/Connection.php:91-99 | given a name, it answers true; a successful client construction connects the driver with the new client and leaves its notices as they were, and a failed one appends the notice and keeps the driver's flag and client |
| DatabaseConnection.Connection.Disconnect | src/Database/Connection.php:107-114 | a connected driver is disconnected and the driver's false is returned; otherwise it returns true and does not touch the driver; afterwards the driver is disconnected |
| DatabaseConnection.Connection.Destruct | src/Database/Connection.php:40-46 | a connected driver is disconnected and released; a disconnected one is kept untouched |
| DatabaseConnection.Session | src/Database/Connection.php:40-114 | reaching the driver through `getConnection`, as a table does: a failed client construction leaves it disconnected and a successful one connects it; the first disconnect answers false and the second true; destruction then keeps the driver |

## Left out

- `Table::query`, `getResponse` and `_getConnection` are left out. They call the BigQuery client (`query`, `parameters`, `runQuery`), build framework entities and look up the driver through CakePHP. All of this is foreign I/O, so `all()` stops at the rendered query.
- `Table::disconnect` is left out. It forwards to a driver that `_getConnection` would have set.
- `DateTime` parsing and formatting is a parameter `(date, format) -> Option<string>`. `None` stands for the constructor throwing. Calendar semantics are not modelled.
- `new BigQueryClient(...)` is not modelled. Its outcome is a parameter: a client instance or an exception message. `trigger_error` is modelled as appending the message to the driver's `notices`.
- `getSchema` and `setSchema` are left out because their bodies are commented out or trivial.
- OrmTable.Table.Find: a `Dispatch` records only which `find<Type>` method is chosen, not what it does; every dispatch passes the undefined `$query`, that is null (with PHP's undefined-variable warning); `find('')` is modelled as the TypeError its re-entry `find(null)` meets at `ucfirst(null)` under strict types.
- The `Table` constructor and `_table` are set by the CakePHP framework. The model takes the template as the constructor's argument. The `Connection` constructor is CakePHP's `\Cake\Database\Connection`, which is not part of this model. It is modelled as taking the connection and driver configurations.
- PHP arrays are lists of values, and associative arrays are sequences of key/value entries. Floats, objects and numeric-string keys (which `array_merge` renumbers) are not modelled.
- PHP integer width is not modelled. A limit outside 64 bits cannot occur in PHP but is representable here.
- OrmTable.Table.Order: a truthy non-string direction makes `preg_match` throw a TypeError. The model reports this as `ok == false` with the ordering unchanged, and does not model the exception itself.
- BigQueryDriver.BigQuery.GetConfig: reading an unknown key raises a PHP warning before yielding null. Only the null is modelled.
- DatabaseConnection.Connection.Destruct: the source reads `connected` through the driver even after it was released. The model requires a driver to be present.
- PHP strings are byte strings, and the model's strings are sequences of characters. `/%(.)/` without `/u` captures one byte, and `ucfirst` and the `/i` match work byte by byte. The model agrees with the source on ASCII text and differs on non-ASCII text: for `t_%é`, PHP captures the first byte of `é` and leaves the second behind, while the model captures `é` whole.
- TableNames.SplitDirectivesAreKept: it is stated for two directives with non-empty literal text between them. Templates with three or more directives, where only some are adjacent, have no lemma of their own; `ResolveTemplate` still computes them as the source does.
- OrmTable.Table.Group: the contract states the columns pointwise, each in backticks. Interpolating a non-string column (`"{$row}"`) is not modelled, because columns are strings here.

## Findings

| source | as written | input that shows it | evidently intended | confidence | as-written member | corrected member |
|---|---|---|---|---|---|---|
| src/Database/Connection.php:94 | `connect()` calls `$this->_driver->connect()` with no argument, but `BigQuery::connect` requires `string $name`; the resulting ArgumentCountError is an `\Error`, so `catch (\Exception $e)` does not catch it | any call of `Connection::connect()` | pass a name to the driver, which catches client failures itself, so the call returns true | not executed | DatabaseConnection.Connection.ConnectAsWritten | DatabaseConnection.Connection.Connect |
