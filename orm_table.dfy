/**
 * `Giginc\BigQuery\ORM\Table`: a fluent query builder whose methods update
 * the builder's fields in place, and `all()`, which renders those fields
 * into one SQL string and a parameter map.
 */
module OrmTable {
  import opened PhpStrings
  import opened PhpValues
  import opened TableNames
  import opened QueryClauses

  /** The query text and parameters that `all()` hands to the BigQuery client. */
  datatype RenderedQuery = RenderedQuery(sql: string, parameters: map<string, Value>)

  /** Outcome of `find($type)`. */
  datatype FindOutcome =
    | FindAll                        // 'all': the table itself is returned
    | Dispatch(finder: string)       // a find<Type> method exists and is invoked
    | UnknownFinder(message: string) // BadMethodCallException
    | FinderTypeError                // `find` re-entered with a null type: TypeError

  class Table {
    /** `_table`: the table-name template, set by the framework. */
    const table: string
    /** `_date`: None until `date()` is called. */
    var date: Option<string>
    var fields: seq<string>
    /** `_where`: rendered predicate fragments, in the order they were added. */
    var whereFragments: seq<string>
    var parameters: map<string, Value>
    var group: seq<string>
    var order: seq<string>
    /** `_limit`; 0 stands for both "unset" and 0, which render alike. */
    var limit: int
    /** `_query`: the last SQL text `all()` built. */
    var query: string

    constructor (table: string)
      ensures this.table == table && date == None
      ensures fields == [] && whereFragments == [] && parameters == map[]
      ensures group == [] && order == [] && limit == 0 && query == ""
    {
      this.table := table;
      date := None;
      fields, whereFragments, parameters := [], [], map[];
      group, order, limit, query := [], [], 0, "";
    }

    /** The part of the builder `all()` renders. */
    function State(): QueryState
      reads this
    {
      QueryState(fields, whereFragments, group, order, limit)
    }

    /** `getTableName()`. */
    function GetTableName(format: DateFormatter): (r: Option<string>)
      reads this
      ensures r.None? <==> DateIsSet(date) && format(date.value, Captures(table)).None?
      ensures !DateIsSet(date) && Captures(table) == [] ==> r == Some(table)
      ensures !DateIsSet(date) && '%' !in table ==> r == Some(table)
    {
      if Captures(table) == [] then NoDirectiveIsIdentity(table, date, format); ResolveTemplate(table, date, format)
      else if '%' !in table then NoPercentIsIdentity(table, date, format); ResolveTemplate(table, date, format)
      else ResolveTemplate(table, date, format)
    }

    /** `date($string)`; `date()` with no argument is `Date("")`. */
    method Date(s: string)
      modifies this`date
      ensures date == Some(s)
    {
      date := Some(s);
    }

    /** `fields($array)` replaces the projection. */
    method Fields(a: seq<string>)
      modifies this`fields
      ensures fields == a
    {
      fields := a;
    }

    /**
     * `where($array)` appends one fragment per entry and binds `where{i}`
     * for each non-null value, counting from 0 in every call.
     */
    method Where(m: seq<Entry>)
      modifies this`whereFragments, this`parameters
      ensures whereFragments == old(whereFragments) + WhereFragments(m)
      ensures parameters == old(parameters) + WhereBindings(m)
    {
      var i := 0;
      while i < |m|
        invariant 0 <= i <= |m|
        invariant whereFragments == old(whereFragments) + WhereFragments(m[..i])
        invariant parameters == old(parameters) + WhereBindings(m[..i])
      {
        var e := m[i];
        ghost var before := whereFragments;
        if e.value == Null {
          whereFragments := whereFragments + [" " + e.key + " NULL"];
        } else {
          whereFragments := whereFragments + [" " + e.key + " @where" + NatToString(i)];
          parameters := parameters["where" + NatToString(i) := e.value];
        }
        assert whereFragments == before + [WhereFragment(e, i)];
        assert m[..i + 1][..i] == m[..i];
        assert WhereFragments(m[..i + 1]) == WhereFragments(m[..i]) + [WhereFragment(e, i)];
        i := i + 1;
      }
      assert m[..|m|] == m;
    }

    /**
     * `between($array)` appends one BETWEEN fragment per entry and binds
     * `between{i}0` to `value[0]` and `between{i}1` to `value[1]`.
     */
    method Between(m: seq<Entry>)
      modifies this`whereFragments, this`parameters
      ensures whereFragments == old(whereFragments) + BetweenFragments(m)
      ensures parameters == old(parameters) + BetweenBindings(m)
    {
      var i := 0;
      while i < |m|
        invariant 0 <= i <= |m|
        invariant whereFragments == old(whereFragments) + BetweenFragments(m[..i])
        invariant parameters == old(parameters) + BetweenBindings(m[..i])
      {
        var e := m[i];
        var n := NatToString(i);
        whereFragments := whereFragments + [" " + e.key + " BETWEEN @between" + n + "0 AND @between" + n + "1"];
        parameters := parameters["between" + n + "0" := Offset(e.value, 0)];
        parameters := parameters["between" + n + "1" := Offset(e.value, 1)];
        assert m[..i + 1][..i] == m[..i];
        assert BetweenName(i, 0) == "between" + n + "0" && BetweenName(i, 1) == "between" + n + "1";
        ghost var earlier := BetweenBindings(m[..i]);
        UnionUpdate(old(parameters), earlier, BetweenName(i, 0), Offset(e.value, 0));
        UnionUpdate(old(parameters), earlier[BetweenName(i, 0) := Offset(e.value, 0)], BetweenName(i, 1), Offset(e.value, 1));
        i := i + 1;
      }
      assert m[..|m|] == m;
    }

    /** `group($array)` replaces the grouping by the columns, each in backticks, in order. */
    method Group(a: seq<string>)
      modifies this`group
      ensures |group| == |a|
      ensures forall k :: 0 <= k < |a| ==> group[k] == "`" + a[k] + "`"
    {
      var acc: seq<string> := [];
      for i := 0 to |a|
        invariant |acc| == i
        invariant forall k :: 0 <= k < i ==> acc[k] == "`" + a[k] + "`"
      {
        acc := acc + ["`" + a[i] + "`"];
      }
      group := acc;
    }

    /**
     * `order($array)` replaces the ordering by the accepted terms. A truthy
     * direction that is not a string makes `preg_match` throw a TypeError
     * before `_order` is assigned; `ok` is false then and nothing changes.
     */
    method Order(m: seq<Entry>) returns (ok: bool)
      modifies this`order
      ensures ok <==> DirectionsAreStrings(m)
      ensures ok ==> order == OrderTerms(m)
      ensures !ok ==> order == old(order)
    {
      var acc: seq<string> := [];
      var i := 0;
      while i < |m|
        invariant 0 <= i <= |m|
        invariant DirectionsAreStrings(m[..i])
        invariant acc == OrderTerms(m[..i])
        invariant order == old(order)
      {
        var e := m[i];
        var v := e.value;
        if !Truthy(v) {
          v := Str("ASC");
        }
        OrderTermsPrefix(m, i);
        if !v.Str? {
          assert CheckDirection(e.value).NotAString?;
          return false;
        }
        assert CheckDirection(e.value) == if MatchesAscDesc(v.s) then Accepted(v.s) else Dropped;
        if MatchesAscDesc(v.s) {
          acc := acc + ["`" + e.key + "` " + v.s];
        }
        i := i + 1;
      }
      assert m[..|m|] == m;
      order := acc;
      ok := true;
    }

    /** `limit($number)`. */
    method Limit(n: int)
      modifies this`limit
      ensures limit == n
    {
      limit := n;
    }

    /**
     * `find($type)`: 'all' is accepted as is; any other type needs a method
     * `find<Type>` among `finders` (PHP method names are case-insensitive),
     * and otherwise the call fails with BadMethodCallException. `finders` is
     * every method name of the table, so it holds `find` itself. The chosen
     * method is called with the undefined `$query`, that is null; when the
     * empty type selects `find` itself, the re-entered call reaches
     * `ucfirst(null)`, which strict types turn into a TypeError.
     */
    method Find(findType: string, finders: set<string>) returns (r: FindOutcome)
      requires "find" in finders
      ensures findType == "all" <==> r == FindAll
      ensures findType == "" <==> r == FinderTypeError
      ensures r.Dispatch? <==>
        findType != "all" && findType != ""
        && exists f :: f in finders && EqualsIgnoreCase(f, "find" + UcFirst(findType))
      ensures r.Dispatch? ==> r.finder == "find" + UcFirst(findType)
      ensures r.UnknownFinder? <==>
        findType != "all" && !exists f :: f in finders && EqualsIgnoreCase(f, "find" + UcFirst(findType))
      ensures r.UnknownFinder? ==> r.message == "Unknown finder method \"" + findType + "\""
    {
      if findType == "all" {
        return FindAll;
      }
      var finder := "find" + UcFirst(findType);
      assert findType == "" ==> finder == "find" && EqualsIgnoreCase("find", finder);
      if exists f :: f in finders && EqualsIgnoreCase(f, finder) {
        if EqualsIgnoreCase(finder, "find") {
          r := FinderTypeError;
        } else {
          r := Dispatch(finder);
        }
      } else {
        r := UnknownFinder("Unknown finder method \"" + findType + "\"");
      }
    }

    /**
     * `select()`: the SELECT part of the query; `dataSet` is the driver's
     * `getConfig('dataSet')`. None when resolving the table name throws.
     */
    method Select(dataSet: Value, format: DateFormatter) returns (s: Option<string>)
      ensures s.None? <==> GetTableName(format).None?
      ensures s.Some? ==> s.value == SelectClause(fields, Interpolate(dataSet), GetTableName(format).value)
    {
      var projection := "*";
      if |fields| > 0 {
        projection := Join(fields, ", ");
      }
      var tableName := GetTableName(format);
      if tableName.None? {
        return None;
      }
      s := Some("SELECT " + projection + " FROM `" + Interpolate(dataSet) + "." + tableName.value + "`");
    }

    /**
     * The tail of `all()`: the WHERE, GROUP BY, ORDER BY and LIMIT clauses
     * appended to `_query`, each only when present.
     */
    method AppendClauses()
      modifies this`query
      ensures query == old(query) + WhereClause(whereFragments) + GroupClause(group)
                       + OrderClause(order) + LimitClause(limit)
    {
      if |whereFragments| > 0 {
        ghost var prior := query;
        query := query + " WHERE ";
        query := query + Join(whereFragments, " AND");
        ConcatAssoc(prior, " WHERE ", Join(whereFragments, " AND"));
        assert query == prior + WhereClause(whereFragments);
      } else {
        ConcatEmpty(query);
      }
      ghost var upToWhere := query;
      if |group| > 0 {
        query := query + " GROUP BY ";
        query := query + Join(group, ", ");
        ConcatAssoc(upToWhere, " GROUP BY ", Join(group, ", "));
        assert query == upToWhere + GroupClause(group);
      } else {
        ConcatEmpty(query);
      }
      ghost var upToGroup := query;
      if |order| > 0 {
        query := query + " ORDER BY ";
        query := query + Join(order, ", ");
        ConcatAssoc(upToGroup, " ORDER BY ", Join(order, ", "));
        assert query == upToGroup + OrderClause(order);
      } else {
        ConcatEmpty(query);
      }
      ghost var upToOrder := query;
      if limit != 0 {
        query := query + " LIMIT " + IntToString(limit);
        ConcatAssoc(upToOrder, " LIMIT ", IntToString(limit));
        assert query == upToOrder + LimitClause(limit);
      } else {
        ConcatEmpty(query);
      }
    }

    /**
     * `all()`: `_query` becomes the SELECT followed by the clauses; None
     * when resolving the table name throws, and `_query` is then left as it
     * was.
     */
    method All(dataSet: Value, format: DateFormatter) returns (r: Option<RenderedQuery>)
      modifies this`query
      ensures r.None? <==> GetTableName(format).None?
      ensures r.None? ==> query == old(query)
      ensures r.Some? ==>
        && query == RenderSql(State(), Interpolate(dataSet), GetTableName(format).value)
        && r.value == RenderedQuery(query, parameters)
    {
      var select := Select(dataSet, format);
      if select.None? {
        return None;
      }
      query := select.value;
      AppendClauses();
      r := Some(RenderedQuery(query, parameters));
    }
  }

  lemma ExampleWhere()
    ensures WhereFragments([Entry("x", Int(1)), Entry("y", Null)]) == [" x @where0", " y NULL"]
    ensures WhereBindings([Entry("x", Int(1)), Entry("y", Null)]) == map["where0" := Int(1)]
  {
    var m := [Entry("x", Int(1)), Entry("y", Null)];
    assert NatToString(0) == "0";
    assert m[..1] == [Entry("x", Int(1))] && m[..1][..0] == [];
    assert WhereFragment(m[0], 0) == " x @where0";
    assert WhereFragment(m[1], 1) == " y NULL";
    assert WhereFragments(m[..1]) == [" x @where0"];
    assert m[..|m| - 1] == m[..1];
    assert WhereFragments(m) == WhereFragments(m[..1]) + [" y NULL"];
    assert WhereName(0) == "where0";
  }

  lemma ExampleOrder()
    ensures DirectionsAreStrings([Entry("a", Str(""))])
    ensures OrderTerms([Entry("a", Str(""))]) == ["`a` ASC"]
  {
    var o := [Entry("a", Str(""))];
    assert o[..0] == [];
    assert CheckDirection(Str("")) == Accepted("ASC") by {
      assert EqualsIgnoreCase("ASC", "ASC");
    }
    assert OrderTerm("a", "ASC") == "`a` ASC";
    assert OrderTerms(o) == OrderTerms(o[..0]) + ["`a` ASC"];
  }

  lemma ExampleSelectClause()
    ensures SelectClause(["a", "b"], "ds", "tbl") == "SELECT a, b FROM `ds.tbl`"
  {
    assert Join(["a", "b"], ", ") == "a, b";
  }

  lemma ExampleWhereClause()
    ensures WhereClause([" x @where0", " y NULL"]) == " WHERE  x @where0 AND y NULL"
  {
    assert Join([" x @where0", " y NULL"], " AND") == " x @where0 AND y NULL";
  }

  lemma ExampleLimitClause()
    ensures LimitClause(5) == " LIMIT 5"
  {
    assert IntToString(5) == "5";
  }

  lemma ExampleRender()
    ensures RenderSql(QueryState(["a", "b"], [" x @where0", " y NULL"], ["`a`"], ["`a` ASC"], 5), "ds", "tbl")
         == "SELECT a, b FROM `ds.tbl`" + " WHERE  x @where0 AND y NULL" + " GROUP BY `a`"
            + " ORDER BY `a` ASC" + " LIMIT 5"
  {
    ExampleSelectClause();
    ExampleWhereClause();
    ExampleLimitClause();
  }

  /**
   * A chain of builder calls: fields, where with a null value, group, an
   * empty order direction and a limit.
   */
  method BuildExample() returns (t: Table)
    ensures fresh(t) && t.table == "tbl" && t.date == None
    ensures t.State() == QueryState(["a", "b"], [" x @where0", " y NULL"], ["`a`"], ["`a` ASC"], 5)
    ensures t.parameters == map["where0" := Int(1)]
  {
    t := new Table("tbl");
    t.Fields(["a", "b"]);
    t.Where([Entry("x", Int(1)), Entry("y", Null)]);
    ExampleWhere();
    t.Group(["a"]);
    assert t.group[0] == "`" + "a" + "`" == "`a`";
    assert t.group == ["`a`"];
    var ok := t.Order([Entry("a", Str(""))]);
    ExampleOrder();
    t.Limit(5);
  }

  /** That chain rendered against dataset `ds`: the exact query text and bindings. */
  method ExampleQuery() returns (sql: string, params: map<string, Value>)
    ensures sql == "SELECT a, b FROM `ds.tbl`" + " WHERE  x @where0 AND y NULL" + " GROUP BY `a`"
                   + " ORDER BY `a` ASC" + " LIMIT 5"
    ensures params == map["where0" := Int(1)]
  {
    var t := BuildExample();
    var format: DateFormatter := (d, f) => None;
    NoPercentIsIdentity("tbl", None, format);
    ExampleRender();
    var r := t.All(Str("ds"), format);
    sql, params := "", map[];
    if r.Some? {
      sql, params := r.value.sql, r.value.parameters;
    }
  }
}
