/**
 * What the fluent builder of `Table` accumulates, stated as functions of its
 * inputs: the WHERE fragments and bound parameters that `where` and
 * `between` add, the terms `order` keeps, and the SQL text that `all`
 * assembles from the stored state.
 */
module QueryClauses {
  import opened PhpStrings
  import opened PhpValues

  /** Parameter name of the i-th entry of one `where` call. */
  function WhereName(i: nat): string {
    "where" + NatToString(i)
  }

  /** Parameter name of bound `bound` (0 low, 1 high) of the i-th entry of one `between` call. */
  function BetweenName(i: nat, bound: nat): string
    requires bound < 2
  {
    "between" + NatToString(i) + NatToString(bound)
  }

  lemma WhereNameInjective(a: nat, b: nat)
    ensures WhereName(a) == WhereName(b) <==> a == b
  {
    if WhereName(a) == WhereName(b) {
      assert WhereName(a)[5..] == NatToString(a);
      assert WhereName(b)[5..] == NatToString(b);
      NatToStringInjective(a, b);
    }
  }

  lemma BetweenNameInjective(a: nat, j: nat, b: nat, k: nat)
    requires j < 2 && k < 2
    ensures BetweenName(a, j) == BetweenName(b, k) <==> a == b && j == k
  {
    var s, t := BetweenName(a, j), BetweenName(b, k);
    if s == t {
      assert NatToString(j) == [Digit(j)] && NatToString(k) == [Digit(k)];
      assert s[|s| - 1] == Digit(j) && t[|t| - 1] == Digit(k);
      assert s[7..|s| - 1] == NatToString(a);
      assert t[7..|t| - 1] == NatToString(b);
      NatToStringInjective(a, b);
    }
  }

  /** No `where` parameter name is ever a `between` parameter name. */
  lemma WhereAndBetweenNamesDiffer(a: nat, b: nat, k: nat)
    requires k < 2
    ensures WhereName(a) != BetweenName(b, k)
  {
    assert WhereName(a)[0] == 'w' && BetweenName(b, k)[0] == 'b';
  }

  // ---------------------------------------------------------------- where

  /** The fragment `where` appends for entry `e` at position `i` of its argument. */
  function WhereFragment(e: Entry, i: nat): string {
    if e.value == Null then " " + e.key + " NULL" else " " + e.key + " @where" + NatToString(i)
  }

  /** The fragments one `where(m)` call appends, one per entry. */
  function WhereFragments(m: seq<Entry>): (r: seq<string>)
    ensures |r| == |m|
    decreases |m|
  {
    if m == [] then [] else WhereFragments(m[..|m| - 1]) + [WhereFragment(m[|m| - 1], |m| - 1)]
  }

  /** The parameters one `where(m)` call writes, applied in iteration order. */
  function WhereBindings(m: seq<Entry>): map<string, Value>
    decreases |m|
  {
    if m == [] then map[]
    else
      var e := m[|m| - 1];
      var earlier := WhereBindings(m[..|m| - 1]);
      if e.value == Null then earlier else earlier[WhereName(|m| - 1) := e.value]
  }

  /** One fragment per entry, in iteration order, numbered from 0 in each call. */
  lemma {:induction false} WhereFragmentsAt(m: seq<Entry>, k: nat)
    requires k < |m|
    ensures |WhereFragments(m)| == |m|
    ensures WhereFragments(m)[k] == WhereFragment(m[k], k)
    decreases |m|
  {
    var init := m[..|m| - 1];
    if k < |init| {
      WhereFragmentsAt(init, k);
    } else if |init| > 0 {
      WhereFragmentsAt(init, 0);
    }
  }

  /** Nothing but `where{k}` names for positions `k` of the argument is bound. */
  lemma {:induction false} WhereBindingsDomain(m: seq<Entry>, name: string)
    requires name in WhereBindings(m)
    ensures exists k | 0 <= k < |m| :: name == WhereName(k)
    decreases |m|
  {
    var n := |m| - 1;
    if name != WhereName(n) {
      WhereBindingsDomain(m[..n], name);
    }
  }

  /** `where{k}` is bound exactly when entry `k` is not null, and then to its value. */
  lemma {:induction false} WhereBindingsAt(m: seq<Entry>, k: nat)
    requires k < |m|
    ensures WhereName(k) in WhereBindings(m) <==> m[k].value != Null
    ensures m[k].value != Null ==> WhereBindings(m)[WhereName(k)] == m[k].value
    decreases |m|
  {
    var n := |m| - 1;
    var init := m[..n];
    if k < n {
      WhereBindingsAt(init, k);
      WhereNameInjective(k, n);
    } else if WhereName(n) in WhereBindings(init) {
      WhereBindingsDomain(init, WhereName(n));
      var j :| 0 <= j < n && WhereName(n) == WhereName(j);
      WhereNameInjective(j, n);
      assert false;
    }
  }

  /**
   * The counter restarts in every call: a second `where` whose first value
   * is not null rebinds `where0`, while the fragments of both calls refer to
   * `@where0`.
   */
  lemma WhereCounterRestarts(params: map<string, Value>, m1: seq<Entry>, m2: seq<Entry>)
    requires |m1| > 0 && |m2| > 0 && m1[0].value != Null && m2[0].value != Null
    ensures WhereFragments(m1)[0] == " " + m1[0].key + " @where0"
    ensures WhereFragments(m2)[0] == " " + m2[0].key + " @where0"
    ensures "where0" in WhereBindings(m2)
    ensures (params + WhereBindings(m1) + WhereBindings(m2))["where0"] == m2[0].value
  {
    WhereFragmentsAt(m1, 0);
    WhereFragmentsAt(m2, 0);
    WhereBindingsAt(m2, 0);
    assert WhereName(0) == "where0";
  }

  // -------------------------------------------------------------- between

  /** The fragment `between` appends for the entry with key `key` at position `i`. */
  function BetweenFragment(key: string, i: nat): string {
    " " + key + " BETWEEN @between" + NatToString(i) + "0 AND @between" + NatToString(i) + "1"
  }

  /** The fragments one `between(m)` call appends, one per entry. */
  function BetweenFragments(m: seq<Entry>): (r: seq<string>)
    ensures |r| == |m|
    decreases |m|
  {
    if m == [] then [] else BetweenFragments(m[..|m| - 1]) + [BetweenFragment(m[|m| - 1].key, |m| - 1)]
  }

  /** The parameters one `between(m)` call writes: `value[0]` and `value[1]` of each entry. */
  function BetweenBindings(m: seq<Entry>): map<string, Value>
    decreases |m|
  {
    if m == [] then map[]
    else
      var n := |m| - 1;
      BetweenBindings(m[..n])[BetweenName(n, 0) := Offset(m[n].value, 0)][BetweenName(n, 1) := Offset(m[n].value, 1)]
  }

  lemma {:induction false} BetweenFragmentsAt(m: seq<Entry>, k: nat)
    requires k < |m|
    ensures |BetweenFragments(m)| == |m|
    ensures BetweenFragments(m)[k] == BetweenFragment(m[k].key, k)
    decreases |m|
  {
    var init := m[..|m| - 1];
    if k < |init| {
      BetweenFragmentsAt(init, k);
    } else if |init| > 0 {
      BetweenFragmentsAt(init, 0);
    }
  }

  /** Both bounds of every entry are bound: `between{k}j` to `value[j]`. */
  lemma {:induction false} BetweenBindingsAt(m: seq<Entry>, k: nat, j: nat)
    requires k < |m| && j < 2
    ensures BetweenName(k, j) in BetweenBindings(m)
    ensures BetweenBindings(m)[BetweenName(k, j)] == Offset(m[k].value, j)
    decreases |m|
  {
    var n := |m| - 1;
    if k < n {
      var init := m[..n];
      BetweenBindingsAt(init, k, j);
      BetweenNameInjective(k, j, n, 0);
      BetweenNameInjective(k, j, n, 1);
    } else if j == 0 {
      BetweenNameInjective(n, 0, n, 1);
    }
  }

  /** Nothing but those names is bound. */
  lemma {:induction false} BetweenBindingsDomain(m: seq<Entry>, name: string)
    requires name in BetweenBindings(m)
    ensures exists k, j | 0 <= k < |m| && 0 <= j < 2 :: name == BetweenName(k, j)
    decreases |m|
  {
    var n := |m| - 1;
    if name != BetweenName(n, 0) && name != BetweenName(n, 1) {
      BetweenBindingsDomain(m[..n], name);
    }
  }

  // ---------------------------------------------------------------- order

  /** What `order` makes of one direction value. */
  datatype Direction =
    | Accepted(dir: string)  // rendered, with the caller's spelling
    | Dropped                // silently skipped
    | NotAString             // preg_match rejects the argument with a TypeError

  /**
   * `preg_match("/^(ASC|DESC)$/i", s)`: ASCII case-insensitive, and `$` also
   * matches just before one final newline.
   */
  predicate MatchesAscDesc(s: string) {
    var body := if |s| > 0 && s[|s| - 1] == '\n' then s[..|s| - 1] else s;
    EqualsIgnoreCase(body, "ASC") || EqualsIgnoreCase(body, "DESC")
  }

  /** A falsy direction means "ASC"; then the direction must match the pattern. */
  function CheckDirection(v: Value): (r: Direction)
    ensures r.NotAString? <==> Truthy(v) && !v.Str?
    ensures r.Accepted? ==> MatchesAscDesc(r.dir) && (if Truthy(v) then v == Str(r.dir) else r.dir == "ASC")
  {
    var w := if Truthy(v) then v else Str("ASC");
    if !w.Str? then NotAString
    else if MatchesAscDesc(w.s) then Accepted(w.s)
    else Dropped
  }

  /**
   * The converse of `CheckDirection`'s contract: a falsy direction is always
   * accepted as `ASC`, and a truthy string is accepted exactly when it
   * matches the pattern.
   */
  lemma CheckDirectionAccepts(v: Value)
    ensures !Truthy(v) ==> CheckDirection(v) == Accepted("ASC")
    ensures Truthy(v) && v.Str? ==> (CheckDirection(v).Accepted? <==> MatchesAscDesc(v.s))
  {
    assert EqualsIgnoreCase("ASC", "ASC");
  }

  function OrderTerm(key: string, dir: string): string {
    "`" + key + "` " + dir
  }

  predicate DirectionsAreStrings(m: seq<Entry>) {
    forall k :: 0 <= k < |m| ==> !CheckDirection(m[k].value).NotAString?
  }

  /** The terms `order(m)` keeps, in input order. */
  function OrderTerms(m: seq<Entry>): (r: seq<string>)
    ensures |r| <= |m|
    decreases |m|
  {
    if m == [] then []
    else
      var e := m[|m| - 1];
      match CheckDirection(e.value)
      case Accepted(dir) => OrderTerms(m[..|m| - 1]) + [OrderTerm(e.key, dir)]
      case _ => OrderTerms(m[..|m| - 1])
  }

  /** How typical direction values are treated. */
  lemma DirectionExamples()
    ensures CheckDirection(Null) == Accepted("ASC")
    ensures CheckDirection(Str("")) == Accepted("ASC")
    ensures CheckDirection(Str("desc")) == Accepted("desc")
    ensures CheckDirection(Str("Asc\n")) == Accepted("Asc\n")
    ensures CheckDirection(Str("SIDEWAYS")) == Dropped
    ensures CheckDirection(Int(1)) == NotAString
  {
    assert EqualsIgnoreCase("desc", "DESC");
    assert "Asc\n"[..3] == "Asc";
    assert EqualsIgnoreCase("Asc", "ASC");
    assert !EqualsIgnoreCase("SIDEWAYS", "ASC") && !EqualsIgnoreCase("SIDEWAYS", "DESC");
  }

  /** A term is kept exactly when some entry's direction is accepted. */
  lemma {:induction false} OrderTermsMembers(m: seq<Entry>, t: string)
    ensures t in OrderTerms(m) <==>
      exists k :: 0 <= k < |m| && CheckDirection(m[k].value).Accepted?
                  && t == OrderTerm(m[k].key, CheckDirection(m[k].value).dir)
    decreases |m|
  {
    if m != [] {
      var n := |m| - 1;
      var init := m[..n];
      OrderTermsMembers(init, t);
      assert forall k :: 0 <= k < n ==> m[k] == init[k];
    }
  }

  /** The terms of a concatenation are the terms of each part, in order. */
  lemma {:induction false} OrderTermsConcat(a: seq<Entry>, b: seq<Entry>)
    ensures OrderTerms(a + b) == OrderTerms(a) + OrderTerms(b)
    decreases |b|
  {
    if b == [] {
      assert a + b == a;
    } else {
      var n := |b| - 1;
      assert (a + b)[..|a + b| - 1] == a + b[..n];
      assert (a + b)[|a + b| - 1] == b[n];
      OrderTermsConcat(a, b[..n]);
    }
  }

  /** An entry whose direction is rejected, wherever it stands, contributes no term. */
  lemma OrderDropsRejected(a: seq<Entry>, e: Entry, b: seq<Entry>)
    requires CheckDirection(e.value) == Dropped
    ensures OrderTerms(a + [e] + b) == OrderTerms(a + b)
  {
    OrderTermsConcat(a + [e], b);
    OrderTermsConcat(a, [e]);
    OrderTermsConcat(a, b);
    assert OrderTerms([e]) == [] by {
      assert [e][..0] == [];
    }
  }

  /** When every direction is accepted, every entry gives one term, in order. */
  lemma {:induction false} OrderKeepsAccepted(m: seq<Entry>, k: nat)
    requires forall i :: 0 <= i < |m| ==> CheckDirection(m[i].value).Accepted?
    requires k < |m|
    ensures |OrderTerms(m)| == |m|
    ensures OrderTerms(m)[k] == OrderTerm(m[k].key, CheckDirection(m[k].value).dir)
    decreases |m|
  {
    var init := m[..|m| - 1];
    if k < |init| {
      OrderKeepsAccepted(init, k);
    } else if |init| > 0 {
      OrderKeepsAccepted(init, 0);
    }
  }

  /**
   * One more entry adds its term when its direction is accepted, and nothing
   * otherwise; an entry whose direction is not a string rules the whole
   * input out.
   */
  lemma OrderTermsPrefix(m: seq<Entry>, i: nat)
    requires i < |m|
    ensures OrderTerms(m[..i + 1]) == OrderTerms(m[..i]) +
      (if CheckDirection(m[i].value).Accepted? then [OrderTerm(m[i].key, CheckDirection(m[i].value).dir)] else [])
    ensures DirectionsAreStrings(m[..i]) && !CheckDirection(m[i].value).NotAString? ==> DirectionsAreStrings(m[..i + 1])
    ensures CheckDirection(m[i].value).NotAString? ==> !DirectionsAreStrings(m)
  {
    assert m[..i + 1][..i] == m[..i];
  }

  // ------------------------------------------------------------ rendering

  /** What `all()` reads from the builder. */
  datatype QueryState = QueryState(
    fields: seq<string>,
    where: seq<string>,
    group: seq<string>,
    order: seq<string>,
    limit: int)

  function SelectClause(fields: seq<string>, dataSet: string, tableName: string): string {
    "SELECT " + (if |fields| > 0 then Join(fields, ", ") else "*") + " FROM `" + dataSet + "." + tableName + "`"
  }

  function WhereClause(where: seq<string>): string {
    if where == [] then "" else " WHERE " + Join(where, " AND")
  }

  function GroupClause(group: seq<string>): string {
    if group == [] then "" else " GROUP BY " + Join(group, ", ")
  }

  function OrderClause(order: seq<string>): string {
    if order == [] then "" else " ORDER BY " + Join(order, ", ")
  }

  function LimitClause(limit: int): string {
    if limit == 0 then "" else " LIMIT " + IntToString(limit)
  }

  /** The SQL text `all()` assembles: the clauses in their fixed order. */
  function RenderSql(s: QueryState, dataSet: string, tableName: string): string {
    SelectClause(s.fields, dataSet, tableName) + WhereClause(s.where) + GroupClause(s.group)
      + OrderClause(s.order) + LimitClause(s.limit)
  }

  /** A builder with nothing set selects every column of the table. */
  lemma RenderEmptyState(dataSet: string, tableName: string)
    ensures RenderSql(QueryState([], [], [], [], 0), dataSet, tableName)
         == "SELECT * FROM `" + dataSet + "." + tableName + "`"
  {
  }

  /** The LIMIT clause is absent for 0 and otherwise reads back as the limit. */
  lemma LimitClauseReadsBack(limit: int)
    ensures limit == 0 <==> LimitClause(limit) == ""
    ensures limit != 0 ==>
      var c := LimitClause(limit);
      && c[..7] == " LIMIT "
      && (c[7] == '-' ==> AllDigits(c[8..]))
      && (c[7] != '-' ==> AllDigits(c[7..]))
      && ParseInt(c[7..]) == limit
  {
    if limit != 0 {
      var c := LimitClause(limit);
      assert c[7..] == IntToString(limit);
      ParseIntToString(limit);
    }
  }

  /**
   * Fragments added by a later `where` or `between` join the earlier ones
   * with " AND" inside the one WHERE clause.
   */
  lemma WhereClauseAppends(earlier: seq<string>, later: seq<string>)
    requires |earlier| > 0 && |later| > 0
    ensures WhereClause(earlier + later) == WhereClause(earlier) + " AND" + Join(later, " AND")
  {
    JoinConcat(earlier, later, " AND");
  }
}
