/**
 * Resolution of a dated table-name template (`Table::getTableName`).
 *
 * The template is scanned for `%<char>` directives; the matched directives
 * are concatenated into one search string and the captured characters into
 * one date format. When a date is set, that search string is replaced by
 * the formatted date, otherwise by the wildcard `*`.
 */
module TableNames {
  import opened PhpStrings
  import opened PhpValues

  /**
   * `new DateTime(date)` followed by `->format(fmt)`: the formatted date,
   * or None when the date string cannot be parsed and the constructor
   * throws. Calendar semantics are not modelled.
   */
  type DateFormatter = (string, string) -> Option<string>

  /**
   * The characters captured by `preg_match_all("/%(.)/", t)`: matches are
   * leftmost and non-overlapping, and `.` matches anything but a newline.
   */
  function Captures(t: string): (r: seq<char>)
    ensures 2 * |r| <= |t|
    ensures '\n' !in r
    decreases |t|
  {
    if |t| < 2 then []
    else if t[0] == '%' && t[1] != '\n' then [t[1]] + Captures(t[2..])
    else Captures(t[1..])
  }

  /** The whole matches for the captured characters `fmt`, concatenated. */
  function Spell(fmt: seq<char>): (r: string)
    ensures |r| == 2 * |fmt|
    ensures |fmt| > 0 ==> r[0] == '%'
    decreases |fmt|
  {
    if fmt == [] then "" else ['%', fmt[0]] + Spell(fmt[1..])
  }

  /** `implode('', $matchs[0])`: the directive text that gets replaced. */
  function DirectiveText(t: string): (r: string)
    ensures 2 * |Captures(t)| == |r| <= |t|
  {
    Spell(Captures(t))
  }

  /** `if ($this->_date)`: unset, "" and "0" all mean "no date". */
  predicate DateIsSet(date: Option<string>) {
    date.Some? && Truthy(Str(date.value))
  }

  /**
   * `getTableName()` as a function of `_table` and `_date`; None when the
   * DateTime constructor throws.
   */
  function ResolveTemplate(template: string, date: Option<string>, format: DateFormatter): (r: Option<string>)
    ensures r.None? <==> DateIsSet(date) && format(date.value, Captures(template)).None?
  {
    var search := DirectiveText(template);
    if DateIsSet(date) then
      match format(date.value, Captures(template))
      case None => None
      case Some(formatted) => Some(ReplaceAll(template, search, formatted))
    else
      Some(ReplaceAll(template, search, "*"))
  }

  /** Literal text without '%' contributes no directive. */
  lemma {:induction false} CapturesSkipLiteral(prefix: string, rest: string)
    requires '%' !in prefix
    ensures Captures(prefix + rest) == Captures(rest)
    decreases |prefix|
  {
    if |prefix| > 0 {
      var t := prefix + rest;
      assert t[0] == prefix[0] != '%';
      if |t| >= 2 {
        assert t[1..] == prefix[1..] + rest;
        CapturesSkipLiteral(prefix[1..], rest);
      } else {
        assert rest == [] && prefix[1..] == [];
      }
    } else {
      assert prefix + rest == rest;
    }
  }

  /**
   * Scanning adjacent directives followed by literal text recovers exactly
   * their format characters.
   */
  lemma {:induction false} CapturesOfSpell(fmt: seq<char>, suffix: string)
    requires '\n' !in fmt && '%' !in suffix
    ensures Captures(Spell(fmt) + suffix) == fmt
    decreases |fmt|
  {
    if fmt == [] {
      CapturesSkipLiteral(suffix, "");
      assert Spell(fmt) + suffix == suffix + "";
    } else {
      var t := Spell(fmt) + suffix;
      assert t[0] == '%' && t[1] == fmt[0] && t[2..] == Spell(fmt[1..]) + suffix;
      CapturesOfSpell(fmt[1..], suffix);
    }
  }

  /**
   * A template with no `/%(.)/` match (no '%' at all, or only a '%' that
   * ends the template or stands before a newline, as in `t_%`) resolves to
   * itself whatever the date: the search text is empty and `str_replace`
   * leaves the subject alone. The only other outcome is the DateTime
   * constructor throwing on a set date.
   */
  lemma NoDirectiveIsIdentity(template: string, date: Option<string>, format: DateFormatter)
    requires Captures(template) == []
    ensures ResolveTemplate(template, date, format)
         == if DateIsSet(date) && format(date.value, "").None? then None else Some(template)
  {
    assert DirectiveText(template) == "";
  }

  /** The commonest case of the above: a template without any '%'. */
  lemma NoPercentIsIdentity(template: string, date: Option<string>, format: DateFormatter)
    requires '%' !in template
    ensures ResolveTemplate(template, date, format)
         == if DateIsSet(date) && format(date.value, "").None? then None else Some(template)
  {
    CapturesSkipLiteral(template, "");
    assert template + "" == template;
    NoDirectiveIsIdentity(template, date, format);
  }

  /** A lone '%' at the end, or one before a newline, is no directive. */
  lemma StrayPercentIsKept(format: DateFormatter)
    ensures ResolveTemplate("t_%", None, format) == Some("t_%")
    ensures ResolveTemplate("a%\n", None, format) == Some("a%\n")
  {
    assert Captures("t_%") == [] by {
      CapturesSkipLiteral("t_", "%");
      assert "t_" + "%" == "t_%";
    }
    NoDirectiveIsIdentity("t_%", None, format);
    assert Captures("a%\n") == [] by {
      CapturesSkipLiteral("a", "%\n");
      assert "a" + "%\n" == "a%\n";
    }
    NoDirectiveIsIdentity("a%\n", None, format);
  }

  /** A directive block between literal texts is replaced, the literal texts kept. */
  lemma ReplaceDirectiveBlock(prefix: string, search: string, suffix: string, replacement: string)
    requires |search| > 0 && search[0] == '%' && '%' !in prefix && '%' !in suffix
    ensures ReplaceAll(prefix + search + suffix, search, replacement) == prefix + replacement + suffix
  {
    assert prefix + search + suffix == prefix + (search + suffix);
    ReplaceAllSkipsPrefix(prefix, search + suffix, search, replacement);
    assert search <= search + suffix && (search + suffix)[|search|..] == suffix;
    ReplaceAllAbsent(suffix, search, replacement);
  }

  /**
   * The usual sharded template, literal text around a block of directives
   * (`events_%Y%m%d_v2`): without a date the block becomes `*`, with a date
   * it becomes its formatting under exactly those directive characters, and
   * the literal text is kept either way.
   */
  lemma ShardedTemplate(prefix: string, fmt: seq<char>, suffix: string, date: Option<string>, format: DateFormatter)
    requires '%' !in prefix && '%' !in suffix && '\n' !in fmt && |fmt| > 0
    ensures Captures(prefix + Spell(fmt) + suffix) == fmt
    ensures !DateIsSet(date) ==> ResolveTemplate(prefix + Spell(fmt) + suffix, date, format) == Some(prefix + "*" + suffix)
    ensures DateIsSet(date) && format(date.value, fmt).Some? ==>
              ResolveTemplate(prefix + Spell(fmt) + suffix, date, format)
              == Some(prefix + format(date.value, fmt).value + suffix)
  {
    var search := Spell(fmt);
    var t := prefix + search + suffix;
    assert t == prefix + (search + suffix);
    CapturesSkipLiteral(prefix, search + suffix);
    CapturesOfSpell(fmt, suffix);
    assert DirectiveText(t) == search;
    if DateIsSet(date) {
      match format(date.value, fmt)
      case None =>
      case Some(formatted) =>
        ReplaceDirectiveBlock(prefix, search, suffix, formatted);
    } else {
      ReplaceDirectiveBlock(prefix, search, suffix, "*");
    }
  }

  /** The scan of `prefix %c mid %d suffix` captures `c` and `d`. */
  lemma CapturesOfSplit(prefix: string, c: char, mid: string, d: char, suffix: string)
    requires '%' !in prefix && '%' !in mid && '%' !in suffix
    requires c != '\n' && d != '\n'
    ensures Captures(prefix + ['%', c] + mid + ['%', d] + suffix) == [c, d]
  {
    var tail := ['%', d] + suffix;
    var s1 := ['%', c] + (mid + tail);
    assert prefix + ['%', c] + mid + ['%', d] + suffix == prefix + s1;
    CapturesSkipLiteral(prefix, s1);
    assert s1[0] == '%' && s1[1] == c && s1[2..] == mid + tail;
    assert Captures(s1) == [c] + Captures(mid + tail);
    CapturesSkipLiteral(mid, tail);
    assert tail[0] == '%' && tail[1] == d && tail[2..] == suffix;
    assert Captures(tail) == [d] + Captures(suffix);
    CapturesSkipLiteral(suffix, "");
    assert suffix + "" == suffix;
  }

  /** `%c%d` does not occur in `prefix %c mid %d suffix` when `mid` is not empty. */
  lemma SplitBlockAbsent(prefix: string, c: char, mid: string, d: char, suffix: string, x: string)
    requires '%' !in prefix && '%' !in mid && '%' !in suffix && |mid| > 0
    requires c != '%' && d != '%'
    ensures var t := prefix + ['%', c] + mid + ['%', d] + suffix;
      ReplaceAll(t, ['%', c, '%', d], x) == t
  {
    var search := ['%', c, '%', d];
    var tail := ['%', d] + suffix;
    var s1 := ['%', c] + mid + tail;
    assert prefix + ['%', c] + mid + ['%', d] + suffix == prefix + s1;
    ReplaceAllSkipsPrefix(prefix, s1, search, x);
    assert s1[2] == mid[0] != '%';
    assert s1[1..] == ([c] + mid) + tail;
    ReplaceAllSkipsPrefix([c] + mid, tail, search, x);
    assert ReplaceAll(s1, search, x) == ['%'] + ReplaceAll(s1[1..], search, x);
    ReplaceAllAbsent([d] + suffix, search, x);
    assert !(search <= tail) by {
      if |tail| >= 3 {
        assert tail[2] == suffix[0] != '%';
      }
    }
    assert tail[1..] == [d] + suffix;
    assert ReplaceAll(tail, search, x) == tail;
    assert s1 == ['%'] + (([c] + mid) + tail);
  }

  /**
   * The directive text is replaced as one block: when two directives are
   * separated by literal text (`a%Yb%m`), their joined text `%Y%m` never
   * occurs, and the template comes back with its directives still in it,
   * whatever the date (unless the DateTime constructor throws).
   */
  lemma SplitDirectivesAreKept(prefix: string, c: char, mid: string, d: char, suffix: string,
                               date: Option<string>, format: DateFormatter)
    requires '%' !in prefix && '%' !in mid && '%' !in suffix && |mid| > 0
    requires c != '%' && c != '\n' && d != '%' && d != '\n'
    ensures var t := prefix + ['%', c] + mid + ['%', d] + suffix;
      && Captures(t) == [c, d]
      && ResolveTemplate(t, date, format)
         == if DateIsSet(date) && format(date.value, [c, d]).None? then None else Some(t)
  {
    var t := prefix + ['%', c] + mid + ['%', d] + suffix;
    CapturesOfSplit(prefix, c, mid, d, suffix);
    assert Spell([d]) == ['%', d] + Spell([]);
    assert [c, d][1..] == [d];
    assert DirectiveText(t) == ['%', c] + Spell([d]) == ['%', c, '%', d];
    if DateIsSet(date) {
      match format(date.value, [c, d])
      case None =>
      case Some(formatted) =>
        SplitBlockAbsent(prefix, c, mid, d, suffix, formatted);
    } else {
      SplitBlockAbsent(prefix, c, mid, d, suffix, "*");
    }
  }
}
