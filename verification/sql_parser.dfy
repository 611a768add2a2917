/**
 * The second-generation parser, src/sql/parser.rs: `parse` tries a `SELECT` statement
 * and then an `INSERT` statement over the token slice, ignoring whatever follows the
 * statement. Its list loops never return on some inputs; that outcome is `Hangs`.
 */
module SqlParser {
  import opened Optional
  import opened Tokens
  import opened Grammar
  import Ast = SqlAst

  /** What `Parser::parse` does: a statement, `Err(Error::NoMatch)`, or no return at all. */
  datatype Outcome = Success(statement: Ast.Statement) | Failure | Hangs

  /**
   * `insert_keyword`, `into_keyword`, `values_keyword`: skip at most one whitespace
   * token, then require the keyword.
   */
  function KeywordAfterSpace(kw: Keyword, ts: seq<Token>): (r: Parsed<()>)
    ensures !r.Diverges?
    ensures var p := SkipOneWhitespace(ts);
      r.Parsed? <==> |p| > 0 && p[0].kind == KeywordToken(kw)
    ensures r.Parsed? ==> r.rest == SkipOneWhitespace(ts)[1..]
  {
    var p := SkipOneWhitespace(ts);
    if |p| > 0 && p[0].kind == KeywordToken(kw) then Parsed(p[1..], ()) else NoMatch
  }

  /** The value a literal token carries. */
  function ValueOf(k: TokenKind): Ast.Value {
    match k
    case Integer(n) => Ast.Int(n)
    case StringLiteral(t) => Ast.StringValue(t)
    case _ => Ast.StringValue([])
  }

  /** The literal token kind that carries `v`. */
  function LiteralOf(v: Ast.Value): (k: TokenKind)
    ensures IsItem(ValueList, k) && ValueOf(k) == v
  {
    match v
    case StringValue(t) => StringLiteral(t)
    case Int(n) => Integer(n)
  }

  function ValuesOf(ks: seq<TokenKind>): (r: seq<Ast.Value>)
    ensures |r| == |ks|
    decreases |ks|
  {
    if |ks| == 0 then [] else [ValueOf(ks[0])] + ValuesOf(ks[1..])
  }

  /** The literal tokens that write `vs`, in order. */
  function Literals(vs: seq<Ast.Value>): (r: seq<TokenKind>)
    ensures |r| == |vs|
    ensures AllItems(ValueList, r)
    ensures ValuesOf(r) == vs
    decreases |vs|
  {
    if |vs| == 0 then []
    else
      var tail := Literals(vs[1..]);
      var r := [LiteralOf(vs[0])] + tail;
      assert r[1..] == tail;
      r
  }

  /** `values`: the comma-list loop over string and integer literals; no value is `NoMatch`. */
  function Values(ts: seq<Token>): (r: Parsed<seq<Ast.Value>>)
    ensures r.Parsed? ==> |r.value| > 0
    ensures r.Parsed? ==> |r.rest| <= |ts| && r.rest == ts[|ts| - |r.rest|..]
    ensures r.Parsed? ==> r.rest == [] || (r.rest[0].kind != Whitespace && r.rest[0].kind != Comma)
  {
    match ListLoop(ValueList, ts, [], true)
    case Stuck => Diverges
    case Ended(rest, items) =>
      if |items| == 0 then NoMatch else Parsed(rest, ValuesOf(items))
  }

  /** Each column becomes a selection without an alias. */
  function Selections(columns: seq<string>): (r: seq<Ast.Selection>)
    ensures |r| == |columns|
    ensures forall i :: 0 <= i < |r| ==> r[i] == Ast.Selection(columns[i], None)
  {
    seq(|columns|, i requires 0 <= i < |columns| => Ast.Selection(columns[i], None))
  }

  /**
   * `select_statement`: `SELECT` as the first token, the column list, `FROM` right
   * after it, then the table name. There is no `WHERE` and no pagination.
   */
  function SelectStatement(ts: seq<Token>): (r: Parsed<Ast.SelectStatement>)
    ensures r.Parsed? ==> |ts| > 0 && ts[0].kind == KeywordToken(Keyword.Select)
    ensures r.Parsed? ==> r.value.condition == None && r.value.pagination == None && |r.value.selections| > 0
    ensures r.Diverges? ==> |ts| > 0 && ts[0].kind == KeywordToken(Keyword.Select) && Columns(ts[1..]) == Diverges
  {
    match KeywordFirst(Keyword.Select, ts)
    case Parsed(afterSelect, _) =>
      (match Columns(afterSelect)
       case Parsed(afterColumns, columns) =>
         (match KeywordFirst(From, afterColumns)
          case Parsed(afterFrom, _) =>
            (match TableName(afterFrom)
             case Parsed(rest, table) => Parsed(rest, Ast.SelectStatement(Selections(columns), table, None, None))
             case _ => NoMatch)
          case _ => NoMatch)
       case NoMatch => NoMatch
       case Diverges => Diverges)
    case _ => NoMatch
  }

  /**
   * `insert_statement`: `INSERT`, `INTO`, the table name, `VALUES` and the value list;
   * the keywords may each follow one whitespace token. There is no column list.
   */
  function InsertStatement(ts: seq<Token>): (r: Parsed<Ast.InsertStatement>)
    ensures r.Parsed? ==> |SkipOneWhitespace(ts)| > 0 && SkipOneWhitespace(ts)[0].kind == KeywordToken(Keyword.Insert)
    ensures r.Parsed? ==> r.value.columns == None && |r.value.values| > 0
    ensures r.Diverges? ==> |SkipOneWhitespace(ts)| > 0 && SkipOneWhitespace(ts)[0].kind == KeywordToken(Keyword.Insert)
  {
    match KeywordAfterSpace(Keyword.Insert, ts)
    case Parsed(afterInsert, _) =>
      (match KeywordAfterSpace(Into, afterInsert)
       case Parsed(afterInto, _) =>
         (match TableName(afterInto)
          case Parsed(afterTable, table) =>
            (match KeywordAfterSpace(Keyword.Values, afterTable)
             case Parsed(afterValues, _) =>
               (match Values(afterValues)
                case Parsed(rest, values) => Parsed(rest, Ast.InsertStatement(table, None, values))
                case NoMatch => NoMatch
                case Diverges => Diverges)
             case _ => NoMatch)
          case _ => NoMatch)
       case _ => NoMatch)
    case _ => NoMatch
  }

  /**
   * `Parser::parse`: a `SELECT` statement if one parses, else an `INSERT` statement,
   * else `NoMatch`; a list loop that never ends makes the whole call hang.
   */
  function Parse(ts: seq<Token>): (r: Outcome)
    ensures r.Success? ==> r.statement.Select? || r.statement.Insert?
    ensures r.Success? && r.statement.Select? ==> |ts| > 0 && ts[0].kind == KeywordToken(Keyword.Select)
    ensures r.Success? && r.statement.Insert? ==>
      && |SkipOneWhitespace(ts)| > 0 && SkipOneWhitespace(ts)[0].kind == KeywordToken(Keyword.Insert)
      && SelectStatement(ts).NoMatch?
  {
    match SelectStatement(ts)
    case Parsed(_, s) => Success(Ast.Select(s))
    case Diverges => Hangs
    case NoMatch =>
      match InsertStatement(ts)
      case Parsed(_, s) => Success(Ast.Insert(s))
      case Diverges => Hangs
      case NoMatch => Failure
  }

  /** Zero or one whitespace tokens, the optional gap the keyword matchers skip. */
  predicate OptionalSpace(w: seq<Token>) {
    |w| <= 1 && (|w| == 1 ==> w[0].kind == Whitespace)
  }

  lemma {:induction false} SkipOptionalSpace(w: seq<Token>, ts: seq<Token>)
    requires OptionalSpace(w) && |ts| > 0 && ts[0].kind != Whitespace
    ensures SkipOneWhitespace(w + ts) == ts
  {
    if |w| == 1 {
      assert (w + ts)[1..] == ts;
    } else {
      assert w + ts == ts;
    }
  }

  /** A keyword after an optional gap is matched by the keyword matchers that skip one whitespace token. */
  lemma {:induction false} KeywordAfterGap(kw: Keyword, w: seq<Token>, k: Token, tail: seq<Token>)
    requires OptionalSpace(w) && k.kind == KeywordToken(kw)
    ensures KeywordAfterSpace(kw, w + [k] + tail) == Parsed(tail, ())
  {
    assert w + [k] + tail == w + ([k] + tail);
    SkipOptionalSpace(w, [k] + tail);
    assert ([k] + tail)[1..] == tail;
  }

  /** `table_name` reads an identifier after an optional gap, leaving `rest` less one leading whitespace token. */
  lemma {:induction false} TableNameReads(w: seq<Token>, t: Token, rest: seq<Token>)
    requires OptionalSpace(w) && t.kind.Identifier?
    ensures TableName(w + [t] + rest) == Parsed(SkipOneWhitespace(rest), t.kind.name)
  {
    SkipOptionalSpace(w, [t] + rest);
    assert w + [t] + rest == w + ([t] + rest);
    assert ([t] + rest)[1..] == rest;
  }

  /** The stages of `select_statement`, each reading from where the previous one stopped. */
  lemma {:induction false} SelectStages(ts: seq<Token>, afterColumns: seq<Token>, columns: seq<string>, rest: seq<Token>, table: string)
    requires |ts| > 0 && ts[0].kind == KeywordToken(Keyword.Select)
    requires Columns(ts[1..]) == Parsed(afterColumns, columns)
    requires |afterColumns| > 0 && afterColumns[0].kind == KeywordToken(From)
    requires TableName(afterColumns[1..]) == Parsed(rest, table)
    ensures SelectStatement(ts) == Parsed(rest, Ast.SelectStatement(Selections(columns), table, None, None))
  {
  }

  /** A slice starting with whitespace or `INSERT` is no `SELECT` statement. */
  lemma {:induction false} NotSelect(ts: seq<Token>)
    requires |ts| > 0 && (ts[0].kind == Whitespace || ts[0].kind == KeywordToken(Keyword.Insert))
    ensures SelectStatement(ts) == NoMatch
  {
  }

  /** The stages of `insert_statement` up to the value list. */
  lemma {:induction false} InsertStages(ts: seq<Token>, afterInsert: seq<Token>, afterInto: seq<Token>, afterTable: seq<Token>, table: string, afterValues: seq<Token>)
    requires KeywordAfterSpace(Keyword.Insert, ts) == Parsed(afterInsert, ())
    requires KeywordAfterSpace(Into, afterInsert) == Parsed(afterInto, ())
    requires TableName(afterInto) == Parsed(afterTable, table)
    requires KeywordAfterSpace(Keyword.Values, afterTable) == Parsed(afterValues, ())
    ensures Values(afterValues).Parsed? ==>
      InsertStatement(ts) == Parsed(Values(afterValues).rest, Ast.InsertStatement(table, None, Values(afterValues).value))
    ensures Values(afterValues).NoMatch? ==> InsertStatement(ts) == NoMatch
    ensures Values(afterValues).Diverges? ==> InsertStatement(ts) == Diverges
  {
  }

  lemma {:induction false} Regroup3<T>(a: seq<T>, b: seq<T>, c: seq<T>)
    ensures a + b + c == a + (b + c)
  {
  }

  lemma {:induction false} Regroup<T>(a: seq<T>, b: seq<T>, c: seq<T>, d: seq<T>)
    ensures a + b + c + d == a + (b + c + d)
  {
  }

  /** With no `SELECT` statement, `parse` reports what `insert_statement` finds. */
  lemma {:induction false} ParseFallsToInsert(ts: seq<Token>)
    requires SelectStatement(ts) == NoMatch
    ensures InsertStatement(ts).Parsed? ==> Parse(ts) == Success(Ast.Insert(InsertStatement(ts).value))
    ensures InsertStatement(ts).NoMatch? ==> Parse(ts) == Failure
    ensures InsertStatement(ts).Diverges? ==> Parse(ts) == Hangs
  {
  }

  /** The slice `w0 + [ins] + body` is no `SELECT` statement. */
  lemma {:induction false} GapInsertNotSelect(w0: seq<Token>, ins: Token, body: seq<Token>)
    requires OptionalSpace(w0) && ins.kind == KeywordToken(Keyword.Insert)
    ensures SelectStatement(w0 + [ins] + body) == NoMatch
  {
    var ts := w0 + [ins] + body;
    if |w0| == 1 { assert ts[0] == w0[0]; } else { assert ts[0] == ins; }
    NotSelect(ts);
  }

  /**
   * Round trip for `SELECT`: the keyword, identifiers written as a comma list with any
   * whitespace, `FROM`, an optional gap and a table identifier parse to the selections
   * of those columns from that table, whatever follows.
   */
  lemma {:induction false} SelectRoundTrip(sel: Token, p: seq<Token>, from: Token, w: seq<Token>, t: Token, rest: seq<Token>, columns: seq<string>)
    requires sel.kind == KeywordToken(Keyword.Select) && from.kind == KeywordToken(From) && t.kind.Identifier?
    requires |columns| > 0 && Significant(p) == Listed(Identifiers(columns))
    requires OptionalSpace(w)
    ensures var ts := [sel] + p + [from] + w + [t] + rest;
      && SelectStatement(ts) == Parsed(SkipOneWhitespace(rest), Ast.SelectStatement(Selections(columns), t.kind.name, None, None))
      && Parse(ts) == Success(Ast.Select(Ast.SelectStatement(Selections(columns), t.kind.name, None, None)))
  {
    var afterFrom := w + [t] + rest;
    var afterColumns := [from] + afterFrom;
    var ts := [sel] + p + [from] + w + [t] + rest;
    SelectLayout(sel, p, from, w, t, rest);
    ColumnsReadsList(p, afterColumns, columns);
    assert afterColumns[1..] == afterFrom;
    TableNameReads(w, t, rest);
    SelectStages(ts, afterColumns, columns, SkipOneWhitespace(rest), t.kind.name);
  }

  /** The layout of a `SELECT` round trip, regrouped as the stages read it. */
  lemma {:induction false} SelectLayout<T>(a: T, p: seq<T>, b: T, w: seq<T>, c: T, rest: seq<T>)
    ensures var ts := [a] + p + [b] + w + [c] + rest;
      |ts| > 0 && ts[0] == a && ts[1..] == p + ([b] + (w + [c] + rest))
  {
    var ts := [a] + p + [b] + w + [c] + rest;
    assert ts == [a] + (p + ([b] + (w + [c] + rest)));
  }

  /** `SELECT` whose first non-whitespace token after it is not an identifier hangs `parse`. */
  lemma {:induction false} SelectWithoutColumnsHangs(ts: seq<Token>)
    requires |ts| > 0 && ts[0].kind == KeywordToken(Keyword.Select)
    requires Significant(ts[1..]) != [] && !Significant(ts[1..])[0].Identifier?
    ensures Parse(ts) == Hangs
  {
    ListLoopStuckAtStart(ColumnList, ts[1..], []);
  }

  /**
   * The tokens of `SELECT FROM users`: the tokenizers stop silently at the unquoted
   * `users`, which is neither a keyword nor a quoted identifier.
   */
  const SELECT_FROM_USERS := [
    Token(Span(0, 6), KeywordToken(Keyword.Select)),
    Token(Span(6, 7), Whitespace),
    Token(Span(7, 11), KeywordToken(From)),
    Token(Span(11, 12), Whitespace)]

  /** `SELECT FROM users` never returns: the column loop waits forever at `FROM`. */
  lemma {:induction false} SelectFromUsersHangs()
    ensures Parse(SELECT_FROM_USERS) == Hangs
  {
    var ts := SELECT_FROM_USERS;
    assert ts[1..] == [ts[1]] + [ts[2]] + ts[3..];
    SignificantAppend([ts[1]] + [ts[2]], ts[3..]);
    SignificantAppend([ts[1]], [ts[2]]);
    SelectWithoutColumnsHangs(ts);
  }

  /**
   * `INSERT`, `INTO` and a table identifier, each after an optional gap, leave `parse`
   * to the `VALUES` keyword and the value list in `afterTable`.
   */
  lemma {:induction false} InsertHead(w0: seq<Token>, ins: Token, w1: seq<Token>, into: Token, w2: seq<Token>, t: Token, afterTable: seq<Token>)
    requires ins.kind == KeywordToken(Keyword.Insert) && into.kind == KeywordToken(Into) && t.kind.Identifier?
    requires OptionalSpace(w0) && OptionalSpace(w1) && OptionalSpace(w2)
    ensures var ts := w0 + [ins] + w1 + [into] + w2 + [t] + afterTable;
      var kv := KeywordAfterSpace(Keyword.Values, SkipOneWhitespace(afterTable));
      && (kv.Parsed? && Values(kv.rest).Parsed? ==>
            Parse(ts) == Success(Ast.Insert(Ast.InsertStatement(t.kind.name, None, Values(kv.rest).value))))
      && (kv.Parsed? && Values(kv.rest).NoMatch? ==> Parse(ts) == Failure)
  {
    var afterInto := w2 + [t] + afterTable;
    var afterInsert := w1 + [into] + afterInto;
    var ts := w0 + [ins] + afterInsert;
    assert ts == w0 + [ins] + w1 + [into] + w2 + [t] + afterTable by {
      Regroup(w0 + [ins] + w1 + [into], w2, [t], afterTable);
      Regroup(w0 + [ins], w1, [into], afterInto);
    }
    assert SelectStatement(ts) == NoMatch by {
      GapInsertNotSelect(w0, ins, afterInsert);
    }
    KeywordAfterGap(Keyword.Insert, w0, ins, afterInsert);
    KeywordAfterGap(Into, w1, into, afterInto);
    TableNameReads(w2, t, afterTable);
    var kv := KeywordAfterSpace(Keyword.Values, SkipOneWhitespace(afterTable));
    if kv.Parsed? {
      InsertStages(ts, afterInsert, afterInto, SkipOneWhitespace(afterTable), t.kind.name, kv.rest);
    }
    ParseFallsToInsert(ts);
  }

  /**
   * Round trip for `INSERT`: the keywords `INSERT`, `INTO`, a table identifier, `VALUES`
   * and literals written as a comma list, with up to one whitespace token before each
   * keyword (two before `VALUES`, one taken by the table name), parse to an insert of
   * those values into that table, with no column list.
   */
  lemma {:induction false} InsertRoundTrip(
    w0: seq<Token>, ins: Token, w1: seq<Token>, into: Token, w2: seq<Token>, t: Token,
    w3: seq<Token>, w4: seq<Token>, vals: Token, p: seq<Token>, rest: seq<Token>, values: seq<Ast.Value>)
    requires ins.kind == KeywordToken(Keyword.Insert) && into.kind == KeywordToken(Into)
    requires t.kind.Identifier? && vals.kind == KeywordToken(Keyword.Values)
    requires OptionalSpace(w0) && OptionalSpace(w1) && OptionalSpace(w2) && OptionalSpace(w3) && OptionalSpace(w4)
    requires |values| > 0 && Significant(p) == Listed(Literals(values))
    requires rest == [] || (rest[0].kind != Whitespace && rest[0].kind != Comma)
    ensures Parse(w0 + [ins] + w1 + [into] + w2 + [t] + w3 + w4 + [vals] + p + rest)
         == Success(Ast.Insert(Ast.InsertStatement(t.kind.name, None, values)))
  {
    var afterGap := w4 + [vals] + (p + rest);
    var afterTable := w3 + afterGap;
    var upToT := w0 + [ins] + w1 + [into] + w2 + [t];
    assert upToT + w3 + w4 + [vals] + p + rest == upToT + afterTable by {
      Regroup3(upToT + w3 + w4 + [vals], p, rest);
      Regroup(upToT + w3, w4, [vals], p + rest);
      Regroup3(upToT, w3, afterGap);
    }
    ValuesAfterTwoGaps(w3, w4, vals, p + rest);
    ValuesReadsList(p, rest, values);
    InsertHead(w0, ins, w1, into, w2, t, afterTable);
  }

  /**
   * `VALUES` after two optional gaps: `table_name` drops one whitespace token after the
   * name and `values_keyword` skips one more, whichever gap they come from.
   */
  lemma {:induction false} ValuesAfterTwoGaps(w3: seq<Token>, w4: seq<Token>, vals: Token, tail: seq<Token>)
    requires OptionalSpace(w3) && OptionalSpace(w4) && vals.kind == KeywordToken(Keyword.Values)
    ensures KeywordAfterSpace(Keyword.Values, SkipOneWhitespace(w3 + (w4 + [vals] + tail))) == Parsed(tail, ())
  {
    var afterGap := w4 + [vals] + tail;
    if |w3| == 1 {
      assert SkipOneWhitespace(w3 + afterGap) == afterGap by {
        assert (w3 + afterGap)[1..] == afterGap;
      }
      KeywordAfterGap(Keyword.Values, w4, vals, tail);
    } else if |w4| == 1 {
      assert SkipOneWhitespace(w3 + afterGap) == [vals] + tail by {
        assert w3 + afterGap == w4 + ([vals] + tail);
        assert (w4 + ([vals] + tail))[1..] == [vals] + tail;
      }
      KeywordAfterGap(Keyword.Values, [], vals, tail);
      assert [] + [vals] + tail == [vals] + tail;
    } else {
      assert w3 + afterGap == [vals] + tail;
      KeywordAfterGap(Keyword.Values, [], vals, tail);
      assert [] + [vals] + tail == [vals] + tail;
    }
  }

  /** Literals written as a comma list, followed by the end or a token that is neither whitespace nor a comma, read back. */
  lemma {:induction false} ValuesReadsList(p: seq<Token>, rest: seq<Token>, values: seq<Ast.Value>)
    requires |values| > 0 && Significant(p) == Listed(Literals(values))
    requires rest == [] || (rest[0].kind != Whitespace && rest[0].kind != Comma)
    ensures Values(p + rest) == Parsed(rest, values)
  {
    var ts := p + rest;
    var ks := Literals(values);
    ListedAlternates(ValueList, ks);
    assert ts[..|ts| - |rest|] == p && ts[|ts| - |rest|..] == rest;
    assert ListThenRest(ValueList, ts, rest, ks);
    ListLoopEndsIf(ValueList, ts, rest, ks);
  }

  /** `values` reports `NoMatch` exactly when nothing but whitespace follows. */
  lemma {:induction false} ValuesNoMatchIff(ts: seq<Token>)
    ensures Values(ts) == NoMatch <==> Significant(ts) == []
  {
    ListLoopEmptyIff(ValueList, ts);
  }

  /** `values` never returns exactly when, where a value is expected, a token is neither whitespace nor a literal. */
  lemma {:induction false} ValuesHangIff(ts: seq<Token>)
    ensures Values(ts) == Diverges <==> exists n :: 0 <= n < |ts| && StuckAt(ValueList, ts, n, true)
  {
    ListLoopStuckIff(ValueList, ts);
  }

  /** A statement that stops right after `VALUES` (or after only whitespace) is `NoMatch`. */
  lemma {:induction false} InsertWithoutValuesFails(
    w0: seq<Token>, ins: Token, w1: seq<Token>, into: Token, w2: seq<Token>, t: Token,
    w3: seq<Token>, vals: Token, tail: seq<Token>)
    requires ins.kind == KeywordToken(Keyword.Insert) && into.kind == KeywordToken(Into)
    requires t.kind.Identifier? && vals.kind == KeywordToken(Keyword.Values)
    requires OptionalSpace(w0) && OptionalSpace(w1) && OptionalSpace(w2) && OptionalSpace(w3)
    requires Significant(tail) == []
    ensures Parse(w0 + [ins] + w1 + [into] + w2 + [t] + w3 + [vals] + tail) == Failure
  {
    var afterTable := w3 + [vals] + tail;
    var upToT := w0 + [ins] + w1 + [into] + w2 + [t];
    assert upToT + w3 + [vals] + tail == upToT + afterTable by {
      Regroup(upToT, w3, [vals], tail);
    }
    NothingAfterValues(w3, vals, tail);
    InsertHead(w0, ins, w1, into, w2, t, afterTable);
  }

  /** `VALUES` after an optional gap, followed by nothing but whitespace, leaves `values` with `NoMatch`. */
  lemma {:induction false} NothingAfterValues(w3: seq<Token>, vals: Token, tail: seq<Token>)
    requires OptionalSpace(w3) && vals.kind == KeywordToken(Keyword.Values) && Significant(tail) == []
    ensures var kv := KeywordAfterSpace(Keyword.Values, SkipOneWhitespace(w3 + [vals] + tail));
      kv.Parsed? && Values(kv.rest).NoMatch?
  {
    var afterTable := w3 + [vals] + tail;
    var afterGap := [vals] + tail;
    assert SkipOneWhitespace(afterTable) == afterGap by {
      assert afterTable == w3 + afterGap;
      SkipOptionalSpace(w3, afterGap);
    }
    assert KeywordAfterSpace(Keyword.Values, afterGap) == Parsed(tail, ()) by {
      assert afterGap[0] == vals && afterGap[1..] == tail;
    }
    assert Values(tail) == NoMatch by {
      ValuesNoMatchIff(tail);
    }
  }
}
