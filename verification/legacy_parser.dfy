/**
 * The first-generation parser, src/parser.rs: the only statement is `SELECT` with a
 * column list and a table name. `parse` propagates the first stage that fails.
 */
module LegacyParser {
  import opened Optional
  import opened Tokens
  import opened Grammar
  import Sql = SqlParser
  import Ast = SqlAst

  /** The columns read and the table they are read from. */
  datatype SelectStatement = SelectStatement(columns: seq<string>, table: string)

  datatype Statement = Select(select: SelectStatement)

  /** What `Parser::parse` does: a statement, `Err(Error::NoMatch)`, or no return at all. */
  datatype Outcome = Success(statement: Statement) | Failure | Hangs

  /**
   * `select_statement`: `SELECT` as the first token, the column list, `FROM` right after
   * it, then the table name.
   */
  function SelectStatementOf(ts: seq<Token>): (r: Parsed<SelectStatement>)
    ensures r.Parsed? ==> |ts| > 0 && ts[0].kind == KeywordToken(Keyword.Select) && |r.value.columns| > 0
    ensures r.Diverges? ==> |ts| > 0 && ts[0].kind == KeywordToken(Keyword.Select) && Columns(ts[1..]) == Diverges
  {
    match KeywordFirst(Keyword.Select, ts)
    case Parsed(afterSelect, _) =>
      (match Columns(afterSelect)
       case Parsed(afterColumns, columns) =>
         (match KeywordFirst(From, afterColumns)
          case Parsed(afterFrom, _) =>
            (match TableName(afterFrom)
             case Parsed(rest, table) => Parsed(rest, SelectStatement(columns, table))
             case _ => NoMatch)
          case _ => NoMatch)
       case NoMatch => NoMatch
       case Diverges => Diverges)
    case _ => NoMatch
  }

  /** `Parser::parse`: the `SELECT` statement, ignoring whatever follows it. */
  function Parse(ts: seq<Token>): (r: Outcome)
    ensures r.Success? ==> |ts| > 0 && ts[0].kind == KeywordToken(Keyword.Select)
    ensures r.Hangs? ==> |ts| > 0 && ts[0].kind == KeywordToken(Keyword.Select)
  {
    match SelectStatementOf(ts)
    case Parsed(_, s) => Success(Statement.Select(s))
    case NoMatch => Failure
    case Diverges => Hangs
  }

  /** Anything but a leading `SELECT` is rejected: there is no other statement in this generation. */
  lemma {:induction false} OnlySelect(ts: seq<Token>)
    requires |ts| == 0 || ts[0].kind != KeywordToken(Keyword.Select)
    ensures Parse(ts) == Failure
  {
  }

  /**
   * Round trip: `SELECT`, identifiers written as a comma list with any whitespace,
   * `FROM`, an optional whitespace token and a table identifier parse to those columns
   * of that table, whatever follows.
   */
  lemma {:induction false} SelectRoundTrip(sel: Token, p: seq<Token>, from: Token, w: seq<Token>, t: Token, rest: seq<Token>, columns: seq<string>)
    requires sel.kind == KeywordToken(Keyword.Select) && from.kind == KeywordToken(From) && t.kind.Identifier?
    requires |columns| > 0 && Significant(p) == Listed(Identifiers(columns))
    requires Sql.OptionalSpace(w)
    ensures Parse([sel] + p + [from] + w + [t] + rest) == Success(Statement.Select(SelectStatement(columns, t.kind.name)))
  {
    var ts := [sel] + p + [from] + w + [t] + rest;
    Sql.SelectRoundTrip(sel, p, from, w, t, rest, columns);
    SecondGenerationAgrees(ts);
    SelectionsInjective(Parse(ts).statement.select.columns, columns);
  }

  /** Distinct column lists give distinct selection lists. */
  lemma {:induction false} SelectionsInjective(a: seq<string>, b: seq<string>)
    requires Sql.Selections(a) == Sql.Selections(b)
    ensures a == b
  {
    var sa := Sql.Selections(a);
    assert |a| == |b|;
    forall i | 0 <= i < |a|
      ensures a[i] == b[i]
    {
      assert sa[i].column == a[i];
    }
  }

  /**
   * The second generation's `select_statement` reads exactly what this one reads: the
   * same outcome, and on success the same table and the same columns as selections
   * without aliases and no condition or pagination.
   */
  lemma {:induction false} SecondGenerationAgrees(ts: seq<Token>)
    ensures Parse(ts).Success? <==> Sql.SelectStatement(ts).Parsed?
    ensures Parse(ts).Hangs? <==> Sql.SelectStatement(ts).Diverges?
    ensures Parse(ts).Failure? <==> Sql.SelectStatement(ts).NoMatch?
    ensures Parse(ts).Success? ==>
      var s := Parse(ts).statement.select;
      Sql.SelectStatement(ts).value == Ast.SelectStatement(Sql.Selections(s.columns), s.table, None, None)
  {
  }

  /** The tokens of `SELECT FROM users`; the tokenizer stops at the unquoted `users`. */
  const SELECT_FROM_USERS := Sql.SELECT_FROM_USERS

  /** With no column before `FROM`, `parse` never returns, as in the second generation. */
  lemma {:induction false} SelectFromUsersHangs()
    ensures Parse(SELECT_FROM_USERS) == Hangs
  {
    Sql.SelectFromUsersHangs();
    SecondGenerationAgrees(SELECT_FROM_USERS);
  }
}
