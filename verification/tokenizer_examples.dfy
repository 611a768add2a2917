/**
 * Worked inputs from the tokenizers' own test modules, and `SELECT FROM users` carried
 * through tokenizer and parser, evaluated on the model. Each input is taken apart into
 * single recogniser steps, which are then chained into a run.
 */
module TokenizerExamples {
  import opened Optional
  import opened Ascii
  import opened Tokens
  import opened Lexing
  import Legacy = LegacyTokenizer
  import Sql = SqlTokenizer
  import LegacyParser
  import SqlParser

  // ---- which recogniser a loop iteration ends up using ----

  lemma {:induction false} LegacyTakesWhitespace(s: seq<char>, offset: nat)
    requires |s| > 0 && IsWhitespace(s[0])
    ensures Legacy.Next(s, offset) == ScanWhitespaceRun(s, offset)
  {
  }

  lemma {:induction false} LegacyTakesIdentifier(s: seq<char>, offset: nat)
    requires |s| > 0 && s[0] == '\'' && ScanIdentifier(s, offset).Scanned?
    ensures Legacy.Next(s, offset) == ScanIdentifier(s, offset)
  {
    assert ScanWhitespaceRun(s, offset).Rejected?;
    assert Legacy.ScanSpecial(s, offset).Rejected?;
  }

  /** Every recogniser before the keyword one declines `s`, a word of letters. */
  lemma {:induction false} LegacyDeclinesWord(s: seq<char>, offset: nat)
    requires |s| > 0 && IsAlphabetic(s[0]) && s[0] != '\''
    ensures Legacy.Next(s, offset) == ScanKeyword(Legacy.KEYWORDS, s, offset)
  {
    assert ScanWhitespaceRun(s, offset).Rejected?;
    assert Legacy.ScanSpecial(s, offset).Rejected?;
    assert ScanIdentifier(s, offset).Rejected?;
    assert !IsDigit(s[0]);
  }

  lemma {:induction false} CorrectedTakesWhitespace(s: seq<char>, offset: nat)
    requires |s| > 0 && IsWhitespace(s[0])
    ensures Sql.NextCorrected(s, offset) == ScanWhitespaceRun(s, offset)
  {
  }

  /** Every recogniser before the keyword one declines `s`, a word of letters. */
  lemma {:induction false} CorrectedDeclinesWord(s: seq<char>, offset: nat)
    requires |s| > 0 && IsAlphabetic(s[0]) && s[0] != '\''
    ensures Sql.NextCorrected(s, offset) == ScanKeyword(Sql.KEYWORDS, s, offset)
  {
    assert ScanWhitespaceRun(s, offset).Rejected?;
    assert Sql.ScanSpecial(s, offset).Rejected?;
    assert ScanIdentifier(s, offset).Rejected?;
    assert Sql.ScanString(s, offset).Rejected?;
    assert !IsDigit(s[0]);
  }

  // ---- chaining steps into a run ----

  /** One unrolling of the legacy loop. */
  lemma {:induction false} LegacyRunStep(s: seq<char>, pos: nat, t: Token, ts: seq<Token>)
    requires pos < |s| && t.span.end <= |s|
    requires Legacy.Next(s[pos..], pos) == Scanned(s[t.span.end..], t)
    requires Legacy.Run(s, t.span.end) == Lexed(ts)
    ensures Legacy.Run(s, pos) == Lexed([t] + ts)
  {
  }

  /** The last iteration of the legacy loop: one token reaching the end of the input. */
  lemma {:induction false} LegacyLastStep(s: seq<char>, pos: nat, t: Token)
    requires pos < |s| && t.span.end == |s|
    requires Legacy.Next(s[pos..], pos) == Scanned(s[t.span.end..], t)
    ensures Legacy.Run(s, pos) == Lexed([t])
  {
    assert [t] + [] == [t];
    LegacyRunStep(s, pos, t, []);
  }

  lemma {:induction false} LegacyTwoSteps(s: seq<char>, pos: nat, t1: Token, t2: Token)
    requires pos < t1.span.end < t2.span.end == |s|
    requires Legacy.Next(s[pos..], pos) == Scanned(s[t1.span.end..], t1)
    requires Legacy.Next(s[t1.span.end..], t1.span.end) == Scanned(s[t2.span.end..], t2)
    ensures Legacy.Run(s, pos) == Lexed([t1, t2])
  {
    LegacyLastStep(s, t1.span.end, t2);
    assert [t1] + [t2] == [t1, t2];
    LegacyRunStep(s, pos, t1, [t2]);
  }

  lemma {:induction false} LegacyThreeSteps(s: seq<char>, t0: Token, t1: Token, t2: Token)
    requires 0 < t0.span.end < t1.span.end < t2.span.end == |s|
    requires Legacy.Next(s[0..], 0) == Scanned(s[t0.span.end..], t0)
    requires Legacy.Next(s[t0.span.end..], t0.span.end) == Scanned(s[t1.span.end..], t1)
    requires Legacy.Next(s[t1.span.end..], t1.span.end) == Scanned(s[t2.span.end..], t2)
    ensures Legacy.Run(s, 0) == Lexed([t0, t1, t2])
  {
    LegacyTwoSteps(s, t0.span.end, t1, t2);
    assert [t0] + [t1, t2] == [t0, t1, t2];
    LegacyRunStep(s, 0, t0, [t1, t2]);
  }

  /** One unrolling of the corrected loop. */
  lemma {:induction false} CorrectedRunStep(s: seq<char>, pos: nat, t: Token, ts: seq<Token>)
    requires pos < |s| && t.span.end <= |s|
    requires Sql.NextCorrected(s[pos..], pos) == Scanned(s[t.span.end..], t)
    requires Sql.RunCorrected(s, t.span.end) == Lexed(ts)
    ensures Sql.RunCorrected(s, pos) == Lexed([t] + ts)
  {
  }

  /** The last iteration of the corrected loop: one token reaching the end of the input. */
  lemma {:induction false} CorrectedLastStep(s: seq<char>, pos: nat, t: Token)
    requires pos < |s| && t.span.end == |s|
    requires Sql.NextCorrected(s[pos..], pos) == Scanned(s[t.span.end..], t)
    ensures Sql.RunCorrected(s, pos) == Lexed([t])
  {
    assert [t] + [] == [t];
    CorrectedRunStep(s, pos, t, []);
  }

  lemma {:induction false} CorrectedTwoSteps(s: seq<char>, pos: nat, t1: Token, t2: Token)
    requires pos < t1.span.end < t2.span.end == |s|
    requires Sql.NextCorrected(s[pos..], pos) == Scanned(s[t1.span.end..], t1)
    requires Sql.NextCorrected(s[t1.span.end..], t1.span.end) == Scanned(s[t2.span.end..], t2)
    ensures Sql.RunCorrected(s, pos) == Lexed([t1, t2])
  {
    CorrectedLastStep(s, t1.span.end, t2);
    assert [t1] + [t2] == [t1, t2];
    CorrectedRunStep(s, pos, t1, [t2]);
  }

  lemma {:induction false} CorrectedThreeSteps(s: seq<char>, t0: Token, t1: Token, t2: Token)
    requires 0 < t0.span.end < t1.span.end < t2.span.end == |s|
    requires Sql.NextCorrected(s[0..], 0) == Scanned(s[t0.span.end..], t0)
    requires Sql.NextCorrected(s[t0.span.end..], t0.span.end) == Scanned(s[t1.span.end..], t1)
    requires Sql.NextCorrected(s[t1.span.end..], t1.span.end) == Scanned(s[t2.span.end..], t2)
    ensures Sql.RunCorrected(s, 0) == Lexed([t0, t1, t2])
  {
    CorrectedTwoSteps(s, t0.span.end, t1, t2);
    assert [t0] + [t1, t2] == [t0, t1, t2];
    CorrectedRunStep(s, 0, t0, [t1, t2]);
  }

  // ---- src/tokenizer.rs `test_tokenize_iden`: "Select   'id'" ----

  const IDENTIFIER_TEST_INPUT := "Select   'id'"
  const IDENTIFIER_TEST_TOKENS := [
    Token(Span(0, 6), KeywordToken(Select)),
    Token(Span(6, 9), Whitespace),
    Token(Span(9, 13), Identifier("id"))]

  /** First iteration: the keyword `Select`, matched without regard to case. */
  lemma {:induction false} LegacySelectStep(s: seq<char>)
    requires s == IDENTIFIER_TEST_INPUT
    ensures Legacy.Next(s[0..], 0) == Scanned(s[6..], IDENTIFIER_TEST_TOKENS[0])
  {
    assert s[0..] == s;
    assert s[0] == 'S' && s[1] == 'e' && s[2] == 'l' && s[3] == 'e' && s[4] == 'c' && s[5] == 't';
    assert StartsWithIgnoreCase(s, "select");
    LegacyDeclinesWord(s, 0);
  }

  /** Second iteration: the three spaces as one whitespace token. */
  lemma {:induction false} LegacySpaceStep(s: seq<char>)
    requires s == IDENTIFIER_TEST_INPUT
    ensures Legacy.Next(s[6..], 6) == Scanned(s[9..], IDENTIFIER_TEST_TOKENS[1])
  {
    var u := s[6..];
    assert u == "   'id'" && u[3..] == s[9..];
    assert IsWhitespace(u[0]) && IsWhitespace(u[1]) && IsWhitespace(u[2]) && !IsWhitespace(u[3]);
    assert LeadingRun(IsWhitespace, u) == 3;
    LegacyTakesWhitespace(u, 6);
  }

  /** The identifier recogniser applied to `'id'` at offset 9: the quotes are dropped from the name. */
  lemma {:induction false} QuotedId(u: seq<char>)
    requires u == "'id'"
    ensures ScanIdentifier(u, 9) == Scanned(u[4..], Token(Span(9, 13), Identifier("id")))
  {
    assert IdentifierTail("'") == Some(([], 0));
    assert "d'"[1..] == "'";
    assert IdentifierTail("d'").value.0 == ['d'] && IdentifierTail("d'").value.1 == 1;
    assert "id'"[1..] == "d'";
    assert IdentifierTail("id'").value.0 == ['i', 'd'] && IdentifierTail("id'").value.1 == 2;
    assert u[1..] == "id'";
  }

  /** Third iteration: the quoted identifier, quotes dropped from its name. */
  lemma {:induction false} LegacyIdentifierStep(s: seq<char>)
    requires s == IDENTIFIER_TEST_INPUT
    ensures Legacy.Next(s[9..], 9) == Scanned(s[13..], IDENTIFIER_TEST_TOKENS[2])
  {
    assert s[9..] == "'id'" && s[9..][4..] == s[13..];
    QuotedId(s[9..]);
    LegacyTakesIdentifier(s[9..], 9);
  }

  lemma {:induction false} LegacyIdentifierRun(s: seq<char>)
    requires s == IDENTIFIER_TEST_INPUT
    ensures Legacy.Tokenize(s) == Lexed(IDENTIFIER_TEST_TOKENS)
  {
    LegacySelectStep(s);
    LegacySpaceStep(s);
    LegacyIdentifierStep(s);
    var ts := IDENTIFIER_TEST_TOKENS;
    LegacyThreeSteps(s, ts[0], ts[1], ts[2]);
  }

  /** The legacy tokenizer reads a keyword, a whitespace run and a quoted identifier. */
  lemma {:induction false} LegacyIdentifierTest()
    ensures Legacy.Tokenize(IDENTIFIER_TEST_INPUT) == Lexed(IDENTIFIER_TEST_TOKENS)
  {
    LegacyIdentifierRun(IDENTIFIER_TEST_INPUT);
  }

  // ---- src/sql/tokenizer.rs `test_tokenize_keyword`: "SELECT INSERT" ----

  lemma {:induction false} CorrectedSelectStep(s: seq<char>)
    requires s == Sql.KEYWORD_TEST_INPUT
    ensures Sql.NextCorrected(s[0..], 0) == Scanned(s[6..], Sql.KEYWORD_TEST_TOKENS[0])
  {
    assert s[0..] == s;
    assert s[0] == 'S' && s[1] == 'E' && s[2] == 'L' && s[3] == 'E' && s[4] == 'C' && s[5] == 'T';
    assert StartsWithIgnoreCase(s, "select");
    CorrectedDeclinesWord(s, 0);
  }

  lemma {:induction false} CorrectedSpaceStep(s: seq<char>)
    requires s == Sql.KEYWORD_TEST_INPUT
    ensures Sql.NextCorrected(s[6..], 6) == Scanned(s[7..], Sql.KEYWORD_TEST_TOKENS[1])
  {
    var u := s[6..];
    assert u == " INSERT" && u[1..] == s[7..];
    assert IsWhitespace(u[0]) && !IsWhitespace(u[1]);
    assert LeadingRun(IsWhitespace, u) == 1;
    CorrectedTakesWhitespace(u, 6);
  }

  lemma {:induction false} InsertKeyword(u: seq<char>)
    requires u == "INSERT"
    ensures ScanKeyword(Sql.KEYWORDS, u, 7) == Scanned(u[6..], Token(Span(7, 13), KeywordToken(Insert)))
  {
    assert u[0] == 'I' && u[1] == 'N' && u[2] == 'S' && u[3] == 'E' && u[4] == 'R' && u[5] == 'T';
    assert StartsWithIgnoreCase(u, KeywordText(Insert)) && Insert in Sql.KEYWORDS;
  }

  lemma {:induction false} CorrectedInsertWord(u: seq<char>)
    requires u == "INSERT"
    ensures Sql.NextCorrected(u, 7) == Scanned(u[6..], Token(Span(7, 13), KeywordToken(Insert)))
  {
    InsertKeyword(u);
    CorrectedDeclinesWord(u, 7);
  }

  lemma {:induction false} CorrectedInsertStep(s: seq<char>)
    requires s == Sql.KEYWORD_TEST_INPUT
    ensures Sql.NextCorrected(s[7..], 7) == Scanned(s[13..], Sql.KEYWORD_TEST_TOKENS[2])
  {
    assert s[7..] == "INSERT" && s[7..][6..] == s[13..];
    CorrectedInsertWord(s[7..]);
  }

  lemma {:induction false} CorrectedKeywordRun(s: seq<char>)
    requires s == Sql.KEYWORD_TEST_INPUT
    ensures Sql.TokenizeCorrected(s) == Lexed(Sql.KEYWORD_TEST_TOKENS)
  {
    CorrectedSelectStep(s);
    CorrectedSpaceStep(s);
    CorrectedInsertStep(s);
    var ts := Sql.KEYWORD_TEST_TOKENS;
    CorrectedThreeSteps(s, ts[0], ts[1], ts[2]);
  }

  /** With the maximal-run whitespace recogniser the keyword test's expected tokens come out. */
  lemma {:induction false} CorrectedKeywordTest()
    ensures Sql.TokenizeCorrected(Sql.KEYWORD_TEST_INPUT) == Lexed(Sql.KEYWORD_TEST_TOKENS)
  {
    CorrectedKeywordRun(Sql.KEYWORD_TEST_INPUT);
  }

  // ---- `SELECT FROM users`, from text to a parser that never returns ----

  const SELECT_FROM_USERS_INPUT := "SELECT FROM users"

  /**
   * `s` is `SELECT FROM users`, stated piece by piece: the loop lemmas below take this form
   * so that the verifier does not evaluate the tokenizer on the whole literal.
   */
  predicate SpellsSelectFromUsers(s: seq<char>)
  {
    |s| == 17 && s[..12] == "SELECT FROM " && s[12..] == "users"
  }

  lemma {:induction false} SpelledInput(s: seq<char>)
    requires SpellsSelectFromUsers(s)
    ensures s == SELECT_FROM_USERS_INPUT
  {
    assert s == s[..12] + s[12..];
  }

  /** The characters the loop lemmas look at. */
  lemma {:induction false} SpelledSpaces(s: seq<char>)
    requires SpellsSelectFromUsers(s)
    ensures s[6] == ' ' && s[7] == 'F' && s[11] == ' ' && s[12] == 'u'
  {
    assert s[..12][6] == s[6] && s[..12][7] == s[7] && s[..12][11] == s[11];
    assert s[12..][0] == s[12];
  }

  lemma {:induction false} SpelledAscii(s: seq<char>)
    requires SpellsSelectFromUsers(s)
    ensures IsAscii(s)
  {
    SpelledInput(s);
  }

  /** A single whitespace character followed by a non-whitespace one is one whitespace token. */
  lemma {:induction false} LegacySingleSpace(s: seq<char>, pos: nat)
    requires pos + 1 < |s| && IsWhitespace(s[pos]) && !IsWhitespace(s[pos + 1])
    ensures Legacy.Next(s[pos..], pos) == Scanned(s[pos + 1..], Token(Span(pos, pos + 1), Whitespace))
  {
    var u := s[pos..];
    assert u[0] == s[pos] && u[1] == s[pos + 1] && u[1..] == s[pos + 1..];
    assert LeadingRun(IsWhitespace, u) == 1;
    LegacyTakesWhitespace(u, pos);
  }

  lemma {:induction false} CorrectedSingleSpace(s: seq<char>, pos: nat)
    requires pos + 1 < |s| && IsWhitespace(s[pos]) && !IsWhitespace(s[pos + 1])
    ensures Sql.NextCorrected(s[pos..], pos) == Scanned(s[pos + 1..], Token(Span(pos, pos + 1), Whitespace))
  {
    var u := s[pos..];
    assert u[0] == s[pos] && u[1] == s[pos + 1] && u[1..] == s[pos + 1..];
    assert LeadingRun(IsWhitespace, u) == 1;
    CorrectedTakesWhitespace(u, pos);
  }

  /** `SELECT` is read as a keyword by any list that holds it. */
  lemma {:induction false} SelectWord(s: seq<char>, candidates: seq<Keyword>)
    requires s == SELECT_FROM_USERS_INPUT && Select in candidates
    ensures ScanKeyword(candidates, s, 0) == Scanned(s[6..], Token(Span(0, 6), KeywordToken(Select)))
  {
    assert s[0] == 'S' && s[1] == 'E' && s[2] == 'L' && s[3] == 'E' && s[4] == 'C' && s[5] == 'T';
    assert StartsWithIgnoreCase(s, KeywordText(Select));
  }

  /** `FROM` is read as a keyword by any list that holds it. */
  lemma {:induction false} FromWord(u: seq<char>, candidates: seq<Keyword>)
    requires u == "FROM users" && From in candidates
    ensures ScanKeyword(candidates, u, 7) == Scanned(u[4..], Token(Span(7, 11), KeywordToken(From)))
  {
    assert u[0] == 'F' && u[1] == 'R' && u[2] == 'O' && u[3] == 'M';
    assert StartsWithIgnoreCase(u, KeywordText(From));
  }

  /** No keyword text starts with `u`, so the keyword recogniser declines `users`. */
  lemma {:induction false} UsersIsNoKeyword(u: seq<char>, candidates: seq<Keyword>)
    requires u == "users"
    ensures ScanKeyword(candidates, u, 12).Rejected?
  {
    assert ToLower(u[0]) == 'u';
    forall k: Keyword
      ensures !StartsWithIgnoreCase(u, KeywordText(k))
    {
      assert KeywordText(k)[0] != 'u';
    }
  }

  lemma {:induction false} LegacyUsersSelect(s: seq<char>)
    requires SpellsSelectFromUsers(s)
    ensures Legacy.Next(s[0..], 0) == Scanned(s[6..], SqlParser.SELECT_FROM_USERS[0])
  {
    SpelledInput(s);
    assert s[0..] == s;
    SelectWord(s, Legacy.KEYWORDS);
    LegacyDeclinesWord(s, 0);
  }

  lemma {:induction false} LegacyUsersFrom(s: seq<char>)
    requires SpellsSelectFromUsers(s)
    ensures Legacy.Next(s[7..], 7) == Scanned(s[11..], SqlParser.SELECT_FROM_USERS[2])
  {
    SpelledInput(s);
    var u := s[7..];
    assert u == "FROM users" && u[4..] == s[11..];
    FromWord(u, Legacy.KEYWORDS);
    LegacyDeclinesWord(u, 7);
  }

  lemma {:induction false} LegacyUsersStop(s: seq<char>)
    requires SpellsSelectFromUsers(s)
    ensures Legacy.Next(s[12..], 12).Rejected?
  {
    SpelledInput(s);
    assert s[12..] == "users";
    UsersIsNoKeyword(s[12..], Legacy.KEYWORDS);
    LegacyDeclinesWord(s[12..], 12);
  }

  lemma {:induction false} CorrectedUsersSelect(s: seq<char>)
    requires SpellsSelectFromUsers(s)
    ensures Sql.NextCorrected(s[0..], 0) == Scanned(s[6..], SqlParser.SELECT_FROM_USERS[0])
  {
    SpelledInput(s);
    assert s[0..] == s;
    SelectWord(s, Sql.KEYWORDS);
    CorrectedDeclinesWord(s, 0);
  }

  lemma {:induction false} CorrectedUsersFrom(s: seq<char>)
    requires SpellsSelectFromUsers(s)
    ensures Sql.NextCorrected(s[7..], 7) == Scanned(s[11..], SqlParser.SELECT_FROM_USERS[2])
  {
    SpelledInput(s);
    var u := s[7..];
    assert u == "FROM users" && u[4..] == s[11..];
    FromWord(u, Sql.KEYWORDS);
    CorrectedDeclinesWord(u, 7);
  }

  lemma {:induction false} CorrectedUsersStop(s: seq<char>)
    requires SpellsSelectFromUsers(s)
    ensures Sql.NextCorrected(s[12..], 12).Rejected?
  {
    SpelledInput(s);
    assert s[12..] == "users";
    UsersIsNoKeyword(s[12..], Sql.KEYWORDS);
    CorrectedDeclinesWord(s[12..], 12);
  }

  lemma {:induction false} HeadAndTail(ts: seq<Token>)
    requires ts != []
    ensures [ts[0]] + ts[1..] == ts
  {
    assert ([ts[0]] + ts[1..])[1..] == ts[1..];
  }

  /**
   * `ts` are what successive iterations of the loop take from `pos` on, after which an
   * iteration declines or the input ends.
   */
  predicate LegacyStepsFrom(s: seq<char>, pos: nat, ts: seq<Token>)
    requires pos <= |s|
    decreases ts
  {
    if ts == [] then
      pos == |s| || Legacy.Next(s[pos..], pos).Rejected?
    else
      && pos < |s|
      && pos < ts[0].span.end <= |s|
      && Legacy.Next(s[pos..], pos) == Scanned(s[ts[0].span.end..], ts[0])
      && LegacyStepsFrom(s, ts[0].span.end, ts[1..])
  }

  /** The loop returns exactly the tokens its iterations take. */
  lemma {:induction false} LegacyRunOfSteps(s: seq<char>, pos: nat, ts: seq<Token>)
    requires pos <= |s| && LegacyStepsFrom(s, pos, ts)
    ensures Legacy.Run(s, pos) == Lexed(ts)
    decreases ts, 1
  {
    if ts == [] {
      if pos < |s| {
        LegacyStopsAt(s, pos);
      }
    } else {
      LegacyRunOfStepsCons(s, pos, ts);
    }
  }

  lemma {:induction false} LegacyRunOfStepsCons(s: seq<char>, pos: nat, ts: seq<Token>)
    requires pos <= |s| && ts != [] && LegacyStepsFrom(s, pos, ts)
    ensures Legacy.Run(s, pos) == Lexed(ts)
    decreases ts, 0
  {
    var t, rest := ts[0], ts[1..];
    LegacyFirstStep(s, pos, ts);
    LegacyRunOfSteps(s, t.span.end, rest);
    HeadAndTail(ts);
    LegacyRunStep(s, pos, t, rest);
  }

  /** An iteration that declines ends the loop with no further tokens. */
  lemma {:induction false} LegacyStopsAt(s: seq<char>, pos: nat)
    requires pos < |s| && Legacy.Next(s[pos..], pos).Rejected?
    ensures Legacy.Run(s, pos) == Lexed([])
  {
  }

  /** The first iteration of a non-empty run of steps, and the steps after it. */
  lemma {:induction false} LegacyFirstStep(s: seq<char>, pos: nat, ts: seq<Token>)
    requires pos <= |s| && ts != [] && LegacyStepsFrom(s, pos, ts)
    ensures pos < ts[0].span.end <= |s|
    ensures Legacy.Next(s[pos..], pos) == Scanned(s[ts[0].span.end..], ts[0])
    ensures LegacyStepsFrom(s, ts[0].span.end, ts[1..])
  {
  }

  lemma {:induction false} LegacyUsersRun(s: seq<char>)
    requires SpellsSelectFromUsers(s)
    ensures Legacy.Tokenize(s) == Lexed(SqlParser.SELECT_FROM_USERS)
  {
    var ts := SqlParser.SELECT_FROM_USERS;
    SpelledSpaces(s);
    SpelledAscii(s);
    LegacyUsersSelect(s);
    LegacySingleSpace(s, 6);
    LegacyUsersFrom(s);
    LegacySingleSpace(s, 11);
    LegacyUsersStop(s);
    assert LegacyStepsFrom(s, 12, ts[4..]);
    assert LegacyStepsFrom(s, 11, ts[3..]);
    assert LegacyStepsFrom(s, 7, ts[2..]);
    assert LegacyStepsFrom(s, 6, ts[1..]);
    assert LegacyStepsFrom(s, 0, ts);
    LegacyRunOfSteps(s, 0, ts);
  }

  /**
   * `ts` are what successive iterations of the loop take from `pos` on, after which an
   * iteration declines or the input ends.
   */
  predicate CorrectedStepsFrom(s: seq<char>, pos: nat, ts: seq<Token>)
    requires pos <= |s|
    decreases ts
  {
    if ts == [] then
      pos == |s| || Sql.NextCorrected(s[pos..], pos).Rejected?
    else
      && pos < |s|
      && pos < ts[0].span.end <= |s|
      && Sql.NextCorrected(s[pos..], pos) == Scanned(s[ts[0].span.end..], ts[0])
      && CorrectedStepsFrom(s, ts[0].span.end, ts[1..])
  }

  /** The loop returns exactly the tokens its iterations take. */
  lemma {:induction false} CorrectedRunOfSteps(s: seq<char>, pos: nat, ts: seq<Token>)
    requires pos <= |s| && CorrectedStepsFrom(s, pos, ts)
    ensures Sql.RunCorrected(s, pos) == Lexed(ts)
    decreases ts, 1
  {
    if ts == [] {
      if pos < |s| {
        CorrectedStopsAt(s, pos);
      }
    } else {
      CorrectedRunOfStepsCons(s, pos, ts);
    }
  }

  lemma {:induction false} CorrectedRunOfStepsCons(s: seq<char>, pos: nat, ts: seq<Token>)
    requires pos <= |s| && ts != [] && CorrectedStepsFrom(s, pos, ts)
    ensures Sql.RunCorrected(s, pos) == Lexed(ts)
    decreases ts, 0
  {
    var t, rest := ts[0], ts[1..];
    CorrectedFirstStep(s, pos, ts);
    CorrectedRunOfSteps(s, t.span.end, rest);
    HeadAndTail(ts);
    CorrectedRunStep(s, pos, t, rest);
  }

  /** An iteration that declines ends the loop with no further tokens. */
  lemma {:induction false} CorrectedStopsAt(s: seq<char>, pos: nat)
    requires pos < |s| && Sql.NextCorrected(s[pos..], pos).Rejected?
    ensures Sql.RunCorrected(s, pos) == Lexed([])
  {
  }

  /** The first iteration of a non-empty run of steps, and the steps after it. */
  lemma {:induction false} CorrectedFirstStep(s: seq<char>, pos: nat, ts: seq<Token>)
    requires pos <= |s| && ts != [] && CorrectedStepsFrom(s, pos, ts)
    ensures pos < ts[0].span.end <= |s|
    ensures Sql.NextCorrected(s[pos..], pos) == Scanned(s[ts[0].span.end..], ts[0])
    ensures CorrectedStepsFrom(s, ts[0].span.end, ts[1..])
  {
  }

  lemma {:induction false} CorrectedUsersRun(s: seq<char>)
    requires SpellsSelectFromUsers(s)
    ensures Sql.TokenizeCorrected(s) == Lexed(SqlParser.SELECT_FROM_USERS)
  {
    var ts := SqlParser.SELECT_FROM_USERS;
    SpelledSpaces(s);
    SpelledAscii(s);
    CorrectedUsersSelect(s);
    CorrectedSingleSpace(s, 6);
    CorrectedUsersFrom(s);
    CorrectedSingleSpace(s, 11);
    CorrectedUsersStop(s);
    assert CorrectedStepsFrom(s, 12, ts[4..]);
    assert CorrectedStepsFrom(s, 11, ts[3..]);
    assert CorrectedStepsFrom(s, 7, ts[2..]);
    assert CorrectedStepsFrom(s, 6, ts[1..]);
    assert CorrectedStepsFrom(s, 0, ts);
    CorrectedRunOfSteps(s, 0, ts);
  }

  /**
   * `SELECT FROM users` end to end: both tokenizers read `SELECT`, a space, `FROM` and
   * a space and stop at `users`; both parsers then wait forever for a column at `FROM`.
   */
  lemma {:induction false} SelectFromUsersEndToEnd()
    ensures Legacy.Tokenize(SELECT_FROM_USERS_INPUT) == Lexed(LegacyParser.SELECT_FROM_USERS)
    ensures LegacyParser.Parse(Legacy.Tokenize(SELECT_FROM_USERS_INPUT).tokens) == LegacyParser.Hangs
    ensures Sql.TokenizeCorrected(SELECT_FROM_USERS_INPUT) == Lexed(SqlParser.SELECT_FROM_USERS)
    ensures SqlParser.Parse(Sql.TokenizeCorrected(SELECT_FROM_USERS_INPUT).tokens) == SqlParser.Hangs
  {
    var s := SELECT_FROM_USERS_INPUT;
    assert SpellsSelectFromUsers(s);
    LegacyUsersRun(s);
    CorrectedUsersRun(s);
    LegacyParser.SelectFromUsersHangs();
    SqlParser.SelectFromUsersHangs();
  }
}
