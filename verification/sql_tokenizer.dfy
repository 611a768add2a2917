/**
 * The second-generation tokenizer, src/sql/tokenizer.rs. It adds double-quoted string
 * literals and the comparison operators, and builds `whitespace` and `special` from the
 * `take_while` and `tag` combinators.
 *
 * As written, `take_while` moves past each character before testing it, so it also
 * consumes the first rejected character and never fails. `whitespace` therefore matches
 * at every position and `Tokenizer::parse` produces nothing but whitespace tokens. The
 * `...Corrected` members model the loop with the maximal-run recogniser the file keeps
 * as commented-out code, which produces the token stream the file's `test_tokenize_keyword`
 * expects.
 */
module SqlTokenizer {
  import opened Optional
  import opened Ascii
  import opened Tokens
  import opened Lexing

  /** The keywords this generation tries, in its order. */
  const KEYWORDS: seq<Keyword> := [Select, Insert, From, Where, Values, Into]

  /** `ParserResult<O>`: the remaining input, the position reached and a value; or an error. */
  datatype LexResult<T> = Ok(rest: seq<char>, offset: nat, value: T) | Err(error: LexError)

  /**
   * `tag(lit)`: succeed exactly when `lit` is a prefix of the input, consuming it.
   * Input shorter than `lit` is `InputEnded`; a mismatch is `NoMatch`.
   */
  function Tag(lit: seq<char>, input: seq<char>, offset: nat): (r: LexResult<()>)
    ensures r.Ok? <==> lit <= input
    ensures r.Ok? ==> r.rest == input[|lit|..] && r.offset == offset + |lit|
    ensures r.Err? ==> r.error == (if |input| < |lit| then InputEnded else NoMatch)
  {
    if |lit| > |input| then Err(InputEnded)
    else if input[..|lit|] == lit then Ok(input[|lit|..], offset + |lit|, ())
    else Err(NoMatch)
  }

  /**
   * `take_while(check)`: walk the input, advancing past each character before testing it.
   * It never fails; it keeps the accepted run and also consumes the first rejected character.
   */
  function TakeWhile(check: char -> bool, input: seq<char>, offset: nat): (r: LexResult<string>)
    ensures r.Ok?
    ensures |r.value| <= |input| && r.value == input[..|r.value|]
    ensures forall i :: 0 <= i < |r.value| ==> check(r.value[i])
    ensures |r.value| < |input| ==> !check(input[|r.value|])
    ensures var consumed := if |r.value| < |input| then |r.value| + 1 else |input|;
      r.rest == input[consumed..] && r.offset == offset + consumed
    decreases |input|
  {
    if |input| == 0 then Ok(input, offset, [])
    else if check(input[0]) then
      var r := TakeWhile(check, input[1..], offset + 1);
      Ok(r.rest, r.offset, [input[0]] + r.value)
    else Ok(input[1..], offset + 1, [])
  }

  /**
   * `whitespace` as written: a whitespace token over whatever `take_while` consumed,
   * which is the leading whitespace run plus one more character when one follows.
   */
  function ScanWhitespace(input: seq<char>, offset: nat): (r: Scan)
    ensures r.Scanned? && r.token.kind == Whitespace
    ensures |input| > 0 ==> ConsumesPrefix(input, offset, r)
    ensures var k := LeadingRun(IsWhitespace, input);
      |r.rest| <= |input| && |input| - |r.rest| == (if k < |input| then k + 1 else k)
  {
    match TakeWhile(IsWhitespace, input, offset)
    case Ok(rest, end, _) => Scanned(rest, Token(Span(offset, end), Whitespace))
    case Err(e) => Rejected(e)
  }

  /** A `tag` whose success is reported as a token of `kind`. */
  function TagToken(lit: seq<char>, kind: TokenKind, input: seq<char>, offset: nat): (r: Scan)
    ensures r.Scanned? <==> lit <= input
    ensures r.Scanned? ==> r.rest == input[|lit|..] && r.token == Token(Span(offset, offset + |lit|), kind)
    ensures !r.Aborted?
  {
    match Tag(lit, input, offset)
    case Ok(rest, end, _) => Scanned(rest, Token(Span(offset, end), kind))
    case Err(e) => Rejected(e)
  }

  /** The first three alternatives of `special`: `,` `=` `;`. */
  function ScanPunctuation(input: seq<char>, offset: nat): (r: Scan)
    ensures ConsumesPrefix(input, offset, r) && ScansLexeme(input, r)
    ensures r.Scanned? <==> |input| > 0 && input[0] in ",=;"
    ensures r.Scanned? ==> |input| - |r.rest| == 1
    ensures r.Rejected? ==> r.error == NoMatch
    ensures !r.Aborted?
  {
    var comma := TagToken(",", Comma, input, offset);
    if comma.Scanned? then comma else
    var equals := TagToken("=", Equals, input, offset);
    if equals.Scanned? then equals else
    var semi := TagToken(";", SemiColon, input, offset);
    if semi.Scanned? then semi else
    Rejected(NoMatch)
  }

  /** The comparison alternatives of `special`, trying `>=` before `>` and `<=` before `<`. */
  function ScanComparison(input: seq<char>, offset: nat): (r: Scan)
    ensures ConsumesPrefix(input, offset, r) && ScansLexeme(input, r)
    ensures r.Scanned? <==> |input| > 0 && input[0] in "><"
    ensures r.Scanned? && (">=" <= input || "<=" <= input) ==> |input| - |r.rest| == 2
    ensures r.Scanned? && !(">=" <= input || "<=" <= input) ==> |input| - |r.rest| == 1
    ensures r.Rejected? ==> r.error == NoMatch
    ensures !r.Aborted?
  {
    var ge := TagToken(">=", GreaterThanEquals, input, offset);
    if ge.Scanned? then ge else
    var gt := TagToken(">", GreaterThan, input, offset);
    if gt.Scanned? then gt else
    var le := TagToken("<=", SmallerThanEquals, input, offset);
    if le.Scanned? then le else
    var lt := TagToken("<", SmallerThan, input, offset);
    if lt.Scanned? then lt else
    Rejected(NoMatch)
  }

  /**
   * `special`: `,` `=` `;` and the comparison operators, trying `>=` before `>` and
   * `<=` before `<`, so the two-character operators win.
   */
  function ScanSpecial(input: seq<char>, offset: nat): (r: Scan)
    ensures ConsumesPrefix(input, offset, r) && ScansLexeme(input, r)
    ensures r.Scanned? <==> |input| > 0 && input[0] in ",=;><"
    ensures r.Scanned? && (">=" <= input || "<=" <= input) ==> |input| - |r.rest| == 2
    ensures r.Scanned? && !(">=" <= input || "<=" <= input) ==> |input| - |r.rest| == 1
    ensures r.Rejected? ==> r.error == NoMatch
    ensures !r.Aborted?
  {
    var punctuation := ScanPunctuation(input, offset);
    if punctuation.Scanned? then punctuation else ScanComparison(input, offset)
  }

  /** The part of `string` after the opening quote: the text and the index of the closing quote. */
  function StringTail(s: seq<char>): (r: Option<(string, nat)>)
    ensures r.None? <==> '"' !in s
    ensures r.Some? ==>
      && r.value.1 < |s| && s[r.value.1] == '"'
      && r.value.0 == s[..r.value.1]
      && '"' !in r.value.0
    decreases |s|
  {
    if |s| == 0 then None
    else if s[0] == '"' then Some(([], 0))
    else
      match StringTail(s[1..])
      case None => None
      case Some((text, n)) => Some(([s[0]] + text, n + 1))
  }

  /**
   * `string`: a double-quoted literal whose text is exactly the characters between the
   * quotes. Input that does not start with a quote, or never closes it, is declined.
   */
  function ScanString(input: seq<char>, offset: nat): (r: Scan)
    ensures ConsumesPrefix(input, offset, r) && ScansLexeme(input, r)
    ensures r.Scanned? <==> |input| > 0 && input[0] == '"' && '"' in input[1..]
    ensures r.Scanned? ==> r.token.kind.StringLiteral?
    ensures r.Rejected? ==> r.error == NoMatch
    ensures !r.Aborted?
  {
    if |input| == 0 || input[0] != '"' then Rejected(NoMatch)
    else
      match StringTail(input[1..])
      case None => Rejected(NoMatch)
      case Some((text, n)) =>
        assert input[..n + 2] == ['"'] + text + ['"'];
        Scanned(input[n + 2..], Token(Span(offset, offset + n + 2), StringLiteral(text)))
  }

  /** One iteration of the `parse` loop as written. */
  function Next(input: seq<char>, offset: nat): (r: Scan)
    requires |input| > 0
    ensures ConsumesPrefix(input, offset, r)
    ensures r.Scanned? && r.token.kind == Whitespace
  {
    var ws := ScanWhitespace(input, offset);
    if ws.Scanned? then ws else
    var sp := ScanSpecial(input, offset);
    if sp.Scanned? then sp else
    var id := ScanIdentifier(input, offset);
    if id.Scanned? then id else
    var st := ScanString(input, offset);
    if st.Scanned? then st else
    var num := ScanNumber(input, offset);
    if !num.Rejected? then num else
    ScanKeyword(KEYWORDS, input, offset)
  }

  /** The `parse` loop as written, from position `pos`. */
  function Run(input: seq<char>, pos: nat): (r: Tokenized)
    requires pos <= |input|
    ensures r.Lexed?
    ensures Tiles(r.tokens, pos, |input|)
    ensures forall i :: 0 <= i < |r.tokens| ==> r.tokens[i].kind == Whitespace
    decreases |input| - pos
  {
    if pos == |input| then Lexed([])
    else
      match Next(input[pos..], pos)
      case Scanned(rest, t) =>
        assert rest == input[t.span.end..];
        (match Run(input, t.span.end)
         case Lexed(ts) =>
           assert ([t] + ts)[1..] == ts;
           Lexed([t] + ts)
         case Panicked(m) => Panicked(m))
      case Rejected(_) => Lexed([])
      case Aborted(m) => Panicked(m)
  }

  /**
   * `Tokenizer::parse` as written: it never aborts and never stops early, and every
   * token it produces is a whitespace token; together they cover the whole input.
   */
  function Tokenize(input: seq<char>): (r: Tokenized)
    requires IsAscii(input)
    ensures r.Lexed?
    ensures Tiles(r.tokens, 0, |input|)
    ensures forall i :: 0 <= i < |r.tokens| ==> r.tokens[i].kind == Whitespace
  {
    Run(input, 0)
  }

  /** The token stream the file's `test_tokenize_keyword` expects for `"SELECT INSERT"`. */
  const KEYWORD_TEST_INPUT := "SELECT INSERT"
  const KEYWORD_TEST_TOKENS := [
    Token(Span(0, 6), KeywordToken(Select)),
    Token(Span(6, 7), Whitespace),
    Token(Span(7, 13), KeywordToken(Insert))]

  /** As written, `parse` cannot produce the keyword test's expected tokens, or any keyword token. */
  lemma {:induction false} KeywordTestFailsAsWritten()
    ensures Tokenize(KEYWORD_TEST_INPUT) != Lexed(KEYWORD_TEST_TOKENS)
  {
    var r := Tokenize(KEYWORD_TEST_INPUT);
    assert r.Lexed? && r.tokens != [] ==> r.tokens[0].kind == Whitespace;
    assert KEYWORD_TEST_TOKENS[0].kind != Whitespace;
  }

  /** One iteration of the `parse` loop with the maximal-run `whitespace` recogniser. */
  function NextCorrected(input: seq<char>, offset: nat): (r: Scan)
    requires |input| > 0
    ensures ConsumesPrefix(input, offset, r) && ScansLexeme(input, r)
    ensures r.Scanned? ==> (r.token.kind == Whitespace <==> IsWhitespace(input[0]))
    ensures r.Scanned? && r.token.kind == Whitespace ==> r.rest == [] || !IsWhitespace(r.rest[0])
    ensures r.Aborted? ==> r.message == NUMBER_PANIC
  {
    var ws := ScanWhitespaceRun(input, offset);
    if ws.Scanned? then ws else
    var sp := ScanSpecial(input, offset);
    if sp.Scanned? then sp else
    var id := ScanIdentifier(input, offset);
    if id.Scanned? then id else
    var st := ScanString(input, offset);
    if st.Scanned? then st else
    var num := ScanNumber(input, offset);
    if !num.Rejected? then num else
    ScanKeyword(KEYWORDS, input, offset)
  }

  /**
   * Starting at `pos`, the corrected `parse` loop gets to position `q`: `q` is `pos`, or the iteration
   * at `pos` takes a token and the loop gets to `q` from where that token ends.
   */
  predicate CorrectedReaches(input: seq<char>, pos: nat, q: nat)
    requires pos <= |input|
    decreases |input| - pos
  {
    || pos == q
    || (pos < |input| &&
        match NextCorrected(input[pos..], pos)
        case Scanned(rest, t) =>
          assert rest == input[t.span.end..];
          CorrectedReaches(input, t.span.end, q)
        case _ => false)
  }

  /** The corrected `parse` loop from position `pos`. */
  function RunCorrected(input: seq<char>, pos: nat): (r: Tokenized)
    requires pos <= |input|
    ensures r.Lexed? ==>
      var end := EndOf(r.tokens, pos);
      && end <= |input|
      && Tiles(r.tokens, pos, end)
    ensures r.Panicked? ==> r.message == NUMBER_PANIC
    ensures r.Panicked? ==> exists q :: pos <= q < |input| && NextCorrected(input[q..], q).Aborted?
    decreases |input| - pos
  {
    if pos == |input| then Lexed([])
    else
      match NextCorrected(input[pos..], pos)
      case Scanned(rest, t) =>
        assert rest == input[t.span.end..];
        (match RunCorrected(input, t.span.end)
         case Lexed(ts) =>
           TilesCons(t, ts, pos);
           Lexed([t] + ts)
         case Panicked(m) => Panicked(m))
      case Rejected(_) => Lexed([])
      case Aborted(m) => Panicked(m)
  }

  /**
   * A run panics exactly when it gets to a position where the loop iteration aborts,
   * which is where a digit run overflows `u32`.
   */
  lemma {:induction false} RunCorrectedPanicsIff(input: seq<char>, pos: nat)
    requires pos <= |input|
    ensures RunCorrected(input, pos).Panicked? <==>
      exists q: nat :: CorrectedReaches(input, pos, q) && q < |input| && NextCorrected(input[q..], q).Aborted?
    decreases |input| - pos
  {
    if pos == |input| {
      forall q | CorrectedReaches(input, pos, q) ensures q == pos { }
    } else {
      match NextCorrected(input[pos..], pos)
      case Scanned(rest, t) =>
        assert rest == input[t.span.end..];
        assert RunCorrected(input, pos).Panicked? == RunCorrected(input, t.span.end).Panicked?;
        RunCorrectedPanicsIff(input, t.span.end);
        forall q | CorrectedReaches(input, t.span.end, q) ensures CorrectedReaches(input, pos, q) { }
        forall q | CorrectedReaches(input, pos, q) && q != pos ensures CorrectedReaches(input, t.span.end, q) { }
      case Rejected(_) =>
        forall q | CorrectedReaches(input, pos, q) ensures q == pos { }
      case Aborted(_) =>
        assert CorrectedReaches(input, pos, pos);
    }
  }

  /** A run that stops without panicking stops at the end of the input or where a loop iteration declines. */
  lemma {:induction false} RunCorrectedStops(input: seq<char>, pos: nat)
    requires pos <= |input|
    ensures RunCorrected(input, pos).Lexed? ==>
      var end := EndOf(RunCorrected(input, pos).tokens, pos);
      end < |input| ==> NextCorrected(input[end..], end).Rejected?
    decreases |input| - pos
  {
    if pos < |input| {
      var r := NextCorrected(input[pos..], pos);
      if r.Scanned? {
        var t := r.token;
        RunCorrectedStops(input, t.span.end);
        if RunCorrected(input, pos).Lexed? {
          var tail := RunCorrected(input, t.span.end).tokens;
          assert RunCorrected(input, pos).tokens == [t] + tail;
          assert EndOf([t] + tail, pos) == EndOf(tail, t.span.end);
        }
      }
    }
  }

  /** The token one corrected iteration produces at `pos` describes the input under its span. */
  lemma {:induction false} NextCorrectedDescribes(input: seq<char>, pos: nat)
    requires pos < |input|
    ensures var r := NextCorrected(input[pos..], pos);
      r.Scanned? ==> Describes(input, r.token)
  {
    var r := NextCorrected(input[pos..], pos);
    if r.Scanned? {
      var n := |input[pos..]| - |r.rest|;
      assert input[pos..][..n] == input[pos..r.token.span.end];
    }
  }

  /** Every token of a corrected run describes the input text under its span. */
  lemma {:induction false} RunCorrectedDescribes(input: seq<char>, pos: nat)
    requires pos <= |input|
    ensures RunCorrected(input, pos).Lexed? ==>
      var ts := RunCorrected(input, pos).tokens;
      forall i :: 0 <= i < |ts| ==> Describes(input, ts[i])
    decreases |input| - pos
  {
    if pos < |input| {
      var r := NextCorrected(input[pos..], pos);
      if r.Scanned? {
        var t := r.token;
        NextCorrectedDescribes(input, pos);
        RunCorrectedDescribes(input, t.span.end);
        if RunCorrected(input, pos).Lexed? {
          var ts := RunCorrected(input, pos).tokens;
          assert ts == [t] + RunCorrected(input, t.span.end).tokens;
          assert forall i :: 1 <= i < |ts| ==> ts[i] == RunCorrected(input, t.span.end).tokens[i - 1];
        }
      }
    }
  }

  /** A corrected run never puts two whitespace tokens side by side. */
  lemma {:induction false} RunCorrectedNoAdjacentWhitespace(input: seq<char>, pos: nat)
    requires pos <= |input|
    ensures RunCorrected(input, pos).Lexed? ==>
      var ts := RunCorrected(input, pos).tokens;
      && NoAdjacentWhitespace(ts)
      && (|ts| > 0 ==> (ts[0].kind == Whitespace <==> IsWhitespace(input[pos])))
    decreases |input| - pos
  {
    RunCorrectedStartsWithWhitespace(input, pos);
    if pos < |input| {
      var r := NextCorrected(input[pos..], pos);
      if r.Scanned? {
        RunCorrectedNoAdjacentWhitespace(input, r.token.span.end);
        RunCorrectedNoAdjacentWhitespaceStep(input, pos);
      }
    }
  }

  /** One iteration of the induction above: a taken token in front of a run without adjacent whitespace. */
  lemma {:induction false} RunCorrectedNoAdjacentWhitespaceStep(input: seq<char>, pos: nat)
    requires pos < |input| && NextCorrected(input[pos..], pos).Scanned?
    requires var end := NextCorrected(input[pos..], pos).token.span.end;
      RunCorrected(input, end).Lexed? ==>
        var tail := RunCorrected(input, end).tokens;
        && NoAdjacentWhitespace(tail)
        && (|tail| > 0 ==> (tail[0].kind == Whitespace <==> IsWhitespace(input[end])))
    ensures RunCorrected(input, pos).Lexed? ==> NoAdjacentWhitespace(RunCorrected(input, pos).tokens)
  {
    var r := NextCorrected(input[pos..], pos);
    var t := r.token;
    if RunCorrected(input, pos).Lexed? {
      assert r.rest == input[t.span.end..];
      assert RunCorrected(input, t.span.end).Lexed?;
      var tail := RunCorrected(input, t.span.end).tokens;
      assert RunCorrected(input, pos).tokens == [t] + tail;
      assert |tail| > 0 && t.kind == Whitespace ==> tail[0].kind != Whitespace by {
        if |tail| > 0 && t.kind == Whitespace {
          assert r.rest[0] == input[t.span.end];
        }
      }
      NoAdjacentCons(t, tail);
    }
  }

  /** The first token of a run is whitespace exactly when the run starts at a whitespace character. */
  lemma {:induction false} RunCorrectedStartsWithWhitespace(input: seq<char>, pos: nat)
    requires pos <= |input|
    ensures RunCorrected(input, pos).Lexed? && |RunCorrected(input, pos).tokens| > 0 ==>
      (RunCorrected(input, pos).tokens[0].kind == Whitespace <==> IsWhitespace(input[pos]))
  {
    if pos < |input| {
      assert input[pos..][0] == input[pos];
    }
  }

  /**
   * `Tokenizer::parse` with the maximal-run `whitespace`: tokens tile the input from 0
   * up to the first position where every recogniser declines, each describes its text,
   * and no two whitespace tokens are adjacent.
   */
  function TokenizeCorrected(input: seq<char>): (r: Tokenized)
    requires IsAscii(input)
    ensures r.Lexed? ==>
      var end := EndOf(r.tokens, 0);
      && end <= |input|
      && Tiles(r.tokens, 0, end)
      && (end < |input| ==> NextCorrected(input[end..], end).Rejected?)
      && (forall i :: 0 <= i < |r.tokens| ==> Describes(input, r.tokens[i]))
      && NoAdjacentWhitespace(r.tokens)
    ensures r.Panicked? ==> r.message == NUMBER_PANIC
    ensures r.Panicked? <==> exists q: nat :: CorrectedReaches(input, 0, q) && q < |input| && NextCorrected(input[q..], q).Aborted?
  {
    RunCorrectedPanicsIff(input, 0);
    RunCorrectedStops(input, 0);
    RunCorrectedDescribes(input, 0);
    RunCorrectedNoAdjacentWhitespace(input, 0);
    RunCorrected(input, 0)
  }

  /**
   * The spans `TokenizeCorrected` hands out follow the running offset: the first starts at 0, each
   * starts where the one before it ended, and none reaches past the input.
   */
  lemma {:induction false} CorrectedSpansContiguous(input: seq<char>)
    requires IsAscii(input)
    ensures TokenizeCorrected(input).Lexed? ==>
      var ts := TokenizeCorrected(input).tokens;
      && (|ts| > 0 ==> ts[0].span.start == 0)
      && (forall i :: 0 <= i < |ts| - 1 ==> ts[i].span.end == ts[i + 1].span.start)
      && (forall i :: 0 <= i < |ts| ==> ts[i].span.start < ts[i].span.end <= |input|)
  {
    var r := TokenizeCorrected(input);
    if r.Lexed? {
      TilesContiguous(r.tokens, 0, EndOf(r.tokens, 0));
    }
  }
}
