/**
 * Recogniser vocabulary shared by both tokenizer generations: the outcome of one
 * recogniser, what a recognised token's text looks like, and the recognisers the two
 * files define with the same code (`identifier`, `number`, the keyword prefix tests,
 * and the maximal-run `whitespace` of src/tokenizer.rs, which src/sql/tokenizer.rs
 * keeps as commented-out code).
 */
module Lexing {
  import opened Optional
  import opened Ascii
  import opened Tokens

  datatype LexError = InputEnded | NoMatch | UnknownKeyword(message: string)

  /** What one recogniser does at the current position: match, decline, or abort the process. */
  datatype Scan =
    | Scanned(rest: seq<char>, token: Token)
    | Rejected(error: LexError)
    | Aborted(message: string)

  /** What a whole tokenizer run does: return its tokens, or abort the process. */
  datatype Tokenized = Lexed(tokens: seq<Token>) | Panicked(message: string)

  const NUMBER_PANIC := "Failed to parse number. Probably too big"

  /** A match consumed a non-empty prefix of `input` and its token spans exactly that prefix. */
  predicate ConsumesPrefix(input: seq<char>, offset: nat, r: Scan) {
    r.Scanned? ==>
      && |r.rest| < |input|
      && r.rest == input[|input| - |r.rest|..]
      && r.token.span == Span(offset, offset + |input| - |r.rest|)
  }

  /** The characters `identifier` keeps in the name it reports. */
  predicate IsIdentChar(c: char) {
    IsAlphabetic(c) || c == '.'
  }

  /** `s` with every character other than letters and `.` dropped. */
  function KeepIdentChars(s: seq<char>): (r: string)
    ensures |r| <= |s|
    ensures forall i :: 0 <= i < |r| ==> IsIdentChar(r[i])
    decreases |s|
  {
    if |s| == 0 then [] else (if IsIdentChar(s[0]) then [s[0]] else []) + KeepIdentChars(s[1..])
  }

  function KeywordText(k: Keyword): string {
    match k
    case Select => "select"
    case From => "from"
    case Insert => "insert"
    case Into => "into"
    case Values => "values"
    case Where => "where"
  }

  /** Whether `text` is exactly what a recogniser consumes for a token of `kind`. */
  predicate Lexeme(text: seq<char>, kind: TokenKind) {
    match kind
    case Whitespace => |text| > 0 && forall i :: 0 <= i < |text| ==> IsWhitespace(text[i])
    case Comma => text == ","
    case Equals => text == "="
    case SemiColon => text == ";"
    case GreaterThan => text == ">"
    case GreaterThanEquals => text == ">="
    case SmallerThan => text == "<"
    case SmallerThanEquals => text == "<="
    case KeywordToken(k) => |text| == |KeywordText(k)| && StartsWithIgnoreCase(text, KeywordText(k))
    case Identifier(name) =>
      && |text| >= 2 && text[0] == '\'' && text[|text| - 1] == '\''
      && '\'' !in text[1..|text| - 1]
      && name == KeepIdentChars(text[1..|text| - 1])
    case StringLiteral(v) => text == ['"'] + v + ['"'] && '"' !in v
    case Integer(n) => |text| > 0 && AllDigits(text) && DecimalValue(text) == n as int
  }

  /** Token `t`'s span lies inside `input` and its kind describes the text under the span. */
  predicate Describes(input: seq<char>, t: Token) {
    t.span.start <= t.span.end <= |input| && Lexeme(input[t.span.start..t.span.end], t.kind)
  }

  /** A match's token kind describes the text it consumed. */
  predicate ScansLexeme(input: seq<char>, r: Scan) {
    r.Scanned? && |r.rest| <= |input| ==> Lexeme(input[..|input| - |r.rest|], r.token.kind)
  }

  /** The part of `identifier` after the opening quote: the kept name and the index of the closing quote. */
  function IdentifierTail(s: seq<char>): (r: Option<(string, nat)>)
    ensures r.None? <==> '\'' !in s
    ensures r.Some? ==>
      && r.value.1 < |s| && s[r.value.1] == '\''
      && '\'' !in s[..r.value.1]
      && r.value.0 == KeepIdentChars(s[..r.value.1])
    decreases |s|
  {
    if |s| == 0 then None
    else if s[0] == '\'' then Some(([], 0))
    else
      match IdentifierTail(s[1..])
      case None => None
      case Some((name, n)) =>
        assert s[..n + 1][1..] == s[1..][..n];
        Some(((if IsIdentChar(s[0]) then [s[0]] else []) + name, n + 1))
  }

  /**
   * `identifier`: a single-quoted name. The span covers both quotes; the name keeps
   * only letters and `.`; input that does not start with a quote, or never closes it,
   * is declined.
   */
  function ScanIdentifier(input: seq<char>, offset: nat): (r: Scan)
    ensures ConsumesPrefix(input, offset, r) && ScansLexeme(input, r)
    ensures r.Scanned? <==> |input| > 0 && input[0] == '\'' && '\'' in input[1..]
    ensures r.Scanned? ==> r.token.kind.Identifier?
    ensures r.Rejected? ==> r.error == NoMatch
    ensures !r.Aborted?
  {
    if |input| == 0 || input[0] != '\'' then Rejected(NoMatch)
    else
      match IdentifierTail(input[1..])
      case None => Rejected(NoMatch)
      case Some((name, n)) =>
        assert input[..n + 2][1..n + 1] == input[1..][..n];
        Scanned(input[n + 2..], Token(Span(offset, offset + n + 2), Identifier(name)))
  }

  /**
   * `number`: the maximal run of digits read as a `u32`. A leading non-digit is
   * declined; an empty digit run (empty input) or a value above `u32::MAX` fails the
   * `expect` and aborts the process.
   */
  function ScanNumber(input: seq<char>, offset: nat): (r: Scan)
    ensures ConsumesPrefix(input, offset, r) && ScansLexeme(input, r)
    ensures r.Rejected? <==> |input| > 0 && !IsDigit(input[0])
    ensures r.Rejected? ==> r.error == NoMatch
    ensures r.Aborted? ==> r.message == NUMBER_PANIC
    ensures !r.Rejected? ==>
      (r.Aborted? <==> |input| == 0 || DecimalValue(input[..LeadingRun(IsDigit, input)]) > UINT32_MAX)
    ensures r.Scanned? ==> r.token.kind.Integer?
    ensures r.Scanned? ==> r.rest == [] || !IsDigit(r.rest[0])
  {
    if |input| > 0 && !IsDigit(input[0]) then Rejected(NoMatch)
    else
      var k := LeadingRun(IsDigit, input);
      assert AllDigits(input[..k]);
      if k == 0 || DecimalValue(input[..k]) > UINT32_MAX then Aborted(NUMBER_PANIC)
      else Scanned(input[k..], Token(Span(offset, offset + k), Integer(DecimalValue(input[..k]) as uint32)))
  }

  /** A run of digits is as long as the digit prefix it starts with, when a non-digit or the end follows. */
  lemma {:induction false} DigitRunOfSpelling(s: seq<char>, rest: seq<char>)
    requires AllDigits(s)
    requires rest == [] || !IsDigit(rest[0])
    ensures LeadingRun(IsDigit, s + rest) == |s|
    ensures (s + rest)[..|s|] == s && (s + rest)[|s|..] == rest
  {
  }

  /** `number` reads back the decimal spelling of any `u32`, consuming exactly the spelling. */
  lemma {:induction false} NumberReadsDecimal(n: nat, rest: seq<char>, offset: nat)
    requires n <= UINT32_MAX
    requires rest == [] || !IsDigit(rest[0])
    ensures ScanNumber(DecimalString(n) + rest, offset)
         == Scanned(rest, Token(Span(offset, offset + |DecimalString(n)|), Integer(n as uint32)))
  {
    var s := DecimalString(n);
    DigitRunOfSpelling(s, rest);
    DecimalRoundTrip(n);
    assert (s + rest)[0] == s[0];
  }

  /** The decimal spelling of any number above `u32::MAX` makes `number` abort. */
  lemma {:induction false} NumberAbortsAboveMax(n: nat, rest: seq<char>, offset: nat)
    requires n > UINT32_MAX
    requires rest == [] || !IsDigit(rest[0])
    ensures ScanNumber(DecimalString(n) + rest, offset) == Aborted(NUMBER_PANIC)
  {
    var s := DecimalString(n);
    DigitRunOfSpelling(s, rest);
    DecimalRoundTrip(n);
    assert (s + rest)[0] == s[0];
  }

  /** No keyword's text is a prefix of another's, so at most one keyword matches. */
  lemma {:induction false} KeywordMatchUnique(s: seq<char>, a: Keyword, b: Keyword)
    requires StartsWithIgnoreCase(s, KeywordText(a)) && StartsWithIgnoreCase(s, KeywordText(b))
    ensures a == b
  {
    assert KeywordText(a)[0] == ToLower(s[0]) == KeywordText(b)[0];
    assert KeywordText(a)[2] == ToLower(s[2]) == KeywordText(b)[2];
  }

  /**
   * The keyword recogniser: try each candidate's lower-case text, in order, as a
   * case-insensitive prefix. There is no word-boundary test. When none matches the
   * source reports `UnknownKeyword("idk")`.
   */
  function ScanKeyword(candidates: seq<Keyword>, input: seq<char>, offset: nat): (r: Scan)
    ensures ConsumesPrefix(input, offset, r) && ScansLexeme(input, r)
    ensures !r.Aborted?
    ensures r.Rejected? ==> r.error == UnknownKeyword("idk")
    ensures r.Scanned? ==> r.token.kind.KeywordToken? && r.token.kind.keyword in candidates
    ensures forall k :: (k in candidates && StartsWithIgnoreCase(input, KeywordText(k)))
                 ==> (r.Scanned? && r.token.kind == KeywordToken(k))
    ensures r.Scanned? ==> StartsWithIgnoreCase(input, KeywordText(r.token.kind.keyword))
    decreases |candidates|
  {
    if |candidates| == 0 then Rejected(UnknownKeyword("idk"))
    else
      var text := KeywordText(candidates[0]);
      if StartsWithIgnoreCase(input, text) then
        assert forall k :: StartsWithIgnoreCase(input, KeywordText(k)) ==> k == candidates[0] by {
          forall k | StartsWithIgnoreCase(input, KeywordText(k)) {
            KeywordMatchUnique(input, k, candidates[0]);
          }
        }
        Scanned(input[|text|..], Token(Span(offset, offset + |text|), KeywordToken(candidates[0])))
      else
        ScanKeyword(candidates[1..], input, offset)
  }

  /** Every keyword is matched from a letter, so the keyword recogniser declines any other character. */
  lemma {:induction false} KeywordStartsWithLetter(candidates: seq<Keyword>, input: seq<char>, offset: nat)
    ensures ScanKeyword(candidates, input, offset).Scanned? ==> |input| > 0 && IsAlphabetic(input[0])
  {
    var r := ScanKeyword(candidates, input, offset);
    if r.Scanned? {
      var text := KeywordText(r.token.kind.keyword);
      assert IsAlphabetic(text[0]) by {
        match r.token.kind.keyword
        case Select =>
        case From =>
        case Insert =>
        case Into =>
        case Values =>
        case Where =>
      }
      assert ToLower(input[0]) == text[0];
    }
  }

  /**
   * Whitespace as src/tokenizer.rs recognises it: declined unless the first character
   * is whitespace, otherwise the maximal whitespace run. On empty input it returns an
   * empty token, which no tokenizer loop asks for.
   */
  function ScanWhitespaceRun(input: seq<char>, offset: nat): (r: Scan)
    ensures |input| > 0 ==> ConsumesPrefix(input, offset, r) && ScansLexeme(input, r)
    ensures r.Rejected? <==> |input| > 0 && !IsWhitespace(input[0])
    ensures r.Rejected? ==> r.error == NoMatch
    ensures !r.Aborted?
    ensures r.Scanned? ==> r.token.kind == Whitespace
    ensures r.Scanned? ==> r.rest == [] || !IsWhitespace(r.rest[0])
  {
    if |input| > 0 && !IsWhitespace(input[0]) then Rejected(NoMatch)
    else
      var k := LeadingRun(IsWhitespace, input);
      assert |input| - |input[k..]| == k;
      Scanned(input[k..], Token(Span(offset, offset + k), Whitespace))
  }

}
