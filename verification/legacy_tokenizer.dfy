/**
 * The first-generation tokenizer, src/tokenizer.rs: at each position try whitespace,
 * then `,` `=` `;`, then a quoted identifier, then a number, then a keyword; stop
 * silently at the first position where every recogniser declines.
 */
module LegacyTokenizer {
  import opened Ascii
  import opened Tokens
  import opened Lexing

  /** The keywords this generation tries, in its order. `Values` is declared but never tried. */
  const KEYWORDS: seq<Keyword> := [Select, Insert, From, Where]

  /** The token kinds this generation can produce. */
  predicate LegacyKind(k: TokenKind) {
    match k
    case KeywordToken(kw) => kw in KEYWORDS
    case Whitespace => true
    case Comma => true
    case Equals => true
    case SemiColon => true
    case Identifier(_) => true
    case Integer(_) => true
    case _ => false
  }

  /**
   * `special`: `,`, `=` and `;` as one-character tokens, anything else declined.
   * It slices `input[0..1]`, which panics on empty input; the loop never calls it so.
   */
  function ScanSpecial(input: seq<char>, offset: nat): (r: Scan)
    requires |input| > 0
    ensures ConsumesPrefix(input, offset, r) && ScansLexeme(input, r)
    ensures r.Scanned? <==> input[0] == ',' || input[0] == '=' || input[0] == ';'
    ensures r.Scanned? ==> |input| - |r.rest| == 1
    ensures r.Rejected? ==> r.error == NoMatch
    ensures !r.Aborted?
  {
    if input[0] == ',' then Scanned(input[1..], Token(Span(offset, offset + 1), Comma))
    else if input[0] == '=' then Scanned(input[1..], Token(Span(offset, offset + 1), Equals))
    else if input[0] == ';' then Scanned(input[1..], Token(Span(offset, offset + 1), SemiColon))
    else Rejected(NoMatch)
  }

  /** One iteration of the `parse` loop: the first recogniser that matches, in priority order. */
  function Next(input: seq<char>, offset: nat): (r: Scan)
    requires |input| > 0
    ensures ConsumesPrefix(input, offset, r) && ScansLexeme(input, r)
    ensures r.Scanned? ==> (r.token.kind == Whitespace <==> IsWhitespace(input[0]))
    ensures r.Scanned? && r.token.kind == Whitespace ==> r.rest == [] || !IsWhitespace(r.rest[0])
    ensures r.Scanned? ==> LegacyKind(r.token.kind)
    ensures r.Aborted? ==> r.message == NUMBER_PANIC
  {
    var ws := ScanWhitespaceRun(input, offset);
    if ws.Scanned? then ws
    else
      var sp := ScanSpecial(input, offset);
      if sp.Scanned? then sp
      else
        var id := ScanIdentifier(input, offset);
        if id.Scanned? then id
        else
          var num := ScanNumber(input, offset);
          if !num.Rejected? then num
          else ScanKeyword(KEYWORDS, input, offset)
  }

  /**
   * Starting at `pos`, the `parse` loop gets to position `q`: `q` is `pos`, or the iteration
   * at `pos` takes a token and the loop gets to `q` from where that token ends.
   */
  predicate Reaches(input: seq<char>, pos: nat, q: nat)
    requires pos <= |input|
    decreases |input| - pos
  {
    || pos == q
    || (pos < |input| &&
        match Next(input[pos..], pos)
        case Scanned(rest, t) =>
          assert rest == input[t.span.end..];
          Reaches(input, t.span.end, q)
        case _ => false)
  }

  /** The `parse` loop from position `pos` of `input` to the end or the first unrecognised character. */
  function Run(input: seq<char>, pos: nat): (r: Tokenized)
    requires pos <= |input|
    ensures r.Lexed? ==>
      var end := EndOf(r.tokens, pos);
      && end <= |input|
      && Tiles(r.tokens, pos, end)
    ensures r.Panicked? ==> r.message == NUMBER_PANIC
    ensures r.Panicked? ==> exists q :: pos <= q < |input| && Next(input[q..], q).Aborted?
    decreases |input| - pos
  {
    if pos == |input| then Lexed([])
    else
      match Next(input[pos..], pos)
      case Scanned(rest, t) =>
        assert rest == input[t.span.end..];
        (match Run(input, t.span.end)
         case Lexed(ts) =>
           TilesCons(t, ts, pos);
           Lexed([t] + ts)
         case Panicked(m) => Panicked(m))
      case Rejected(_) => Lexed([])
      case Aborted(m) => Panicked(m)
  }

  /**
   * A run panics exactly when it gets to a position where the loop iteration aborts,
   * which is where a digit run overflows `u32`.
   */
  lemma {:induction false} RunPanicsIff(input: seq<char>, pos: nat)
    requires pos <= |input|
    ensures Run(input, pos).Panicked? <==>
      exists q: nat :: Reaches(input, pos, q) && q < |input| && Next(input[q..], q).Aborted?
    decreases |input| - pos
  {
    if pos == |input| {
      forall q | Reaches(input, pos, q) ensures q == pos { }
    } else {
      match Next(input[pos..], pos)
      case Scanned(rest, t) =>
        assert rest == input[t.span.end..];
        assert Run(input, pos).Panicked? == Run(input, t.span.end).Panicked?;
        RunPanicsIff(input, t.span.end);
        forall q | Reaches(input, t.span.end, q) ensures Reaches(input, pos, q) { }
        forall q | Reaches(input, pos, q) && q != pos ensures Reaches(input, t.span.end, q) { }
      case Rejected(_) =>
        forall q | Reaches(input, pos, q) ensures q == pos { }
      case Aborted(_) =>
        assert Reaches(input, pos, pos);
    }
  }

  /** A run that stops without panicking stops at the end of the input or where a loop iteration declines. */
  lemma {:induction false} RunStops(input: seq<char>, pos: nat)
    requires pos <= |input|
    ensures Run(input, pos).Lexed? ==>
      var end := EndOf(Run(input, pos).tokens, pos);
      end < |input| ==> Next(input[end..], end).Rejected?
    decreases |input| - pos
  {
    if pos < |input| {
      var r := Next(input[pos..], pos);
      if r.Scanned? {
        var t := r.token;
        RunStops(input, t.span.end);
        if Run(input, pos).Lexed? {
          var tail := Run(input, t.span.end).tokens;
          assert Run(input, pos).tokens == [t] + tail;
          assert EndOf([t] + tail, pos) == EndOf(tail, t.span.end);
        }
      }
    }
  }

  /** The token one loop iteration produces at `pos` describes the input under its span. */
  lemma {:induction false} NextDescribes(input: seq<char>, pos: nat)
    requires pos < |input|
    ensures var r := Next(input[pos..], pos);
      r.Scanned? ==> Describes(input, r.token) && LegacyKind(r.token.kind)
  {
    var r := Next(input[pos..], pos);
    if r.Scanned? {
      var n := |input[pos..]| - |r.rest|;
      assert input[pos..][..n] == input[pos..r.token.span.end];
    }
  }

  /** Every token of a run describes the input text under its span and is of a kind this generation produces. */
  lemma {:induction false} RunDescribes(input: seq<char>, pos: nat)
    requires pos <= |input|
    ensures Run(input, pos).Lexed? ==>
      var ts := Run(input, pos).tokens;
      && (forall i :: 0 <= i < |ts| ==> Describes(input, ts[i]))
      && (forall i :: 0 <= i < |ts| ==> LegacyKind(ts[i].kind))
    decreases |input| - pos
  {
    if pos < |input| {
      var r := Next(input[pos..], pos);
      if r.Scanned? {
        var t := r.token;
        NextDescribes(input, pos);
        RunDescribes(input, t.span.end);
        if Run(input, pos).Lexed? {
          var ts := Run(input, pos).tokens;
          assert ts == [t] + Run(input, t.span.end).tokens;
          assert forall i :: 1 <= i < |ts| ==> ts[i] == Run(input, t.span.end).tokens[i - 1];
        }
      }
    }
  }

  /** A run starts with a whitespace token exactly when it starts at a whitespace character, and never puts two whitespace tokens side by side. */
  lemma {:induction false} RunNoAdjacentWhitespace(input: seq<char>, pos: nat)
    requires pos <= |input|
    ensures Run(input, pos).Lexed? ==>
      var ts := Run(input, pos).tokens;
      && NoAdjacentWhitespace(ts)
      && (|ts| > 0 ==> (ts[0].kind == Whitespace <==> IsWhitespace(input[pos])))
    decreases |input| - pos
  {
    RunStartsWithWhitespace(input, pos);
    if pos < |input| {
      var r := Next(input[pos..], pos);
      if r.Scanned? {
        RunNoAdjacentWhitespace(input, r.token.span.end);
        RunNoAdjacentWhitespaceStep(input, pos);
      }
    }
  }

  /** One iteration of the induction above: a taken token in front of a run without adjacent whitespace. */
  lemma {:induction false} RunNoAdjacentWhitespaceStep(input: seq<char>, pos: nat)
    requires pos < |input| && Next(input[pos..], pos).Scanned?
    requires var end := Next(input[pos..], pos).token.span.end;
      Run(input, end).Lexed? ==>
        var tail := Run(input, end).tokens;
        && NoAdjacentWhitespace(tail)
        && (|tail| > 0 ==> (tail[0].kind == Whitespace <==> IsWhitespace(input[end])))
    ensures Run(input, pos).Lexed? ==> NoAdjacentWhitespace(Run(input, pos).tokens)
  {
    var r := Next(input[pos..], pos);
    var t := r.token;
    if Run(input, pos).Lexed? {
      assert r.rest == input[t.span.end..];
      assert Run(input, t.span.end).Lexed?;
      var tail := Run(input, t.span.end).tokens;
      assert Run(input, pos).tokens == [t] + tail;
      assert |tail| > 0 && t.kind == Whitespace ==> tail[0].kind != Whitespace by {
        if |tail| > 0 && t.kind == Whitespace {
          assert r.rest[0] == input[t.span.end];
        }
      }
      NoAdjacentCons(t, tail);
    }
  }

  /** The first token of a run is whitespace exactly when the run starts at a whitespace character. */
  lemma {:induction false} RunStartsWithWhitespace(input: seq<char>, pos: nat)
    requires pos <= |input|
    ensures Run(input, pos).Lexed? && |Run(input, pos).tokens| > 0 ==>
      (Run(input, pos).tokens[0].kind == Whitespace <==> IsWhitespace(input[pos]))
  {
    if pos < |input| {
      assert input[pos..][0] == input[pos];
    }
  }

  /** `Tokenizer::parse`: the tokens of `input`, stopping silently at the first unrecognised character. */
  function Tokenize(input: seq<char>): (r: Tokenized)
    requires IsAscii(input)
    ensures r.Lexed? ==>
      var end := EndOf(r.tokens, 0);
      && end <= |input|
      && Tiles(r.tokens, 0, end)
      && (end < |input| ==> Next(input[end..], end).Rejected?)
      && (forall i :: 0 <= i < |r.tokens| ==> Describes(input, r.tokens[i]))
      && (forall i :: 0 <= i < |r.tokens| ==> LegacyKind(r.tokens[i].kind))
      && NoAdjacentWhitespace(r.tokens)
    ensures r.Panicked? ==> r.message == NUMBER_PANIC
    ensures r.Panicked? <==> exists q: nat :: Reaches(input, 0, q) && q < |input| && Next(input[q..], q).Aborted?
  {
    RunPanicsIff(input, 0);
    RunStops(input, 0);
    RunDescribes(input, 0);
    RunNoAdjacentWhitespace(input, 0);
    Run(input, 0)
  }

  /**
   * The spans `Tokenize` hands out follow the running offset: the first starts at 0, each
   * starts where the one before it ended, and none reaches past the input.
   */
  lemma {:induction false} SpansContiguous(input: seq<char>)
    requires IsAscii(input)
    ensures Tokenize(input).Lexed? ==>
      var ts := Tokenize(input).tokens;
      && (|ts| > 0 ==> ts[0].span.start == 0)
      && (forall i :: 0 <= i < |ts| - 1 ==> ts[i].span.end == ts[i + 1].span.start)
      && (forall i :: 0 <= i < |ts| ==> ts[i].span.start < ts[i].span.end <= |input|)
  {
    var r := Tokenize(input);
    if r.Lexed? {
      TilesContiguous(r.tokens, 0, EndOf(r.tokens, 0));
    }
  }

  /**
   * This generation has no recogniser for `"`, `<` or `>`: a loop iteration at such a
   * character declines, so `parse` stops there without error.
   */
  lemma {:induction false} StopsAtUnsupported(input: seq<char>, offset: nat)
    requires |input| > 0 && (input[0] == '"' || input[0] == '<' || input[0] == '>')
    ensures Next(input, offset).Rejected?
    ensures Next(input, offset).error == UnknownKeyword("idk")
  {
    KeywordStartsWithLetter(KEYWORDS, input, offset);
  }

  /** A run reaching `"`, `<` or `>` outside a quoted identifier yields no further tokens. */
  lemma {:induction false} RunEndsAtUnsupported(input: seq<char>, pos: nat)
    requires pos < |input| && (input[pos] == '"' || input[pos] == '<' || input[pos] == '>')
    ensures Run(input, pos) == Lexed([])
  {
    StopsAtUnsupported(input[pos..], pos);
  }

}
