/**
 * Token datatypes of the two tokenizer generations (src/tokenizer.rs and
 * src/sql/tokenizer.rs declare the same shapes; the older `Keyword` lacks `Into`,
 * which the older tokenizer never produces) and the span arithmetic they share.
 */
module Tokens {

  /** Rust's `u32`, the payload of an integer literal. */
  newtype uint32 = x: int | 0 <= x <= 0xFFFF_FFFF

  const UINT32_MAX: nat := 0xFFFF_FFFF

  /** Half-open range `[start, end)` of input positions a token was recognised from. */
  datatype Span = Span(start: nat, end: nat)

  datatype Keyword = Select | From | Insert | Into | Values | Where

  datatype TokenKind =
    | KeywordToken(keyword: Keyword)
    | Comma
    | Equals
    | GreaterThan
    | GreaterThanEquals
    | SmallerThan
    | SmallerThanEquals
    | Whitespace
    | SemiColon
    | Identifier(name: string)
    | StringLiteral(text: string)
    | Integer(value: uint32)

  datatype Token = Token(span: Span, kind: TokenKind)

  /**
   * The tokens cover `[start, end)` left to right without gaps or overlaps,
   * each with a non-empty span.
   */
  predicate Tiles(ts: seq<Token>, start: nat, end: nat)
    decreases |ts|
  {
    if |ts| == 0 then start == end
    else ts[0].span.start == start && start < ts[0].span.end && Tiles(ts[1..], ts[0].span.end, end)
  }

  /** Where the last of `ts` ends, or `start` when there is none. */
  function EndOf(ts: seq<Token>, start: nat): nat {
    if |ts| == 0 then start else ts[|ts| - 1].span.end
  }

  /** No whitespace token directly follows another. */
  predicate NoAdjacentWhitespace(ts: seq<Token>) {
    forall i :: 0 <= i < |ts| - 1 ==> !(ts[i].kind == Whitespace && ts[i + 1].kind == Whitespace)
  }

  /** A token ending where a tiling starts extends the tiling to the token's start. */
  lemma {:induction false} TilesCons(t: Token, ts: seq<Token>, start: nat)
    requires t.span.start == start < t.span.end
    requires Tiles(ts, t.span.end, EndOf(ts, t.span.end))
    ensures EndOf([t] + ts, start) == EndOf(ts, t.span.end)
    ensures Tiles([t] + ts, start, EndOf([t] + ts, start))
  {
    assert ([t] + ts)[1..] == ts;
  }

  /** Putting a token in front keeps whitespace tokens apart unless both it and the old head are whitespace. */
  lemma {:induction false} NoAdjacentCons(t: Token, tail: seq<Token>)
    requires NoAdjacentWhitespace(tail)
    requires |tail| > 0 && t.kind == Whitespace ==> tail[0].kind != Whitespace
    ensures NoAdjacentWhitespace([t] + tail)
  {
    var ts := [t] + tail;
    forall i | 0 <= i < |ts| - 1
      ensures !(ts[i].kind == Whitespace && ts[i + 1].kind == Whitespace)
    {
      if i > 0 {
        assert ts[i] == tail[i - 1] && ts[i + 1] == tail[i];
      }
    }
  }

  /** The quantified reading of `Tiles`: consecutive spans touch, and the ends are as stated. */
  lemma {:induction false} TilesContiguous(ts: seq<Token>, start: nat, end: nat)
    requires Tiles(ts, start, end)
    ensures start <= end
    ensures EndOf(ts, start) == end
    ensures |ts| > 0 ==> ts[0].span.start == start
    ensures forall i :: 0 <= i < |ts| ==> ts[i].span.start < ts[i].span.end
    ensures forall i :: 0 <= i < |ts| - 1 ==> ts[i].span.end == ts[i + 1].span.start
    ensures forall i :: 0 <= i < |ts| ==> start <= ts[i].span.start && ts[i].span.end <= end
    decreases |ts|
  {
    if |ts| > 0 {
      TilesContiguous(ts[1..], ts[0].span.end, end);
      assert forall i :: 1 <= i < |ts| ==> ts[i] == ts[1..][i - 1];
    }
  }

}
