/**
 * The parser combinators both parser generations share, src/parser.rs and
 * src/sql/parser.rs: single-keyword matchers, `table_name`, and the comma-list loop
 * behind `columns` and `values`. Parsers work on slices of tokens; a parser either
 * yields the remaining slice and a value, fails with `NoMatch`, or never returns.
 */
module Grammar {
  import opened Tokens

  /** Outcome of one parser: the rest of the slice and a value, `Error::NoMatch`, or a loop that never ends. */
  datatype Parsed<+T> = Parsed(rest: seq<Token>, value: T) | NoMatch | Diverges

  /** The kinds of the tokens that are not whitespace, in order. */
  function Significant(ts: seq<Token>): (r: seq<TokenKind>)
    ensures |r| <= |ts|
    ensures forall i :: 0 <= i < |r| ==> r[i] != Whitespace
    decreases |ts|
  {
    if |ts| == 0 then []
    else (if ts[0].kind == Whitespace then [] else [ts[0].kind]) + Significant(ts[1..])
  }

  lemma {:induction false} SignificantAppend(a: seq<Token>, b: seq<Token>)
    ensures Significant(a + b) == Significant(a) + Significant(b)
    decreases |a|
  {
    if |a| == 0 {
      assert a + b == b;
    } else {
      assert (a + b)[0] == a[0];
      assert (a + b)[1..] == a[1..] + b;
      SignificantAppend(a[1..], b);
      var h := if a[0].kind == Whitespace then [] else [a[0].kind];
      assert Significant(a + b) == h + Significant(a[1..] + b);
      assert Significant(a) == h + Significant(a[1..]);
    }
  }

  // ---- single-token matchers ----

  /** `select_keyword` / `from_keyword`: the keyword as the very first token, no whitespace skipped. */
  function KeywordFirst(kw: Keyword, ts: seq<Token>): (r: Parsed<()>)
    ensures r.Parsed? <==> |ts| > 0 && ts[0].kind == KeywordToken(kw)
    ensures r.Parsed? ==> r.rest == ts[1..]
    ensures !r.Diverges?
  {
    if |ts| > 0 && ts[0].kind == KeywordToken(kw) then Parsed(ts[1..], ()) else NoMatch
  }

  /** `ts` without its first token when that token is whitespace. */
  function SkipOneWhitespace(ts: seq<Token>): (r: seq<Token>)
    ensures |ts| > 0 && ts[0].kind == Whitespace ==> r == ts[1..]
    ensures !(|ts| > 0 && ts[0].kind == Whitespace) ==> r == ts
  {
    if |ts| > 0 && ts[0].kind == Whitespace then ts[1..] else ts
  }

  /**
   * `table_name`: skip at most one leading whitespace token, require an identifier,
   * then consume at most one whitespace token after it.
   */
  function TableName(ts: seq<Token>): (r: Parsed<string>)
    ensures !r.Diverges?
    ensures var p := SkipOneWhitespace(ts);
      r.Parsed? <==> |p| > 0 && p[0].kind.Identifier?
    ensures var p := SkipOneWhitespace(ts);
      r.Parsed? ==> r.value == p[0].kind.name && r.rest == SkipOneWhitespace(p[1..])
  {
    var p := SkipOneWhitespace(ts);
    if |p| > 0 && p[0].kind.Identifier? then Parsed(SkipOneWhitespace(p[1..]), p[0].kind.name)
    else NoMatch
  }

  // ---- the comma-list loop ----

  /** Which loop: `columns` collects identifiers, `values` collects string and integer literals. */
  datatype ListGrammar = ColumnList | ValueList

  predicate IsItem(g: ListGrammar, k: TokenKind) {
    match g
    case ColumnList => k.Identifier?
    case ValueList => k.StringLiteral? || k.Integer?
  }

  /**
   * Reference shape of a list: `ks` alternates items and commas, with an item at the
   * first position exactly when `expecting` holds.
   */
  predicate Alternates(g: ListGrammar, ks: seq<TokenKind>, expecting: bool)
    decreases |ks|
  {
    |ks| == 0 || ((if expecting then IsItem(g, ks[0]) else ks[0] == Comma) && Alternates(g, ks[1..], !expecting))
  }

  /** The item positions of an alternating sequence. */
  function ItemsOf(ks: seq<TokenKind>, expecting: bool): (r: seq<TokenKind>)
    ensures |r| <= |ks|
    decreases |ks|
  {
    if |ks| == 0 then [] else (if expecting then [ks[0]] else []) + ItemsOf(ks[1..], !expecting)
  }

  /** Whether an item is expected after an alternating sequence `ks` started in state `expecting`. */
  function ExpectAfter(ks: seq<TokenKind>, expecting: bool): bool {
    if |ks| % 2 == 0 then expecting else !expecting
  }

  /** `ks` written as a list: the items separated by commas. */
  function Listed(ks: seq<TokenKind>): (r: seq<TokenKind>)
    ensures |ks| > 0 ==> |r| == 2 * |ks| - 1
    ensures |ks| == 0 ==> r == []
    decreases |ks|
  {
    if |ks| <= 1 then ks else [ks[0], Comma] + Listed(ks[1..])
  }

  /** Where the loop stops: the rest of the slice and the items collected, or a loop that repeats forever. */
  datatype LoopEnd = Ended(rest: seq<Token>, items: seq<TokenKind>) | Stuck

  /**
   * The `while !position.is_empty()` loop of `columns` and `values`: skip whitespace;
   * take an item when one is expected; take a comma when none is; otherwise break when
   * no item is expected. When an item is expected and the token is neither whitespace
   * nor an item, no branch changes the state and the loop never ends: `Stuck`.
   */
  function ListLoop(g: ListGrammar, ts: seq<Token>, acc: seq<TokenKind>, expecting: bool): (r: LoopEnd)
    ensures r.Ended? ==> |r.rest| <= |ts| && r.rest == ts[|ts| - |r.rest|..]
    ensures r.Ended? ==> r.rest == [] || (r.rest[0].kind != Whitespace && r.rest[0].kind != Comma)
    decreases |ts|
  {
    if |ts| == 0 then Ended([], acc)
    else if ts[0].kind == Whitespace then ListLoop(g, ts[1..], acc, expecting)
    else if expecting && IsItem(g, ts[0].kind) then ListLoop(g, ts[1..], acc + [ts[0].kind], false)
    else if !expecting && ts[0].kind == Comma then ListLoop(g, ts[1..], acc, true)
    else if !expecting then Ended(ts, acc)
    else Stuck
  }

  /** One iteration that takes a token: skip whitespace, or take an expected item or comma. */
  lemma {:induction false} ListLoopStep(g: ListGrammar, ts: seq<Token>, acc: seq<TokenKind>, expecting: bool)
    requires |ts| > 0
    ensures ts[0].kind == Whitespace ==> ListLoop(g, ts, acc, expecting) == ListLoop(g, ts[1..], acc, expecting)
    ensures ts[0].kind != Whitespace && expecting && IsItem(g, ts[0].kind)
            ==> ListLoop(g, ts, acc, expecting) == ListLoop(g, ts[1..], acc + [ts[0].kind], false)
    ensures ts[0].kind != Whitespace && !expecting && ts[0].kind == Comma
            ==> ListLoop(g, ts, acc, expecting) == ListLoop(g, ts[1..], acc, true)
  {
  }

  /** Unfolding the reference definitions at a significant first kind. */
  lemma {:induction false} AlternatesStep(g: ListGrammar, k: TokenKind, s: seq<TokenKind>, expecting: bool)
    ensures Alternates(g, [k] + s, expecting) <==> (if expecting then IsItem(g, k) else k == Comma) && Alternates(g, s, !expecting)
    ensures ItemsOf([k] + s, expecting) == (if expecting then [k] else []) + ItemsOf(s, !expecting)
    ensures ExpectAfter([k] + s, expecting) == ExpectAfter(s, !expecting)
  {
    assert ([k] + s)[0] == k && ([k] + s)[1..] == s;
  }

  /** The reference definitions unfolded at the first token of a non-empty token slice. */
  lemma {:induction false} ShapeStep(g: ListGrammar, p: seq<Token>, expecting: bool)
    requires |p| > 0
    ensures p[0].kind == Whitespace ==> Significant(p) == Significant(p[1..])
    ensures p[0].kind != Whitespace ==>
      var s := Significant(p);
      var s1 := Significant(p[1..]);
      && (Alternates(g, s, expecting) <==> (if expecting then IsItem(g, p[0].kind) else p[0].kind == Comma) && Alternates(g, s1, !expecting))
      && ItemsOf(s, expecting) == (if expecting then [p[0].kind] else []) + ItemsOf(s1, !expecting)
      && ExpectAfter(s, expecting) == ExpectAfter(s1, !expecting)
  {
    if p[0].kind == Whitespace {
      assert [] + Significant(p[1..]) == Significant(p[1..]);
    } else {
      AlternatesStep(g, p[0].kind, Significant(p[1..]), expecting);
    }
  }

  lemma {:induction false} ListLoopConsumes(g: ListGrammar, p: seq<Token>, rest: seq<Token>, acc: seq<TokenKind>, expecting: bool)
    requires Alternates(g, Significant(p), expecting)
    ensures ListLoop(g, p + rest, acc, expecting)
         == ListLoop(g, rest, acc + ItemsOf(Significant(p), expecting), ExpectAfter(Significant(p), expecting))
    decreases |p|
  {
    if |p| == 0 {
      assert p + rest == rest;
      assert acc + ItemsOf(Significant(p), expecting) == acc;
    } else {
      var ts := p + rest;
      assert ts[0] == p[0] && ts[1..] == p[1..] + rest;
      ListLoopStep(g, ts, acc, expecting);
      ShapeStep(g, p, expecting);
      var k := p[0].kind;
      var s1 := Significant(p[1..]);
      if k == Whitespace {
        ListLoopConsumes(g, p[1..], rest, acc, expecting);
      } else if expecting {
        ListLoopConsumes(g, p[1..], rest, acc + [k], false);
        assert acc + [k] + ItemsOf(s1, false) == acc + ([k] + ItemsOf(s1, false));
      } else {
        ListLoopConsumes(g, p[1..], rest, acc, true);
        assert [] + ItemsOf(s1, true) == ItemsOf(s1, true);
      }
    }
  }

  /** How the loop ends once the alternating part is consumed. */
  lemma {:induction false} ListLoopStops(g: ListGrammar, rest: seq<Token>, acc: seq<TokenKind>, expecting: bool)
    ensures rest == [] ==> ListLoop(g, rest, acc, expecting) == Ended([], acc)
    ensures |rest| > 0 && rest[0].kind != Whitespace && expecting && !IsItem(g, rest[0].kind)
            ==> ListLoop(g, rest, acc, expecting) == Stuck
    ensures |rest| > 0 && rest[0].kind != Whitespace && !expecting && rest[0].kind != Comma
            ==> ListLoop(g, rest, acc, expecting) == Ended(rest, acc)
  {
  }

  /** The significant kinds of a non-empty prefix, split at its first token. */
  lemma {:induction false} SignificantPrefixStep(ts: seq<Token>, n: nat)
    requires 0 < n <= |ts|
    ensures Significant(ts[..n])
         == (if ts[0].kind == Whitespace then [] else [ts[0].kind]) + Significant(ts[1..][..n - 1])
  {
    assert ts[..n][0] == ts[0];
    assert ts[..n][1..] == ts[1..][..n - 1];
  }

  /** What an ended loop consumed, stated for a loop state `r`. */
  predicate EndedShape(g: ListGrammar, ts: seq<Token>, acc: seq<TokenKind>, expecting: bool, r: LoopEnd)
    requires r.Ended? && |r.rest| <= |ts|
  {
    var p := Significant(ts[..|ts| - |r.rest|]);
    && Alternates(g, p, expecting)
    && r.items == acc + ItemsOf(p, expecting)
    && (r.rest != [] ==> !ExpectAfter(p, expecting))
  }

  /** Extending an ended loop's shape by one leading token the loop took. */
  lemma {:induction false} EndedShapeStep(g: ListGrammar, ts: seq<Token>, acc: seq<TokenKind>, expecting: bool, r: LoopEnd)
    requires |ts| > 0 && r.Ended? && |r.rest| < |ts|
    requires ts[0].kind == Whitespace || (expecting && IsItem(g, ts[0].kind)) || (!expecting && ts[0].kind == Comma)
    requires var k := ts[0].kind;
      EndedShape(g, ts[1..], if k != Whitespace && expecting then acc + [k] else acc,
                 if k == Whitespace then expecting else !expecting, r)
    ensures EndedShape(g, ts, acc, expecting, r)
  {
    var n := |ts| - |r.rest|;
    SignificantPrefixStep(ts, n);
    var k := ts[0].kind;
    var s1 := Significant(ts[1..][..n - 1]);
    if k == Whitespace {
      assert [] + s1 == s1;
    } else {
      AlternatesStep(g, k, s1, expecting);
      if expecting {
        assert acc + [k] + ItemsOf(s1, false) == acc + ([k] + ItemsOf(s1, false));
      } else {
        assert [] + ItemsOf(s1, true) == ItemsOf(s1, true);
      }
    }
  }

  /** An ended loop consumed an alternating prefix, collected its items, and stopped where no item was expected. */
  lemma {:induction false} ListLoopEnded(g: ListGrammar, ts: seq<Token>, acc: seq<TokenKind>, expecting: bool)
    requires ListLoop(g, ts, acc, expecting).Ended?
    ensures EndedShape(g, ts, acc, expecting, ListLoop(g, ts, acc, expecting))
    decreases |ts|
  {
    var r := ListLoop(g, ts, acc, expecting);
    var n := |ts| - |r.rest|;
    if n == 0 {
      assert ts[..n] == [] && Significant(ts[..n]) == [];
      assert acc + ItemsOf([], expecting) == acc;
      assert r.rest != [] ==> r == Ended(ts, acc) && !expecting;
    } else {
      ListLoopStep(g, ts, acc, expecting);
      var k := ts[0].kind;
      var acc' := if k != Whitespace && expecting then acc + [k] else acc;
      var e' := if k == Whitespace then expecting else !expecting;
      assert r == ListLoop(g, ts[1..], acc', e');
      ListLoopEnded(g, ts[1..], acc', e');
      EndedShapeStep(g, ts, acc, expecting, r);
    }
  }

  /** Extending a stuck position by one leading token the loop took. */
  lemma {:induction false} StuckAtStep(g: ListGrammar, ts: seq<Token>, n: nat, expecting: bool)
    requires n + 1 < |ts|
    requires ts[0].kind == Whitespace || (expecting && IsItem(g, ts[0].kind)) || (!expecting && ts[0].kind == Comma)
    requires StuckAt(g, ts[1..], n, if ts[0].kind == Whitespace then expecting else !expecting)
    ensures StuckAt(g, ts, n + 1, expecting)
  {
    SignificantPrefixStep(ts, n + 1);
    var k := ts[0].kind;
    var s1 := Significant(ts[1..][..n]);
    assert ts[n + 1] == ts[1..][n];
    if k == Whitespace {
      assert [] + s1 == s1;
    } else {
      AlternatesStep(g, k, s1, expecting);
    }
  }

  /** A stuck loop met, where an item was expected after an alternating prefix, a token that is neither whitespace nor an item. */
  lemma {:induction false} ListLoopStuck(g: ListGrammar, ts: seq<Token>, acc: seq<TokenKind>, expecting: bool)
    requires ListLoop(g, ts, acc, expecting).Stuck?
    ensures exists n :: 0 <= n < |ts| && StuckAt(g, ts, n, expecting)
    decreases |ts|
  {
    ListLoopStep(g, ts, acc, expecting);
    var k := ts[0].kind;
    if k == Whitespace {
      ListLoopStuck(g, ts[1..], acc, expecting);
      var n :| 0 <= n < |ts[1..]| && StuckAt(g, ts[1..], n, expecting);
      StuckAtStep(g, ts, n, expecting);
    } else if expecting && IsItem(g, k) {
      ListLoopStuck(g, ts[1..], acc + [k], false);
      var n :| 0 <= n < |ts[1..]| && StuckAt(g, ts[1..], n, false);
      StuckAtStep(g, ts, n, expecting);
    } else if !expecting && k == Comma {
      ListLoopStuck(g, ts[1..], acc, true);
      var n :| 0 <= n < |ts[1..]| && StuckAt(g, ts[1..], n, true);
      StuckAtStep(g, ts, n, expecting);
    } else {
      assert ts[..0] == [] && Significant(ts[..0]) == [];
      assert StuckAt(g, ts, 0, expecting);
    }
  }

  /** The loop state at which it can make no progress: position `n` of `ts`. */
  predicate StuckAt(g: ListGrammar, ts: seq<Token>, n: nat, expecting: bool)
    requires n < |ts|
  {
    && Alternates(g, Significant(ts[..n]), expecting)
    && ExpectAfter(Significant(ts[..n]), expecting)
    && ts[n].kind != Whitespace
    && !IsItem(g, ts[n].kind)
  }

  /**
   * Reference reading of a finished loop: the tokens before `rest` alternate items and
   * commas, `items` are those items, and `rest` is empty or starts, where no item is
   * expected, with a token that is neither whitespace nor a comma.
   */
  predicate ListThenRest(g: ListGrammar, ts: seq<Token>, rest: seq<Token>, items: seq<TokenKind>) {
    && |rest| <= |ts| && rest == ts[|ts| - |rest|..]
    && var p := Significant(ts[..|ts| - |rest|]);
       && Alternates(g, p, true)
       && items == ItemsOf(p, true)
       && (rest == [] || (rest[0].kind != Whitespace && rest[0].kind != Comma && !ExpectAfter(p, true)))
  }

  lemma {:induction false} ListLoopEndsOnlyIf(g: ListGrammar, ts: seq<Token>)
    requires ListLoop(g, ts, [], true).Ended?
    ensures ListThenRest(g, ts, ListLoop(g, ts, [], true).rest, ListLoop(g, ts, [], true).items)
  {
    var r := ListLoop(g, ts, [], true);
    ListLoopEnded(g, ts, [], true);
    assert EndedShape(g, ts, [], true, r);
    var p := Significant(ts[..|ts| - |r.rest|]);
    assert [] + ItemsOf(p, true) == ItemsOf(p, true);
    assert r.items == ItemsOf(p, true);
  }

  lemma {:induction false} ListLoopEndsIf(g: ListGrammar, ts: seq<Token>, rest: seq<Token>, items: seq<TokenKind>)
    requires ListThenRest(g, ts, rest, items)
    ensures ListLoop(g, ts, [], true) == Ended(rest, items)
  {
    var pre := ts[..|ts| - |rest|];
    var p := Significant(pre);
    assert ts == pre + rest;
    ListLoopConsumes(g, pre, rest, [], true);
    assert [] + ItemsOf(p, true) == items;
    ListLoopStops(g, rest, items, ExpectAfter(p, true));
  }

  /** The loop, started as the source starts it, ends with `rest` and `items` exactly when the reference reading says so. */
  lemma {:induction false} ListLoopEndsIff(g: ListGrammar, ts: seq<Token>, rest: seq<Token>, items: seq<TokenKind>)
    ensures ListLoop(g, ts, [], true) == Ended(rest, items) <==> ListThenRest(g, ts, rest, items)
  {
    if ListLoop(g, ts, [], true) == Ended(rest, items) {
      ListLoopEndsOnlyIf(g, ts);
    }
    if ListThenRest(g, ts, rest, items) {
      ListLoopEndsIf(g, ts, rest, items);
    }
  }

  /** The loop, started as the source starts it, never ends exactly when some position is stuck. */
  lemma {:induction false} ListLoopStuckIff(g: ListGrammar, ts: seq<Token>)
    ensures ListLoop(g, ts, [], true) == Stuck <==> exists n :: 0 <= n < |ts| && StuckAt(g, ts, n, true)
  {
    if ListLoop(g, ts, [], true) == Stuck {
      ListLoopStuck(g, ts, [], true);
    }
    if n :| 0 <= n < |ts| && StuckAt(g, ts, n, true) {
      assert ts == ts[..n] + ts[n..];
      ListLoopConsumes(g, ts[..n], ts[n..], [], true);
      var p := Significant(ts[..n]);
      ListLoopStops(g, ts[n..], ItemsOf(p, true), true);
    }
  }

  /** Every kind in `ks` is an item of `g`. */
  predicate AllItems(g: ListGrammar, ks: seq<TokenKind>)
    decreases |ks|
  {
    |ks| == 0 || (IsItem(g, ks[0]) && AllItems(g, ks[1..]))
  }

  /** Prefixing an item and a comma to an alternating list. */
  lemma {:induction false} AlternatesCons(g: ListGrammar, k: TokenKind, tail: seq<TokenKind>)
    requires IsItem(g, k) && Alternates(g, tail, true)
    ensures Alternates(g, [k] + ([Comma] + tail), true)
    ensures ItemsOf([k] + ([Comma] + tail), true) == [k] + ItemsOf(tail, true)
    ensures ExpectAfter([k] + ([Comma] + tail), true) == ExpectAfter(tail, true)
  {
    AlternatesStep(g, Comma, tail, false);
    AlternatesStep(g, k, [Comma] + tail, true);
    assert [] + ItemsOf(tail, true) == ItemsOf(tail, true);
  }

  lemma {:induction false} ListedAlternates(g: ListGrammar, ks: seq<TokenKind>)
    requires AllItems(g, ks)
    ensures Alternates(g, Listed(ks), true)
    ensures ItemsOf(Listed(ks), true) == ks
    ensures ExpectAfter(Listed(ks), true) == (|ks| == 0)
    decreases |ks|
  {
    if |ks| == 0 {
      assert ks == [] && Listed(ks) == [];
      assert ItemsOf([], true) == [];
    } else if |ks| == 1 {
      assert Listed(ks) == [ks[0]] + [];
      AlternatesStep(g, ks[0], [], true);
    } else {
      ListedAlternates(g, ks[1..]);
      assert Listed(ks) == [ks[0]] + ([Comma] + Listed(ks[1..]));
      AlternatesCons(g, ks[0], Listed(ks[1..]));
      assert [ks[0]] + ks[1..] == ks;
    }
  }

  /** A list with one trailing comma alternates too, and leaves an item expected. */
  lemma {:induction false} ListedTrailingComma(g: ListGrammar, ks: seq<TokenKind>)
    requires |ks| > 0
    requires AllItems(g, ks)
    ensures Alternates(g, Listed(ks) + [Comma], true)
    ensures ItemsOf(Listed(ks) + [Comma], true) == ks
    ensures ExpectAfter(Listed(ks) + [Comma], true)
    decreases |ks|
  {
    if |ks| == 1 {
      assert Listed(ks) + [Comma] == [ks[0]] + ([Comma] + []);
      AlternatesStep(g, Comma, [], false);
      AlternatesStep(g, ks[0], [Comma], true);
      assert [ks[0]] + ([] + []) == ks;
    } else {
      var tail := Listed(ks[1..]) + [Comma];
      ListedTrailingComma(g, ks[1..]);
      assert Listed(ks) + [Comma] == [ks[0]] + ([Comma] + tail);
      AlternatesStep(g, Comma, tail, false);
      AlternatesStep(g, ks[0], [Comma] + tail, true);
      assert [ks[0]] + ([] + ks[1..]) == ks;
    }
  }

  /** A slice with nothing but whitespace ends the loop with nothing collected. */
  lemma {:induction false} ListLoopOnlyWhitespace(g: ListGrammar, ts: seq<Token>, acc: seq<TokenKind>, expecting: bool)
    requires Significant(ts) == []
    ensures ListLoop(g, ts, acc, expecting) == Ended([], acc)
  {
    assert ts + [] == ts;
    ListLoopConsumes(g, ts, [], acc, expecting);
    assert acc + ItemsOf([], expecting) == acc;
  }

  /** A list started where an item is expected collects something as soon as it is not empty. */
  lemma {:induction false} ItemsOfNonEmpty(ks: seq<TokenKind>)
    ensures |ks| > 0 ==> |ItemsOf(ks, true)| > 0
  {
    if |ks| > 0 {
      assert ItemsOf(ks, true) == [ks[0]] + ItemsOf(ks[1..], false);
    }
  }

  lemma {:induction false} ListLoopEmptyOnlyIf(g: ListGrammar, ts: seq<Token>)
    requires ListLoop(g, ts, [], true).Ended? && ListLoop(g, ts, [], true).items == []
    ensures Significant(ts) == []
  {
    var r := ListLoop(g, ts, [], true);
    var p := ts[..|ts| - |r.rest|];
    var sp := Significant(p);
    assert r.items == ItemsOf(sp, true) && (r.rest != [] ==> !ExpectAfter(sp, true)) by {
      ListLoopEnded(g, ts, [], true);
      assert [] + ItemsOf(sp, true) == ItemsOf(sp, true);
    }
    ItemsOfNonEmpty(sp);
    assert r.rest == [] by {
      assert |sp| == 0;
    }
    assert ts == p;
  }

  /** The loop, started as the source starts it, ends with nothing collected exactly when the slice holds nothing but whitespace. */
  lemma {:induction false} ListLoopEmptyIff(g: ListGrammar, ts: seq<Token>)
    ensures (ListLoop(g, ts, [], true).Ended? && ListLoop(g, ts, [], true).items == []) <==> Significant(ts) == []
  {
    if Significant(ts) == [] {
      ListLoopOnlyWhitespace(g, ts, [], true);
    }
    if ListLoop(g, ts, [], true).Ended? && ListLoop(g, ts, [], true).items == [] {
      ListLoopEmptyOnlyIf(g, ts);
    }
  }

  /** When the first token that is not whitespace is not an item, the loop never ends. */
  lemma {:induction false} ListLoopStuckAtStart(g: ListGrammar, ts: seq<Token>, acc: seq<TokenKind>)
    requires Significant(ts) != [] && !IsItem(g, Significant(ts)[0])
    ensures ListLoop(g, ts, acc, true) == Stuck
    decreases |ts|
  {
    ListLoopStep(g, ts, acc, true);
    ShapeStep(g, ts, true);
    if ts[0].kind == Whitespace {
      ListLoopStuckAtStart(g, ts[1..], acc);
    } else {
      assert Significant(ts)[0] == ts[0].kind;
    }
  }

  // ---- columns ----

  /** The column names of identifier kinds. */
  function Names(ks: seq<TokenKind>): (r: seq<string>)
    ensures |r| == |ks|
    ensures forall i :: 0 <= i < |ks| && ks[i].Identifier? ==> ks[i] == Identifier(r[i])
  {
    seq(|ks|, i requires 0 <= i < |ks| => if ks[i].Identifier? then ks[i].name else "")
  }

  /** Identifier kinds for `names`. */
  function Identifiers(names: seq<string>): (r: seq<TokenKind>)
    ensures |r| == |names|
    ensures forall i :: 0 <= i < |r| ==> r[i] == Identifier(names[i])
    ensures AllItems(ColumnList, r)
    ensures Names(r) == names
    decreases |names|
  {
    if |names| == 0 then []
    else
      var tail := Identifiers(names[1..]);
      var r := [Identifier(names[0])] + tail;
      assert r[1..] == tail;
      r
  }

  /**
   * `columns`: the comma-list loop over identifiers. No identifier is `NoMatch`. The
   * source then drops one whitespace token after the list; the loop has already skipped
   * all whitespace, so that branch never fires.
   */
  function Columns(ts: seq<Token>): (r: Parsed<seq<string>>)
    ensures r.Parsed? ==> |r.value| > 0
    ensures r.Parsed? ==> |r.rest| <= |ts| && r.rest == ts[|ts| - |r.rest|..]
    ensures r.Parsed? ==> r.rest == [] || (r.rest[0].kind != Whitespace && r.rest[0].kind != Comma)
  {
    match ListLoop(ColumnList, ts, [], true)
    case Stuck => Diverges
    case Ended(rest, items) =>
      if |items| == 0 then NoMatch
      else if |rest| > 0 && rest[0].kind == Whitespace then Parsed(rest[1..], Names(items))
      else Parsed(rest, Names(items))
  }

  /**
   * Round trip: identifiers written as a comma list, with any whitespace in between,
   * and followed by the end or a token that is neither whitespace nor a comma, parse
   * back to the same names, leaving that following token.
   */
  lemma {:induction false} ColumnsReadsList(p: seq<Token>, rest: seq<Token>, names: seq<string>)
    requires |names| > 0
    requires Significant(p) == Listed(Identifiers(names))
    requires rest == [] || (rest[0].kind != Whitespace && rest[0].kind != Comma)
    ensures Columns(p + rest) == Parsed(rest, names)
  {
    var ts := p + rest;
    var ids := Identifiers(names);
    ListedAlternates(ColumnList, ids);
    assert ts[..|ts| - |rest|] == p && ts[|ts| - |rest|..] == rest;
    assert ListThenRest(ColumnList, ts, rest, ids);
    ListLoopEndsIf(ColumnList, ts, rest, ids);
  }

  /** A dangling comma at the very end is accepted. */
  lemma {:induction false} ColumnsAcceptsDanglingComma(p: seq<Token>, names: seq<string>)
    requires |names| > 0
    requires Significant(p) == Listed(Identifiers(names)) + [Comma]
    ensures Columns(p) == Parsed([], names)
  {
    var ids := Identifiers(names);
    ListedTrailingComma(ColumnList, ids);
    assert p[..|p| - 0] == p && p[|p|..] == [];
    assert ListThenRest(ColumnList, p, [], ids);
    ListLoopEndsIf(ColumnList, p, [], ids);
  }

  /** `columns` reports `NoMatch` exactly when the slice holds nothing but whitespace. */
  lemma {:induction false} ColumnsNoMatchIff(ts: seq<Token>)
    ensures Columns(ts) == NoMatch <==> Significant(ts) == []
  {
    ListLoopEmptyIff(ColumnList, ts);
  }

  /** `columns` never returns exactly when, where a column is expected, a token is neither whitespace nor an identifier. */
  lemma {:induction false} ColumnsDivergesIff(ts: seq<Token>)
    ensures Columns(ts) == Diverges <==> exists n :: 0 <= n < |ts| && StuckAt(ColumnList, ts, n, true)
  {
    ListLoopStuckIff(ColumnList, ts);
  }
}
