/** Properties of the tokenizer. */
module LexerFacts {
  import opened Doubles
  import opened Lexer
  import Wrappers

  // ---------------------------------------------------------------------------
  // What the pattern skips and matches

  /** Only space characters separate the start of a match from its token. */
  lemma OnlySpacesSkipped(s: string, q: nat)
    requires q <= |s|
    ensures MatchAt(s, q).Matched? ==>
      forall k :: q <= k < MatchAt(s, q).groupIndex ==> s[k] == ' '
  {
  }

  /** A tab is not skipped: no match can begin at a tab. */
  lemma TabIsNotSkipped(s: string, q: nat)
    requires q < |s| && s[q] == '\t'
    ensures MatchAt(s, q).Failed?
  {
    assert SpaceRun(s, q) == 0;
    assert DigitRun(s, q) == 0;
  }

  /**
    A number lexeme starts with a digit or a dot and an identifier with a letter
    or underscore, so the two alternatives never compete for the same text.
   */
  lemma NumberAndIdentifierDisjoint(s: string, r: nat)
    requires r <= |s|
    ensures NumberLength(s, r) > 0 ==> r < |s| && (IsDigit(s[r]) || s[r] == '.')
    ensures NumberLength(s, r) > 0 ==> IdentifierLength(s, r) == 0
  {
  }

  /** The symbol lexemes: the single characters, `!`, `<`, `>` with an optional `=`, and `||`, `&&`. */
  lemma SymbolLexemes(s: string, r: nat)
    requires r < |s|
    ensures s[r] in "+-*/^(),=?:" ==> SymbolLength(s, r) == 1
    ensures s[r] in "!<>" ==> SymbolLength(s, r) == (if r + 1 < |s| && s[r + 1] == '=' then 2 else 1)
    ensures s[r] in "|&" ==> SymbolLength(s, r) == (if r + 1 < |s| && s[r + 1] == s[r] then 2 else 0)
    ensures s[r] == '%' ==> SymbolLength(s, r) == 0
  {
  }

  // ---------------------------------------------------------------------------
  // Token classification

  /** `HaveToken` holds exactly for numbers, identifiers and symbols; `HaveError` only for errors. */
  lemma TokenPredicates(lx: Lexer)
    ensures HaveToken(lx) <==> lx.kind in {TokenType.Number, TokenType.Identifier, TokenType.Symbol}
    ensures HaveError(lx) <==> lx.kind == TokenType.Error
    ensures !HaveToken(lx) <==> Terminal(lx)
  {
  }

  /** `!`, `<` and `>` take their two-character reading exactly when `=` follows. */
  lemma CharToSymbolTwoCharacter(ch: char, ch2: char)
    requires ch in "!<>"
    ensures CharToSymbol(ch, ch2) in {NotEqual, LessThanOrEqual, GreaterThanOrEqual} <==> ch2 == '='
  {
  }

  /** Every other symbol is decided by its first character alone. */
  lemma CharToSymbolFirstCharacter(ch: char, ch2: char, ch3: char)
    requires ch !in "!<>"
    ensures CharToSymbol(ch, ch2) == CharToSymbol(ch, ch3)
  {
  }

  /** Every symbol lexeme names a symbol. */
  lemma SymbolLexemeNamesSymbol(s: string, r: nat)
    requires r < |s| && SymbolLength(s, r) > 0
    ensures CharToSymbol(s[r], if SymbolLength(s, r) > 1 then s[r + 1] else '\0') != SymbolId.None
  {
  }

  /**
    Each new token starts from a clean slate: only numbers carry a value other
    than NaN, only symbols carry a symbol id, and characters skipped before the
    match become an Error token spanning exactly that gap.
   */
  lemma InitializeTokenResets(input: string, from: nat, prevPos: nat, prevLen: nat)
    ensures var m := Search(input, from);
      var lx := InitializeToken(input, m, prevPos, prevLen);
      && (lx.symbol != SymbolId.None ==> lx.kind == TokenType.Symbol)
      && (lx.kind == TokenType.Symbol ==> lx.symbol != SymbolId.None)
      && (lx.kind != TokenType.Number && lx.kind != TokenType.Error ==> lx.value.NaN?)
      && (m.Matched? && m.index > prevPos + prevLen ==>
            lx.kind == TokenType.Error && lx.pos == prevPos + prevLen && End(lx) == m.index)
  {
    var m := Search(input, from);
    if m.Matched? {
      TokenOfMatchResets(input, m, prevPos, prevLen);
    }
  }

  /** `InitializeToken` on a genuine match, one group at a time. */
  lemma TokenOfMatchResets(input: string, m: Match, prevPos: nat, prevLen: nat)
    requires m.Matched? && InInput(input, m) && m.index <= |input| && m == MatchAt(input, m.index)
    ensures var lx := InitializeToken(input, m, prevPos, prevLen);
      && (lx.symbol != SymbolId.None ==> lx.kind == TokenType.Symbol)
      && (lx.kind == TokenType.Symbol ==> lx.symbol != SymbolId.None)
      && (lx.kind != TokenType.Number && lx.kind != TokenType.Error ==> lx.value.NaN?)
  {
    if m.index <= prevPos + prevLen && m.group == SymbolGroup {
      SymbolGroupNamesSymbol(input, m);
    }
  }

  /** The symbol group of a genuine match names a symbol. */
  lemma SymbolGroupNamesSymbol(input: string, m: Match)
    requires InInput(input, m) && m.index <= |input| && m == MatchAt(input, m.index) && m.group == SymbolGroup
    ensures CharToSymbol(input[m.groupIndex], if m.groupLength > 1 then input[m.groupIndex + 1] else '\0') != SymbolId.None
  {
    assert SymbolLength(input, m.groupIndex) == m.groupLength;
    SymbolLexemeNamesSymbol(input, m.groupIndex);
  }

  // ---------------------------------------------------------------------------
  // The token stream

  /** Every token of a stream read from a consistent state is itself consistent and reads the same input. */
  lemma {:induction false} TokensFromConsistent(lx: Lexer)
    requires Consistent(lx)
    ensures forall k :: 0 <= k < |TokensFrom(lx)| ==>
      Consistent(TokensFrom(lx)[k]) && TokensFrom(lx)[k].input == lx.input
    decreases |lx.input| - End(lx)
  {
    if !Terminal(lx) {
      var next := Advance(lx);
      AdvanceKeepsConsistent(lx);
      if !Terminal(next) {
        TokensFromConsistent(next);
        assert TokensFrom(lx) == [lx] + TokensFrom(next);
      }
    }
  }

  /** Each token of a stream starts at or after the end of the token before it. */
  lemma {:induction false} TokensFromOrdered(lx: Lexer)
    requires Consistent(lx)
    ensures forall k :: 0 <= k < |TokensFrom(lx)| - 1 ==>
      TokensFrom(lx)[k + 1].pos >= End(TokensFrom(lx)[k])
    decreases |lx.input| - End(lx)
  {
    if !Terminal(lx) {
      var next := Advance(lx);
      AdvanceKeepsConsistent(lx);
      if !Terminal(next) {
        var rest := TokensFrom(next);
        TokensFromOrdered(next);
        var ts := TokensFrom(lx);
        assert ts == [lx] + rest;
        forall k | 0 <= k < |ts| - 1
          ensures ts[k + 1].pos >= End(ts[k])
        {
          assert ts[k + 1] == rest[k];
          if k > 0 {
            assert ts[k] == rest[k - 1];
          }
        }
      }
    }
  }

  /** The stream of a whole input: consistent tokens in order of position. */
  lemma TokensOrdered(input: string)
    ensures forall k :: 0 <= k < |Tokens(input)| ==> Consistent(Tokens(input)[k])
    ensures forall k :: 0 <= k < |Tokens(input)| - 1 ==> Tokens(input)[k + 1].pos >= End(Tokens(input)[k])
  {
    StartIsConsistent(input);
    TokensFromConsistent(SetInput(Fresh, input));
    TokensFromOrdered(SetInput(Fresh, input));
  }

  // ---------------------------------------------------------------------------
  // Nothing but spaces is lost

  /** Every character from `a` up to `b` is a space. */
  predicate Spaces(s: string, a: nat, b: nat) {
    forall k :: a <= k < b && k < |s| ==> s[k] == ' '
  }

  /**
    A match the pattern makes at its own index skips only spaces before its
    token, and the end-of-input alternative matches only where `$` holds.
   */
  lemma MatchSkipsSpaces(s: string, m: Match)
    requires m.Matched? && m.index <= |s| && m == MatchAt(s, m.index)
    ensures Spaces(s, m.index, m.groupIndex)
    ensures m.group == EndGroup ==> EndOfInput(s, m.groupIndex)
  {
    OnlySpacesSkipped(s, m.index);
  }

  /**
    The token after `lx`, unless it is an error, starts after nothing but
    spaces; an end-of-input token stands where `$` holds.
   */
  lemma AdvanceSkipsSpaces(lx: Lexer)
    requires Consistent(lx) && !Terminal(lx) && !HaveError(Advance(lx))
    ensures Spaces(lx.input, End(lx), Advance(lx).pos)
    ensures Advance(lx).kind == TokenType.None ==> EndOfInput(lx.input, Advance(lx).pos)
  {
    var s := lx.input;
    var m := NextMatch(s, lx.m);
    var next := InitializeToken(s, m, lx.pos, lx.len);
    assert Advance(lx) == next;
    assert m.Matched? && m.index <= End(lx);
    assert next.pos == m.groupIndex && (next.kind == TokenType.None <==> m.group == EndGroup);
    MatchSkipsSpaces(s, m);
  }

  /** The first token, unless it is an error, starts after nothing but spaces. */
  lemma StartSkipsSpaces(input: string)
    requires !HaveError(SetInput(Fresh, input))
    ensures Spaces(input, 0, SetInput(Fresh, input).pos)
    ensures SetInput(Fresh, input).kind == TokenType.None ==> EndOfInput(input, SetInput(Fresh, input).pos)
  {
    MatchSkipsSpaces(input, Search(input, 0));
  }

  /** Between consecutive tokens of `ts` only spaces of `input` are skipped, unless the later token is an error. */
  predicate Spaced(input: string, ts: seq<Lexer>)
  {
    forall k :: 0 <= k < |ts| - 1 && !HaveError(ts[k + 1]) ==> Spaces(input, End(ts[k]), ts[k + 1].pos)
  }

  /** Putting a token in front of a spaced stream keeps it spaced when the gap to the old head is spaced. */
  lemma SpacedCons(input: string, lx: Lexer, rest: seq<Lexer>)
    requires |rest| > 0 && Spaced(input, rest)
    requires !HaveError(rest[0]) ==> Spaces(input, End(lx), rest[0].pos)
    ensures Spaced(input, [lx] + rest)
  {
    var ts := [lx] + rest;
    forall k | 0 <= k < |ts| - 1 && !HaveError(ts[k + 1])
      ensures Spaces(input, End(ts[k]), ts[k + 1].pos)
    {
      assert ts[k + 1] == rest[k];
      if k > 0 {
        assert ts[k] == rest[k - 1];
      }
    }
  }

  /** Between consecutive tokens of a stream only spaces are skipped. */
  lemma {:induction false} TokensFromSkipSpaces(lx: Lexer)
    requires Consistent(lx)
    ensures Spaced(lx.input, TokensFrom(lx))
    decreases |lx.input| - End(lx)
  {
    if !Terminal(lx) {
      var next := Advance(lx);
      AdvanceKeepsConsistent(lx);
      if !HaveError(next) {
        AdvanceSkipsSpaces(lx);
      }
      if !Terminal(next) {
        TokensFromSkipSpaces(next);
        SpacedCons(lx.input, lx, TokensFrom(next));
      } else {
        SpacedCons(lx.input, lx, [next]);
      }
    }
  }

  /**
    An end-of-input token reached by advancing stands where `$` holds: at the
    end of the input or before a final line feed.
   */
  lemma {:induction false} TokensFromEndAtEnd(lx: Lexer)
    requires Consistent(lx)
    ensures var ts := TokensFrom(lx);
      |ts| > 1 && ts[|ts| - 1].kind == TokenType.None ==> EndOfInput(lx.input, ts[|ts| - 1].pos)
    decreases |lx.input| - End(lx)
  {
    if !Terminal(lx) {
      var next := Advance(lx);
      AdvanceKeepsConsistent(lx);
      if Terminal(next) {
        if next.kind == TokenType.None {
          AdvanceSkipsSpaces(lx);
        }
      } else {
        TokensFromEndAtEnd(next);
        assert TokensFrom(lx) == [lx] + TokensFrom(next);
      }
    }
  }

  /**
    The whole stream: spaces before the first token and between tokens, and an
    end-of-input token at the end of the input or before a final line feed.
   */
  lemma TokensSkipOnlySpaces(input: string)
    ensures var ts := Tokens(input);
      && (!HaveError(ts[0]) ==> Spaces(input, 0, ts[0].pos))
      && (forall k :: 0 <= k < |ts| - 1 && !HaveError(ts[k + 1]) ==> Spaces(input, End(ts[k]), ts[k + 1].pos))
      && (ts[|ts| - 1].kind == TokenType.None ==> EndOfInput(input, ts[|ts| - 1].pos))
  {
    StartIsConsistent(input);
    var start := SetInput(Fresh, input);
    if !HaveError(start) {
      StartSkipsSpaces(input);
    }
    TokensFromSkipSpaces(start);
    TokensFromEndAtEnd(start);
  }

  /**
    A number lexeme starts with a digit or a point, ends with a digit, and is
    never followed by a digit: the mantissa and the exponent each take their
    longest digit run.
   */
  lemma NumberLexemeShape(s: string, r: nat)
    requires r <= |s| && NumberLength(s, r) > 0
    ensures var n := NumberLength(s, r);
      && (IsDigit(s[r]) || s[r] == '.') && IsDigit(s[r + n - 1])
      && (r + n == |s| || !IsDigit(s[r + n]))
  {
    var a := DigitRun(s, r);
    var m := MantissaLength(s, r);
    if r + a < |s| && s[r + a] == '.' && DigitRun(s, r + a + 1) > 0 {
      assert m == a + 1 + DigitRun(s, r + a + 1);
    } else {
      assert m == a && a > 0;
    }
    var e := ExponentLength(s, r + m);
    if e > 0 {
      var p := r + m;
      var sign := if p + 1 < |s| && (s[p + 1] == '+' || s[p + 1] == '-') then 1 else 0;
      assert e == 1 + sign + DigitRun(s, p + 1 + sign);
    }
  }

  /**
    A tokenization without an error token loses nothing but spaces and a final
    line feed: every other character of the input lies inside a token.
   */
  lemma NothingButSpacesLost(input: string, c: nat)
    requires c < |input|
    requires forall k :: 0 <= k < |Tokens(input)| ==> !HaveError(Tokens(input)[k])
    ensures || input[c] == ' '
            || (c == |input| - 1 && input[c] == '\n')
            || exists k :: 0 <= k < |Tokens(input)| && Tokens(input)[k].pos <= c < End(Tokens(input)[k])
  {
    var ts := Tokens(input);
    TokensSkipOnlySpaces(input);
    if c >= ts[0].pos {
      Locate(input, ts, c, 0);
    }
  }

  /** Walking the ordered tokens from `j` on finds the token or gap holding `c`. */
  lemma {:induction false} Locate(input: string, ts: seq<Lexer>, c: nat, j: nat)
    requires c < |input| && j < |ts| && ts[j].pos <= c
    requires Terminal(ts[|ts| - 1]) && forall k :: 0 <= k < |ts| ==> !HaveError(ts[k])
    requires EndOfInput(input, ts[|ts| - 1].pos)
    requires forall k :: 0 <= k < |ts| - 1 ==> Spaces(input, End(ts[k]), ts[k + 1].pos)
    ensures || input[c] == ' '
            || (c == |input| - 1 && input[c] == '\n')
            || exists k :: 0 <= k < |ts| && ts[k].pos <= c < End(ts[k])
    decreases |ts| - j
  {
    if c >= End(ts[j]) && j < |ts| - 1 {
      if c < ts[j + 1].pos {
        assert Spaces(input, End(ts[j]), ts[j + 1].pos);
      } else {
        Locate(input, ts, c, j + 1);
      }
    }
  }

  /**
    A formula ending in a line feed is read without an error: in `x` and a line
    feed, the end-of-input token stands on the line feed.
   */
  lemma TrailingLineFeedEndsInput()
    ensures var ts := Tokens("x\n");
      |ts| == 2 && ts[0].kind == TokenType.Identifier && ts[1].kind == TokenType.None && ts[1].pos == 1
  {
    var s := "x\n";
    var lx0 := Lexer(s, Matched(0, 1, IdentifierGroup, 0, 1), 0, 1, TokenType.Identifier, SymbolId.None, NaN);
    var lx1 := Lexer(s, Matched(1, 0, EndGroup, 1, 0), 1, 0, TokenType.None, SymbolId.None, NaN);
    LineFeedFirstToken();
    LineFeedSecondToken(lx0);
    StartIsConsistent(s);
    assert TokensFrom(lx0) == [lx0, lx1];
  }

  /** The first token of `x` and a line feed is the identifier `x`. */
  lemma LineFeedFirstToken()
    ensures SetInput(Fresh, "x\n") == Lexer("x\n", Matched(0, 1, IdentifierGroup, 0, 1), 0, 1, TokenType.Identifier, SymbolId.None, NaN)
  {
    var s := "x\n";
    assert SpaceRun(s, 0) == 0 && NumberLength(s, 0) == 0 && IdentifierLength(s, 0) == 1;
    assert MatchAt(s, 0) == Matched(0, 1, IdentifierGroup, 0, 1);
  }

  /** After `x`, the pattern's `$` matches before the final line feed. */
  lemma LineFeedSecondToken(lx0: Lexer)
    requires lx0 == Lexer("x\n", Matched(0, 1, IdentifierGroup, 0, 1), 0, 1, TokenType.Identifier, SymbolId.None, NaN)
    ensures Advance(lx0) == Lexer("x\n", Matched(1, 0, EndGroup, 1, 0), 1, 0, TokenType.None, SymbolId.None, NaN)
  {
    var s := "x\n";
    assert SpaceRun(s, 1) == 0 && EndOfInput(s, 1);
    assert NumberLength(s, 1) == 0 && IdentifierLength(s, 1) == 0 && SymbolLength(s, 1) == 0;
    assert MatchAt(s, 1) == Matched(1, 0, EndGroup, 1, 0);
    assert NextMatch(s, lx0.m) == Matched(1, 0, EndGroup, 1, 0);
  }

  // ---------------------------------------------------------------------------
  // Number values

  predicate AllDigits(s: string) {
    forall k :: 0 <= k < |s| ==> IsDigit(s[k])
  }

  /** A run of digits followed by a non-digit, or by the end, is exactly that long. */
  lemma DigitRunOf(t: string, i: nat, a: string)
    requires i + |a| <= |t| && t[i..i + |a|] == a && AllDigits(a)
    requires i + |a| == |t| || !IsDigit(t[i + |a|])
    ensures DigitRun(t, i) == |a|
  {
  }

  /** A lexeme of digits alone has its decimal value. */
  lemma IntegerLexemeValue(a: string)
    requires |a| > 0 && AllDigits(a)
    ensures TryParse(a) == Wrappers.Some(Finite(DigitsValue(a) as real))
  {
    DigitRunOf(a, 0, a);
    assert a[..|a|] == a;
  }

  /** A lexeme `a.b` of two digit strings has the value a + b / 10^|b|. */
  lemma FractionLexemeValue(a: string, b: string)
    requires AllDigits(a) && AllDigits(b) && |b| > 0
    ensures TryParse(a + "." + b) == Wrappers.Some(Finite(PointValue(DigitsValue(a), b)))
  {
    var t := a + "." + b;
    assert t[0..|a|] == a;
    DigitRunOf(t, 0, a);
    assert t[|a| + 1..|a| + 1 + |b|] == b;
    DigitRunOf(t, |a| + 1, b);
    assert MantissaLength(t, 0) == |t|;
    assert NumberLength(t, 0) == |t|;
    assert t[..|a|] == a && t[|a| + 1..] == b;
    MantissaValue(t, |a|);
    LexemeParses(t);
  }

  /** The value of a lexeme that is all mantissa, with its point after `a` digits. */
  lemma MantissaValue(t: string, a: nat)
    requires 0 < NumberLength(t, 0) == |t| && MantissaLength(t, 0) == |t|
    requires DigitRun(t, 0) == a && a + 1 < |t|
    ensures AllDigits(t[..a]) && AllDigits(t[a + 1..])
    ensures DecimalValue(t) == PointValue(DigitsValue(t[..a]), t[a + 1..])
  {
    assert t[a + 1..|t|] == t[a + 1..];
  }

  /**
    A lexeme `a` `E` `e` of digit strings, the exponent optionally signed, is
    the number a times ten to the e, or a divided by it when the sign is `-`.
   */
  lemma ExponentLexemeValue(a: string, x: char, sign: string, e: string)
    requires |a| > 0 && AllDigits(a) && |e| > 0 && AllDigits(e)
    requires x == 'E' || x == 'e'
    requires sign == "" || sign == "+" || sign == "-"
    ensures TryParse(a + [x] + sign + e) == Wrappers.Some(Finite(Scaled(DigitsValue(a) as real, sign == "-", DigitsValue(e))))
  {
    var t := a + [x] + sign + e;
    var p := |a| + 1 + |sign|;
    assert t[0..|a|] == a;
    DigitRunOf(t, 0, a);
    assert MantissaLength(t, 0) == |a|;
    assert t[p..p + |e|] == e;
    DigitRunOf(t, p, e);
    assert ExponentLength(t, |a|) == 1 + |sign| + |e|;
    assert NumberLength(t, 0) == |t|;
    assert t[..|a|] == a && t[p..] == e;
    ExponentValue(t, |a|, p);
    LexemeParses(t);
  }

  /** The value of a lexeme whose mantissa is the `a` digits before the exponent that starts its digits at `p`. */
  lemma ExponentValue(t: string, a: nat, p: nat)
    requires 0 < NumberLength(t, 0) == |t| && DigitRun(t, 0) == a == MantissaLength(t, 0) < |t|
    requires p == (if t[a + 1] == '+' || t[a + 1] == '-' then a + 2 else a + 1)
    ensures AllDigits(t[..a]) && AllDigits(t[p..])
    ensures DecimalValue(t) == Scaled(DigitsValue(t[..a]) as real, t[a + 1] == '-', DigitsValue(t[p..]))
  {
  }

  /** A complete number lexeme parses to its decimal value. */
  lemma LexemeParses(t: string)
    requires 0 < NumberLength(t, 0) == |t|
    ensures TryParse(t) == Wrappers.Some(Finite(DecimalValue(t)))
  {
  }

  // ---------------------------------------------------------------------------
  // Token values

  /** Cutting `s[lo..hi]` out of `s` cuts each digit run short at `hi` and changes it nowhere else. */
  lemma {:induction false} DigitRunSlice(s: string, lo: nat, hi: nat, k: nat)
    requires lo + k <= hi <= |s|
    ensures DigitRun(s[lo..hi], k) == if DigitRun(s, lo + k) <= hi - lo - k then DigitRun(s, lo + k) else hi - lo - k
    decreases hi - lo - k
  {
    if lo + k < hi {
      assert s[lo..hi][k] == s[lo + k];
      DigitRunSlice(s, lo, hi, k + 1);
    }
  }

  /** The mantissa of a number lexeme reads the same in the lexeme cut out of its input. */
  lemma MantissaSlice(s: string, r: nat, n: nat)
    requires r + n <= |s| && 0 < MantissaLength(s, r) <= n
    requires MantissaLength(s, r) < n ==> s[r + MantissaLength(s, r)] == 'E' || s[r + MantissaLength(s, r)] == 'e'
    ensures MantissaLength(s[r..r + n], 0) == MantissaLength(s, r)
  {
    var t := s[r..r + n];
    var a := DigitRun(s, r);
    DigitRunSlice(s, r, r + n, 0);
    if r + a < |s| && s[r + a] == '.' && DigitRun(s, r + a + 1) > 0 {
      FractionSlice(s, r, n, a);
      MantissaWithFraction(t, a);
    } else {
      if a < n {
        assert t[a] == s[r + a];
      }
      MantissaWithoutFraction(t, a);
    }
  }

  /** A mantissa with a fraction keeps its point and its fraction digits in the cut lexeme. */
  lemma FractionSlice(s: string, r: nat, n: nat, a: nat)
    requires r + n <= |s| && a == DigitRun(s, r) && r + a < |s| && s[r + a] == '.'
    requires 0 < DigitRun(s, r + a + 1) && a + 1 + DigitRun(s, r + a + 1) <= n
    ensures var t := s[r..r + n];
      a < |t| && t[a] == '.' && DigitRun(t, a + 1) == DigitRun(s, r + a + 1)
  {
    DigitRunSlice(s, r, r + n, a + 1);
  }

  /** Digits, a point and more digits make a mantissa that spans all three. */
  lemma MantissaWithFraction(t: string, a: nat)
    requires a == DigitRun(t, 0) && a < |t| && t[a] == '.' && DigitRun(t, a + 1) > 0
    ensures MantissaLength(t, 0) == a + 1 + DigitRun(t, a + 1)
  {
  }

  /** Digits not followed by a point are the whole mantissa. */
  lemma MantissaWithoutFraction(t: string, a: nat)
    requires a == DigitRun(t, 0) && (a < |t| ==> t[a] != '.')
    ensures MantissaLength(t, 0) == a
  {
  }

  /** The exponent of a number lexeme reads the same in the lexeme cut out of its input. */
  lemma ExponentSlice(s: string, r: nat, n: nat, m: nat)
    requires r + m <= r + n <= |s| && ExponentLength(s, r + m) == n - m > 0
    ensures ExponentLength(s[r..r + n], m) == n - m
  {
    var t := s[r..r + n];
    var sign := if r + m + 1 < |s| && (s[r + m + 1] == '+' || s[r + m + 1] == '-') then 1 else 0;
    assert n - m == 1 + sign + DigitRun(s, r + m + 1 + sign);
    DigitRunSlice(s, r, r + n, m + 1 + sign);
    assert t[m] == s[r + m] && t[m + 1] == s[r + m + 1];
  }

  /**
    The lexeme the number group matches is itself a whole number lexeme, so
    `double.TryParse` never rejects it: the error branch of Lexer.cs:118-121
    is never taken.
   */
  lemma NumberLexemeParses(s: string, r: nat)
    requires r <= |s| && NumberLength(s, r) > 0
    ensures var t := s[r..r + NumberLength(s, r)];
      NumberLength(t, 0) == |t| && TryParse(t) == Wrappers.Some(Finite(DecimalValue(t)))
  {
    NumberSlice(s, r);
    LexemeParses(s[r..r + NumberLength(s, r)]);
  }

  /** The number lexeme cut out of its input is read whole by the number pattern. */
  lemma NumberSlice(s: string, r: nat)
    requires r <= |s| && NumberLength(s, r) > 0
    ensures NumberLength(s[r..r + NumberLength(s, r)], 0) == NumberLength(s, r)
  {
    var n := NumberLength(s, r);
    var m := MantissaLength(s, r);
    NumberParts(s, r);
    if m < n {
      ExponentSlice(s, r, n, m);
    }
    MantissaSlice(s, r, n);
    NumberFromParts(s[r..r + n], m);
  }

  /** A number lexeme is its mantissa followed by its exponent, which starts with `E` or `e`. */
  lemma NumberParts(s: string, r: nat)
    requires r <= |s| && NumberLength(s, r) > 0
    ensures var m := MantissaLength(s, r);
      && 0 < m <= NumberLength(s, r) && ExponentLength(s, r + m) == NumberLength(s, r) - m
      && (m < NumberLength(s, r) ==> s[r + m] == 'E' || s[r + m] == 'e')
  {
  }

  /** A mantissa followed by an exponent that runs to the end is one whole number lexeme. */
  lemma NumberFromParts(t: string, m: nat)
    requires 0 < m == MantissaLength(t, 0) <= |t|
    requires m < |t| ==> ExponentLength(t, m) == |t| - m
    ensures NumberLength(t, 0) == |t|
  {
  }

  /** A number match right after the previous token is a Number token valued at its lexeme. */
  lemma NumberMatchIsNumberToken(input: string, m: Match, prevPos: nat, prevLen: nat)
    requires InInput(input, m) && m.index <= |input| && m == MatchAt(input, m.index)
    requires m.group == NumberGroup && m.index <= prevPos + prevLen
    ensures var lx := InitializeToken(input, m, prevPos, prevLen);
      && lx.kind == TokenType.Number && TokenString(lx) == Lexeme(input, m)
      && lx.value == Finite(DecimalValue(Lexeme(input, m)))
  {
    NumberGroupLength(input, m);
    NumberGroupToken(input, m, prevPos, prevLen);
  }

  /** A number group spanning a whole number lexeme is classified as a Number token of its value. */
  lemma NumberGroupToken(input: string, m: Match, prevPos: nat, prevLen: nat)
    requires InInput(input, m) && m.group == NumberGroup && m.index <= prevPos + prevLen
    requires m.groupLength == NumberLength(input, m.groupIndex)
    ensures var lx := InitializeToken(input, m, prevPos, prevLen);
      && lx.kind == TokenType.Number && TokenString(lx) == Lexeme(input, m)
      && lx.value == Finite(DecimalValue(Lexeme(input, m)))
  {
    var n := NumberLength(input, m.groupIndex);
    var t := input[m.groupIndex..m.groupIndex + n];
    NumberLexemeParses(input, m.groupIndex);
    assert Lexeme(input, m) == t;
    var lx := InitializeToken(input, m, prevPos, prevLen);
    assert lx.pos == m.groupIndex && lx.len == m.groupLength;
    assert TokenString(lx) == t;
  }

  /** The number group of the pattern spans exactly the number lexeme. */
  lemma NumberGroupLength(s: string, m: Match)
    requires m.Matched? && m.index <= |s| && m == MatchAt(s, m.index) && m.group == NumberGroup
    ensures m.groupIndex <= |s| && m.groupLength == NumberLength(s, m.groupIndex)
  {
  }

  /** A Number token carries the value `double.TryParse` gives its own text. */
  predicate NumberValued(lx: Lexer) {
    lx.kind == TokenType.Number ==>
      lx.pos + lx.len <= |lx.input| && TryParse(TokenString(lx)) == Wrappers.Some(lx.value)
  }

  /** Every classified match gives a valued token. */
  lemma InitializedIsValued(input: string, m: Match, prevPos: nat, prevLen: nat)
    requires m.Matched? ==> InInput(input, m)
    ensures NumberValued(InitializeToken(input, m, prevPos, prevLen))
  {
  }

  /** Every token of a stream read from a consistent, valued state is valued. */
  lemma {:induction false} TokensFromValued(lx: Lexer)
    requires Consistent(lx) && NumberValued(lx)
    ensures forall k :: 0 <= k < |TokensFrom(lx)| ==> NumberValued(TokensFrom(lx)[k])
    decreases |lx.input| - End(lx)
  {
    if !Terminal(lx) {
      var next := Advance(lx);
      AdvanceKeepsConsistent(lx);
      InitializedIsValued(lx.input, NextMatch(lx.input, lx.m), lx.pos, lx.len);
      if !Terminal(next) {
        TokensFromValued(next);
        assert TokensFrom(lx) == [lx] + TokensFrom(next);
      }
    }
  }

  /**
    The value of every Number token of an input is `double.TryParse` of its
    text; a token of digits alone is worth their base-ten value, which ties
    `Const(ts[i].value)` in the parsers to the digits typed.
   */
  lemma NumberTokenValue(input: string, k: nat)
    requires k < |Tokens(input)| && Tokens(input)[k].kind == TokenType.Number
    ensures var lx := Tokens(input)[k];
      TryParse(TokenString(lx)) == Wrappers.Some(lx.value)
    ensures var lx := Tokens(input)[k];
      AllDigits(TokenString(lx)) ==> lx.value == Finite(DigitsValue(TokenString(lx)) as real)
  {
    var start := SetInput(Fresh, input);
    StartIsConsistent(input);
    InitializedIsValued(input, Search(input, 0), Fresh.pos, Fresh.len);
    TokensFromValued(start);
    var lx := Tokens(input)[k];
    assert NumberValued(lx);
    var t := TokenString(lx);
    assert TryParse(t) == Wrappers.Some(lx.value);
    if AllDigits(t) {
      assert |t| > 0;
      IntegerLexemeValue(t);
    }
  }
}
