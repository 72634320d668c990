/**
  The tokenizer. `Lexer.cs` drives a regular expression
      " *(?:(number)|(identifier)|(symbol)|($))"
  and classifies each match; here the same pattern is scanned by hand over the
  input string, and the lexer's mutable cursor is an immutable `Lexer` value.
  The pattern is compiled without the multiline option, so its `$` holds at
  the end of the input and also just before a line feed that ends the input.
 */
module Lexer {
  import opened Doubles
  import Wrappers

  datatype TokenType = Error | None | Number | Identifier | Symbol

  /** The enum's underlying values: Error is -1, None is 0, the real tokens are positive. */
  function Ordinal(t: TokenType): int {
    match t
    case Error => -1
    case None => 0
    case Number => 1
    case Identifier => 2
    case Symbol => 3
  }

  datatype SymbolId =
    | None | Plus | Minus | Multiply | Divide | Caret | LeftParen | RightParen | Comma | Equals
    | BoolOr | BoolAnd | BoolNot | LessThan | LessThanOrEqual | GreaterThan | GreaterThanOrEqual
    | NotEqual | QuestionMark | Colon

  // ---------------------------------------------------------------------------
  // Character classes of the token pattern

  predicate IsDigit(c: char) {
    '0' <= c <= '9'
  }

  predicate IsIdentifierStart(c: char) {
    ('A' <= c <= 'Z') || ('a' <= c <= 'z') || c == '_'
  }

  predicate IsIdentifierChar(c: char) {
    IsIdentifierStart(c) || IsDigit(c)
  }

  /** Number of consecutive space characters (only ' ', not tabs) starting at `i`. */
  function SpaceRun(s: string, i: nat): (n: nat)
    requires i <= |s|
    ensures i + n <= |s|
    ensures forall k :: i <= k < i + n ==> s[k] == ' '
    ensures i + n == |s| || s[i + n] != ' '
    decreases |s| - i
  {
    if i < |s| && s[i] == ' ' then 1 + SpaceRun(s, i + 1) else 0
  }

  /** Length of the run `[0-9]*` starting at `i`. */
  function DigitRun(s: string, i: nat): (n: nat)
    requires i <= |s|
    ensures i + n <= |s|
    ensures forall k :: i <= k < i + n ==> IsDigit(s[k])
    ensures i + n == |s| || !IsDigit(s[i + n])
    decreases |s| - i
  {
    if i < |s| && IsDigit(s[i]) then 1 + DigitRun(s, i + 1) else 0
  }

  /** Length of the run `[A-Za-z_0-9]*` starting at `i`. */
  function IdentifierRun(s: string, i: nat): (n: nat)
    requires i <= |s|
    ensures i + n <= |s|
    ensures forall k :: i <= k < i + n ==> IsIdentifierChar(s[k])
    ensures i + n == |s| || !IsIdentifierChar(s[i + n])
    decreases |s| - i
  {
    if i < |s| && IsIdentifierChar(s[i]) then 1 + IdentifierRun(s, i + 1) else 0
  }

  /** Length of the mantissa `[0-9]*\.?[0-9]+` at `r`, or 0 if there is none. */
  function MantissaLength(s: string, r: nat): (n: nat)
    requires r <= |s|
    ensures r + n <= |s|
  {
    var a := DigitRun(s, r);
    if r + a < |s| && s[r + a] == '.' && DigitRun(s, r + a + 1) > 0 then a + 1 + DigitRun(s, r + a + 1)
    else a
  }

  /** Length of the optional exponent `[Ee][+-]?[0-9]+` at `p`, or 0 if it does not match. */
  function ExponentLength(s: string, p: nat): (n: nat)
    requires p <= |s|
    ensures p + n <= |s|
  {
    if p < |s| && (s[p] == 'E' || s[p] == 'e') then
      var sign := if p + 1 < |s| && (s[p + 1] == '+' || s[p + 1] == '-') then 1 else 0;
      var d := DigitRun(s, p + 1 + sign);
      if d > 0 then 1 + sign + d else 0
    else 0
  }

  /** Length of the number lexeme `[0-9]*\.?[0-9]+([Ee][+-]?[0-9]+)?` at `r`, or 0. */
  function NumberLength(s: string, r: nat): (n: nat)
    requires r <= |s|
    ensures r + n <= |s|
  {
    var m := MantissaLength(s, r);
    if m == 0 then 0 else m + ExponentLength(s, r + m)
  }

  /** Length of the identifier lexeme `[A-Za-z_][A-Za-z_0-9]*` at `r`, or 0. */
  function IdentifierLength(s: string, r: nat): (n: nat)
    requires r <= |s|
    ensures r + n <= |s|
    ensures n > 0 <==> r < |s| && IsIdentifierStart(s[r])
    ensures forall k :: r < k < r + n ==> IsIdentifierChar(s[k])
    ensures n > 0 ==> r + n == |s| || !IsIdentifierChar(s[r + n])
  {
    if r < |s| && IsIdentifierStart(s[r]) then 1 + IdentifierRun(s, r + 1) else 0
  }

  // Length of the symbol lexeme `[+\-*/^(),=?:]|[!<>]=?|\|\||&&` at `r`, or 0.
  function SymbolLength(s: string, r: nat): (n: nat)
    requires r <= |s|
    ensures r + n <= |s|
    ensures n <= 2
  {
    if r >= |s| then 0
    else
      var c := s[r];
      var next := if r + 1 < |s| then s[r + 1] else '\0';
      if c in "+-*/^(),=?:" then 1
      else if c == '!' || c == '<' || c == '>' then (if next == '=' then 2 else 1)
      else if c == '|' then (if next == '|' then 2 else 0)
      else if c == '&' then (if next == '&' then 2 else 0)
      else 0
  }

  // ---------------------------------------------------------------------------
  // Regular-expression matches

  /** The capture group that succeeded: 1 number, 2 identifier, 3 symbol, 4 end of input. */
  datatype Group = NumberGroup | IdentifierGroup | SymbolGroup | EndGroup

  /**
    A match of the token pattern: where the whole match starts (leading spaces
    included), its length, and the one group that succeeded. `Failed` is the
    unsuccessful match, whose index reads as 0 and whose groups all fail.
   */
  datatype Match = Failed | Matched(index: nat, length: nat, group: Group, groupIndex: nat, groupLength: nat)

  function Index(m: Match): nat {
    if m.Matched? then m.index else 0
  }

  /** A successful match lies inside `s`, and its group ends where the match ends. */
  predicate InInput(s: string, m: Match) {
    m.Matched? &&
    m.index <= m.groupIndex &&
    m.groupIndex + m.groupLength == m.index + m.length &&
    m.index + m.length <= |s| &&
    (m.group != EndGroup ==> m.groupLength > 0)
  }

  /** Where `$` holds: at the end of `s`, or before a line feed that is the last character. */
  predicate EndOfInput(s: string, r: nat) {
    r == |s| || (r + 1 == |s| && s[r] == '\n')
  }

  /** The pattern anchored at `q`: skip spaces, then try the four alternatives in order. */
  function MatchAt(s: string, q: nat): (m: Match)
    requires q <= |s|
    ensures m.Matched? ==> InInput(s, m) && m.index == q
    ensures q == |s| ==> m.Matched?
    ensures q + 1 == |s| && s[q] == '\n' ==> m == Matched(q, 0, EndGroup, q, 0)
  {
    var r := q + SpaceRun(s, q);
    var n := NumberLength(s, r);
    if n > 0 then Matched(q, r - q + n, NumberGroup, r, n)
    else
      var d := IdentifierLength(s, r);
      if d > 0 then Matched(q, r - q + d, IdentifierGroup, r, d)
      else
        var y := SymbolLength(s, r);
        if y > 0 then Matched(q, r - q + y, SymbolGroup, r, y)
        else if EndOfInput(s, r) then Matched(q, r - q, EndGroup, r, 0)
        else Failed
  }

  /** `Regex.Match` from position `from`: the leftmost position where the pattern matches. */
  function Search(s: string, from: nat): (m: Match)
    ensures from <= |s| ==> InInput(s, m) && m.index >= from
    ensures m.Failed? <==> from > |s|
    ensures m.Matched? ==> m.index <= |s| && m == MatchAt(s, m.index)
    ensures m.Matched? ==> forall q :: from <= q < m.index ==> MatchAt(s, q).Failed?
    decreases |s| + 1 - from
  {
    if from > |s| then Failed
    else
      var m := MatchAt(s, from);
      if m.Matched? then m
      else
        var r := Search(s, from + 1);
        assert r.Matched? ==> forall q :: from <= q < r.index ==> q == from || MatchAt(s, q).Failed?;
        r
  }

  /** Where `NextMatch` resumes: the end of the match, one further after an empty match. */
  function ResumeAt(m: Match): nat
    requires m.Matched?
  {
    m.index + m.length + (if m.length == 0 then 1 else 0)
  }

  /** `Match.NextMatch`: the leftmost match from where the previous one stopped. */
  function NextMatch(s: string, m: Match): (r: Match)
    ensures m.Failed? ==> r.Failed?
    ensures r.Matched? ==> r.index <= |s| && r == MatchAt(s, r.index)
    ensures m.Matched? && r.Matched? ==> r.index >= ResumeAt(m)
    ensures m.Matched? && r.Matched? ==> forall q :: ResumeAt(m) <= q < r.index ==> MatchAt(s, q).Failed?
    ensures m.Matched? ==> (r.Failed? <==> ResumeAt(m) > |s|)
  {
    match m
    case Failed => Failed
    case Matched(_, _, _, _, _) => Search(s, ResumeAt(m))
  }

  // ---------------------------------------------------------------------------
  // Number values

  function DigitValue(c: char): nat
    requires IsDigit(c)
  {
    (c as int - '0' as int) as nat
  }

  /** The value of a string of decimal digits. */
  function DigitsValue(s: string): nat
    requires forall k :: 0 <= k < |s| ==> IsDigit(s[k])
  {
    if |s| == 0 then 0 else 10 * DigitsValue(s[..|s| - 1]) + DigitValue(s[|s| - 1])
  }

  function Pow10(e: nat): (r: nat)
    ensures r > 0
  {
    if e == 0 then 1 else 10 * Pow10(e - 1)
  }

  /** The value of a whole part followed by a point and the digits `fraction`. */
  function PointValue(whole: nat, fraction: string): real
    requires forall k :: 0 <= k < |fraction| ==> IsDigit(fraction[k])
  {
    whole as real + DigitsValue(fraction) as real / Pow10(|fraction|) as real
  }

  /** The exact decimal value of a complete number lexeme. */
  function DecimalValue(t: string): real
    requires 0 < NumberLength(t, 0) == |t|
  {
    var a := DigitRun(t, 0);
    var m := MantissaLength(t, 0);
    var mantissa := if m > a then PointValue(DigitsValue(t[..a]), t[a + 1..m]) else DigitsValue(t[..a]) as real;
    if m == |t| then mantissa
    else
      var digitsFrom := if t[m + 1] == '+' || t[m + 1] == '-' then m + 2 else m + 1;
      Scaled(mantissa, t[m + 1] == '-', DigitsValue(t[digitsFrom..]))
  }

  /** A mantissa times ten to the power `e`, or divided by it when the exponent is negative. */
  function Scaled(mantissa: real, negative: bool, e: nat): real {
    if negative then mantissa / Pow10(e) as real else mantissa * Pow10(e) as real
  }

  /**
    `double.TryParse` under the invariant culture, restricted to the lexemes the
    number pattern can produce: the exact decimal value of a complete lexeme,
    and failure for anything else.
   */
  function TryParse(t: string): (r: Wrappers.Option<Double>)
    ensures r.Some? <==> 0 < NumberLength(t, 0) == |t|
  {
    if 0 < NumberLength(t, 0) == |t| then Wrappers.Some(Finite(DecimalValue(t))) else Wrappers.None
  }

  // ---------------------------------------------------------------------------
  // The lexer state

  /**
    The state of a `Lexer` object of `Lexer.cs`: the input, the current match,
    the span (`pos`, `len`) of the current token, and its type, symbol and value.
   */
  datatype Lexer = Lexer(input: string, m: Match, pos: nat, len: nat, kind: TokenType, symbol: SymbolId, value: Double)

  /** True for Number, Identifier and Symbol tokens: the token type is above None. */
  predicate HaveToken(lx: Lexer) {
    Ordinal(lx.kind) > Ordinal(TokenType.None)
  }

  predicate HaveError(lx: Lexer) {
    lx.kind == TokenType.Error
  }

  /** The position reported in errors: where the whole match starts, leading spaces included. */
  function TokenPos(lx: Lexer): nat {
    Index(lx.m)
  }

  function TokenString(lx: Lexer): string {
    if lx.pos + lx.len <= |lx.input| then lx.input[lx.pos..lx.pos + lx.len] else ""
  }

  /** `CharToSymbol`: the symbol named by a symbol lexeme's first character and the one after it. */
  function CharToSymbol(ch: char, ch2: char): SymbolId {
    match ch
    case '+' => Plus
    case '-' => Minus
    case '*' => Multiply
    case '/' => Divide
    case '^' => Caret
    case '(' => LeftParen
    case ')' => RightParen
    case ',' => Comma
    case '=' => Equals
    case '|' => BoolOr
    case '&' => BoolAnd
    case '!' => if ch2 == '=' then NotEqual else BoolNot
    case '<' => if ch2 == '=' then LessThanOrEqual else LessThan
    case '>' => if ch2 == '=' then GreaterThanOrEqual else GreaterThan
    case '?' => QuestionMark
    case ':' => Colon
    case _ => SymbolId.None
  }

  /**
    `InitializeToken`: classify the match `m` given the span of the previous
    token. Characters skipped between the previous token and the match form an
    Error token; otherwise the group that matched decides the token.
   */
  function InitializeToken(input: string, m: Match, prevPos: nat, prevLen: nat): (lx: Lexer)
    requires m.Matched? ==> InInput(input, m)
    ensures lx.input == input && lx.m == m
    ensures m.Failed? ==> lx.kind == TokenType.Error && lx.pos == 0 && lx.len == 0
    ensures m.Matched? && m.index > prevPos + prevLen ==>
      lx.kind == TokenType.Error && lx.pos == prevPos + prevLen && lx.pos + lx.len == m.index
    ensures m.Matched? && m.index <= prevPos + prevLen ==>
      lx.pos == m.groupIndex && lx.len == m.groupLength && (lx.kind == TokenType.None <==> m.group == EndGroup)
    ensures m.Matched? && m.index <= prevPos + prevLen && m.group == NumberGroup ==>
      && (TryParse(Lexeme(input, m)).Some? ==> lx.kind == TokenType.Number && lx.value == TryParse(Lexeme(input, m)).value)
      && (TryParse(Lexeme(input, m)).None? ==> lx.kind == TokenType.Error)
    ensures m.Matched? && m.index <= prevPos + prevLen && m.group == IdentifierGroup ==>
      lx.kind == TokenType.Identifier
    ensures m.Matched? && m.index <= prevPos + prevLen && m.group == SymbolGroup ==>
      lx.kind == TokenType.Symbol
      && lx.symbol == CharToSymbol(input[m.groupIndex], if m.groupLength > 1 then input[m.groupIndex + 1] else '\0')
  {
    var p := prevPos + prevLen;
    match m
    case Failed => Lexer(input, m, Index(m), 0, TokenType.Error, SymbolId.None, NaN)
    case Matched(index, _, group, gi, gl) =>
      if index > p then Lexer(input, m, p, index - p, TokenType.Error, SymbolId.None, NaN)
      else
        match group
        case NumberGroup =>
          (match TryParse(input[gi..gi + gl])
           case Some(v) => Lexer(input, m, gi, gl, TokenType.Number, SymbolId.None, v)
           case None => Lexer(input, m, gi, gl, TokenType.Error, SymbolId.None, Finite(0.0)))
        case IdentifierGroup => Lexer(input, m, gi, gl, TokenType.Identifier, SymbolId.None, NaN)
        case SymbolGroup =>
          Lexer(input, m, gi, gl, TokenType.Symbol,
                CharToSymbol(input[gi], if gl > 1 then input[gi + 1] else '\0'), NaN)
        case EndGroup => Lexer(input, m, gi, gl, TokenType.None, SymbolId.None, NaN)
  }

  /** The text of the group that matched. */
  function Lexeme(input: string, m: Match): string
    requires InInput(input, m)
  {
    input[m.groupIndex..m.groupIndex + m.groupLength]
  }

  /** A lexer that has never been given input. */
  const Fresh: Lexer := Lexer("", Failed, 0, 0, TokenType.None, SymbolId.None, NaN)

  /** Setting `InputString`: match from the start and classify the first token. */
  function SetInput(lx: Lexer, input: string): Lexer {
    InitializeToken(input, Search(input, 0), lx.pos, lx.len)
  }

  /** `Advance`: move to the next match and classify it. */
  function Advance(lx: Lexer): Lexer
    requires lx.m.Matched? ==> InInput(lx.input, lx.m)
  {
    var next := NextMatch(lx.input, lx.m);
    assert next.Matched? ==> InInput(lx.input, next);
    InitializeToken(lx.input, next, lx.pos, lx.len)
  }

  // ---------------------------------------------------------------------------
  // The token stream

  /** End of input and errors end the stream: the parser never advances past them. */
  predicate Terminal(lx: Lexer) {
    lx.kind == TokenType.Error || lx.kind == TokenType.None
  }

  /** The state a lexer keeps while it walks one input from the start. */
  predicate Consistent(lx: Lexer) {
    InInput(lx.input, lx.m) &&
    lx.pos + lx.len <= lx.m.index + lx.m.length &&
    (!Terminal(lx) ==> lx.len > 0 && lx.pos == lx.m.groupIndex && lx.len == lx.m.groupLength) &&
    (Terminal(lx) ==> lx.symbol == SymbolId.None)
  }

  /** The end of the current token. */
  function End(lx: Lexer): nat {
    lx.pos + lx.len
  }

  /**
    The tokens the lexer yields from `lx` on, up to and including the first
    end-of-input or error token.
   */
  function TokensFrom(lx: Lexer): (ts: seq<Lexer>)
    requires Consistent(lx)
    ensures |ts| >= 1 && ts[0] == lx && Terminal(ts[|ts| - 1]) && ts[|ts| - 1].symbol == SymbolId.None
    ensures forall k :: 0 <= k < |ts| - 1 ==> !Terminal(ts[k])
    decreases |lx.input| - End(lx)
  {
    if Terminal(lx) then [lx]
    else
      var next := Advance(lx);
      AdvanceKeepsConsistent(lx);
      if Terminal(next) then [lx, next]
      else [lx] + TokensFrom(next)
  }

  /** The whole token stream of `input`, read by a lexer that starts fresh. */
  function Tokens(input: string): (ts: seq<Lexer>)
    ensures |ts| >= 1 && Terminal(ts[|ts| - 1]) && ts[|ts| - 1].symbol == SymbolId.None
    ensures forall k :: 0 <= k < |ts| - 1 ==> !Terminal(ts[k])
  {
    StartIsConsistent(input);
    TokensFrom(SetInput(Fresh, input))
  }

  // ---------------------------------------------------------------------------
  // Facts about the lexer

  lemma StartIsConsistent(input: string)
    ensures Consistent(SetInput(Fresh, input))
  {
  }

  /** Classifying a match that lies at or after the previous token gives a consistent state. */
  lemma InitializeKeepsConsistent(input: string, m: Match, prevPos: nat, prevLen: nat)
    requires InInput(input, m) && m.index >= prevPos + prevLen
    ensures var lx := InitializeToken(input, m, prevPos, prevLen);
      && Consistent(lx)
      && lx.pos >= prevPos + prevLen
      && End(lx) >= prevPos + prevLen
      && (!Terminal(lx) ==> End(lx) > prevPos + prevLen)
  {
  }

  /**
    Advancing from a real token yields a consistent state whose token starts
    at or after the end of the previous one, and ends strictly later unless it
    ends the stream.
   */
  lemma AdvanceKeepsConsistent(lx: Lexer)
    requires Consistent(lx) && !Terminal(lx)
    ensures Consistent(Advance(lx))
    ensures Advance(lx).pos >= End(lx)
    ensures End(Advance(lx)) >= End(lx)
    ensures !Terminal(Advance(lx)) ==> End(Advance(lx)) > End(lx)
    ensures Advance(lx).input == lx.input
  {
    NextMatchAfter(lx.input, lx.m);
    InitializeKeepsConsistent(lx.input, NextMatch(lx.input, lx.m), lx.pos, lx.len);
  }

  /** After a non-empty match, the next match is found at or after its end. */
  lemma NextMatchAfter(s: string, m: Match)
    requires InInput(s, m) && m.length > 0
    ensures InInput(s, NextMatch(s, m)) && NextMatch(s, m).index >= m.index + m.length
  {
  }
}
