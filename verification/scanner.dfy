/** The scanner (src/scanner.rs).

    The source scans the bytes of its input; the model scans a `string` whose
    characters stand for those bytes. The scanner in this revision of rlox has no case for
    letters, so identifiers and keywords are reported as unexpected
    characters and produce no token. Number text is given its exact decimal
    value (the source's `parse::<f64>` rounds it). */
module Scanner {
  import opened Common
  import opened Tokens

  /** `is_digit`. */
  predicate IsDigit(c: char) {
    '0' <= c <= '9'
  }

  /** `peek`: the current character, or NUL at the end. */
  function Peek(src: string, cur: nat): char {
    if cur >= |src| then '\0' else src[cur]
  }

  /** `peek_next`: the character after the current one, or NUL. */
  function PeekNext(src: string, cur: nat): char {
    if cur + 1 >= |src| then '\0' else src[cur + 1]
  }

  /** `match_ch`: consumes `ch` when it is the current character. */
  function MatchCh(src: string, cur: nat, ch: char): (next: nat)
    ensures next == cur || next == cur + 1
    ensures next == cur + 1 <==> cur < |src| && src[cur] == ch
  {
    if cur >= |src| then cur
    else if ch != src[cur] then cur
    else cur + 1
  }

  /** The number of newlines in `src[a..b]`. */
  function NewlinesIn(src: string, a: nat, b: nat): nat
    requires a <= b <= |src|
    decreases b - a
  {
    if a == b then 0 else (if src[a] == '\n' then 1 else 0) + NewlinesIn(src, a + 1, b)
  }

  lemma {:induction false} NewlinesSplit(src: string, a: nat, b: nat, c: nat)
    requires a <= b <= c <= |src|
    ensures NewlinesIn(src, a, c) == NewlinesIn(src, a, b) + NewlinesIn(src, b, c)
    decreases b - a
  {
    if a < b {
      NewlinesSplit(src, a + 1, b, c);
    }
  }

  /** The comment loop: up to, not including, the next newline. */
  function SkipComment(src: string, cur: nat): (r: nat)
    requires cur <= |src|
    ensures cur <= r <= |src|
    ensures r == |src| || src[r] == '\n'
    ensures forall k :: cur <= k < r ==> src[k] != '\n'
    ensures NewlinesIn(src, cur, r) == 0
    decreases |src| - cur
  {
    if Peek(src, cur) != '\n' && cur < |src| then SkipComment(src, cur + 1) else cur
  }

  /** A maximal run of digits starting at `cur`. */
  function SkipDigits(src: string, cur: nat): (r: nat)
    requires cur <= |src|
    ensures cur <= r <= |src|
    ensures forall k :: cur <= k < r ==> IsDigit(src[k])
    ensures !IsDigit(Peek(src, r))
    ensures NewlinesIn(src, cur, r) == 0
    decreases |src| - cur
  {
    if IsDigit(Peek(src, cur)) then SkipDigits(src, cur + 1) else cur
  }

  /** The loop of `string`: up to the closing quote or the end, counting lines. */
  function SkipString(src: string, cur: nat, line: nat): (r: (nat, nat))
    requires cur <= |src|
    ensures cur <= r.0 <= |src|
    ensures r.0 == |src| || src[r.0] == '"'
    ensures forall k :: cur <= k < r.0 ==> src[k] != '"'
    ensures r.1 == line + NewlinesIn(src, cur, r.0)
    decreases |src| - cur
  {
    if Peek(src, cur) != '"' && cur < |src| then
      SkipString(src, cur + 1, if Peek(src, cur) == '\n' then line + 1 else line)
    else (cur, line)
  }

  /* The exact value of number text. */

  function DigitValue(c: char): nat {
    if IsDigit(c) then (c as int - '0' as int) as nat else 0
  }

  function NaturalValue(ds: string): nat
    decreases |ds|
  {
    if |ds| == 0 then 0 else NaturalValue(ds[..|ds| - 1]) * 10 + DigitValue(ds[|ds| - 1])
  }

  function Pow10(n: nat): (r: nat)
    ensures r > 0
  {
    if n == 0 then 1 else 10 * Pow10(n - 1)
  }

  /** The position of the first '.', or `|s|`. */
  function DotIndex(s: string): (k: nat)
    ensures k <= |s| && (k < |s| ==> s[k] == '.')
    ensures forall j :: 0 <= j < k ==> s[j] != '.'
  {
    if |s| == 0 then 0 else if s[0] == '.' then 0 else 1 + DotIndex(s[1..])
  }

  /** The decimal value of `digits` or `digits.digits`. */
  function NumberValue(s: string): real {
    var k := DotIndex(s);
    if k == |s| then NaturalValue(s) as real
    else NaturalValue(s[..k]) as real + (NaturalValue(s[k + 1..]) as real) / (Pow10(|s| - k - 1) as real)
  }

  predicate AllDigits(s: string) {
    forall k :: 0 <= k < |s| ==> IsDigit(s[k])
  }

  /** The shape of a number lexeme: digits, optionally a dot and more digits. */
  predicate IsNumberLexeme(s: string) {
    |s| > 0 && IsDigit(s[0]) &&
    var k := DotIndex(s);
    AllDigits(s[..k]) && (k == |s| || (k < |s| - 1 && AllDigits(s[k + 1..])))
  }

  /* Token classification, independent of how the scanner reaches it. */

  /** The token a one-character lexeme denotes. */
  function OneCharType(c: char): Option<TokenType> {
    match c
    case '(' => Some(LeftParen)
    case ')' => Some(RightParen)
    case '{' => Some(LeftBrace)
    case '}' => Some(RightBrace)
    case ',' => Some(Comma)
    case '.' => Some(Dot)
    case '-' => Some(Minus)
    case '+' => Some(Plus)
    case ';' => Some(Semicolon)
    case '*' => Some(Star)
    case '/' => Some(Slash)
    case '!' => Some(Bang)
    case '=' => Some(Equal)
    case '<' => Some(Less)
    case '>' => Some(Greater)
    case _ => None
  }

  /** The token a two-character lexeme `c=` denotes. */
  function EqualsType(c: char): Option<TokenType> {
    match c
    case '!' => Some(BangEqual)
    case '=' => Some(EqualEqual)
    case '<' => Some(LessEqual)
    case '>' => Some(GreaterEqual)
    case _ => None
  }

  /** A quoted string with no quote inside. */
  predicate IsStringLexeme(s: string) {
    |s| >= 2 && s[0] == '"' && s[|s| - 1] == '"' && forall k :: 0 < k < |s| - 1 ==> s[k] != '"'
  }

  /** The token type a lexeme denotes, if it denotes one. */
  function LexemeType(s: string): Option<TokenType> {
    if |s| == 1 && OneCharType(s[0]).Some? then OneCharType(s[0])
    else if |s| == 2 && s[1] == '=' && EqualsType(s[0]).Some? then EqualsType(s[0])
    else if IsNumberLexeme(s) then Some(TokenType.Number)
    else if IsStringLexeme(s) then Some(TokenType.String)
    else None
  }

  /** A token as the scanner emits it: classified by its lexeme, never EOF,
      and carrying its literal. */
  predicate WellFormed(t: Token) {
    t.tokenType != EOF && LexemeType(t.lexeme) == Some(t.tokenType) && LiteralAttached(t)
  }

  /** Characters that always make a one-character token. */
  predicate SingleCharStart(c: char) {
    match c
    case '(' | ')' | '{' | '}' | ',' | '.' | '-' | '+' | ';' | '*' => true
    case _ => false
  }

  /** Characters that make a token of one or two characters. */
  predicate OperatorStart(c: char) {
    match c
    case '!' | '=' | '<' | '>' => true
    case _ => false
  }

  predicate Whitespace(c: char) {
    match c
    case ' ' | '\r' | '\t' | '\n' => true
    case _ => false
  }

  /** What one `scan_token` call leaves behind: where scanning resumes, the
      line counter, and the token emitted, if any. */
  datatype Scanned = Scanned(next: nat, line: nat, token: Option<Token>)

  /** `add_token`: the lexeme is the source slice of the token. */
  function AddToken(src: string, start: nat, cur: nat, t: TokenType, lit: Option<Literal>, line: nat): Token
    requires start <= cur <= |src|
  {
    Token(t, src[start..cur], lit, line)
  }

  /** The one-character arms of `scan_token`. */
  function ScanSingle(src: string, start: nat, line: nat): (r: Scanned)
    requires start < |src| && SingleCharStart(src[start])
    ensures r.next == start + 1 && r.line == line && NewlinesIn(src, start, r.next) == 0
    ensures r.token.Some? && r.token.value.lexeme == src[start..start + 1] && r.token.value.line == line
    ensures WellFormed(r.token.value) && r.token.value.literal.None?
  {
    var lexeme := src[start..start + 1];
    assert lexeme == [src[start]];
    Scanned(start + 1, line, Some(AddToken(src, start, start + 1, OneCharType(src[start]).value, None, line)))
  }

  /** `match_ch('=')` choosing between a one- and a two-character token. */
  function OneOrTwo(src: string, start: nat, line: nat, one: TokenType, two: TokenType): (r: Scanned)
    requires start < |src| && src[start] != '\n'
    ensures r.next == start + 1 || r.next == start + 2
    ensures r.next == start + 2 <==> start + 1 < |src| && src[start + 1] == '='
    ensures r.line == line && NewlinesIn(src, start, r.next) == 0
    ensures r.token == Some(Token(if r.next == start + 2 then two else one, src[start..r.next], None, line))
  {
    var next := MatchCh(src, start + 1, '=');
    assert NewlinesIn(src, start + 1, next) == 0;
    Scanned(next, line, Some(AddToken(src, start, next, if next > start + 1 then two else one, None, line)))
  }

  /** The `!`, `=`, `<` and `>` arms: the two-character token exactly when `=` follows. */
  function ScanOperator(src: string, start: nat, line: nat): (r: Scanned)
    requires start < |src| && OperatorStart(src[start])
    ensures r.next == start + 1 || r.next == start + 2
    ensures r.next == start + 2 <==> start + 1 < |src| && src[start + 1] == '='
    ensures r.line == line && NewlinesIn(src, start, r.next) == 0
    ensures r.token.Some? && r.token.value.lexeme == src[start..r.next] && r.token.value.line == line
    ensures WellFormed(r.token.value) && r.token.value.literal.None?
  {
    var c := src[start];
    var r := OneOrTwo(src, start, line, OneCharType(c).value, EqualsType(c).value);
    OperatorLexemeType(src, start, r.next);
    r
  }

  /** An operator character alone, or followed by `=`, is classified as the
      one- or two-character operator. */
  lemma {:induction false} OperatorLexemeType(src: string, start: nat, next: nat)
    requires start < |src| && OperatorStart(src[start])
    requires next == start + 1 || (next == start + 2 && next <= |src| && src[start + 1] == '=')
    ensures next == start + 1 ==> LexemeType(src[start..next]) == OneCharType(src[start]) != None
    ensures next == start + 2 ==> LexemeType(src[start..next]) == EqualsType(src[start]) != None
  {
    var s := src[start..next];
    assert s[0] == src[start];
    if next == start + 2 {
      assert s[1] == '=';
    }
  }

  /** The `/` arm: a comment to the end of the line, or a Slash. */
  function ScanSlash(src: string, start: nat, line: nat): (r: Scanned)
    requires start < |src| && src[start] == '/'
    ensures r.line == line && start < r.next <= |src| && NewlinesIn(src, start, r.next) == 0
    ensures start + 1 < |src| && src[start + 1] == '/' ==>
      r.token.None? && (r.next == |src| || src[r.next] == '\n') && forall k :: start <= k < r.next ==> src[k] != '\n'
    ensures !(start + 1 < |src| && src[start + 1] == '/') ==>
      r.next == start + 1 && r.token == Some(Token(Slash, "/", None, line))
  {
    var cur := start + 1;
    var after := MatchCh(src, cur, '/');
    if after > cur then
      var end := SkipComment(src, after);
      NewlinesSplit(src, start, after, end);
      assert NewlinesIn(src, start, after) == 0;
      Scanned(end, line, None)
    else
      assert src[start..cur] == "/";
      Scanned(cur, line, Some(AddToken(src, start, cur, Slash, None, line)))
  }

  /** `string`: the text between the quotes, or no token when unterminated. */
  function ScanString(src: string, start: nat, line: nat): (r: Scanned)
    requires start < |src| && src[start] == '"'
    ensures start < r.next <= |src|
    ensures r.line == line + NewlinesIn(src, start, r.next)
    ensures r.token.None? <==> forall k :: start < k < |src| ==> src[k] != '"'
    ensures r.token.None? ==> r.next == |src|
    ensures r.token.Some? ==>
      && IsStringLexeme(src[start..r.next])
      && r.token.value == Token(TokenType.String, src[start..r.next], Some(Literal.String(src[start + 1..r.next - 1])), r.line)
      && WellFormed(r.token.value)
  {
    var (end, l) := SkipString(src, start + 1, line);
    NewlinesSplit(src, start, start + 1, end);
    if end >= |src| then Scanned(end, l, None)
    else
      NewlinesSplit(src, start, end, end + 1);
      Scanned(end + 1, l, Some(AddToken(src, start, end + 1, TokenType.String, Some(Literal.String(src[start + 1..end])), l)))
  }

  /** `number`: a maximal digit run, with a fraction only when the dot is
      followed by a digit; the literal is the exact value of the text. */
  function ScanNumber(src: string, start: nat, line: nat): (r: Scanned)
    requires start < |src| && IsDigit(src[start])
    ensures start < r.next <= |src| && r.line == line && NewlinesIn(src, start, r.next) == 0
    ensures IsNumberLexeme(src[start..r.next])
    ensures !IsDigit(Peek(src, r.next))
    ensures DotIndex(src[start..r.next]) == r.next - start ==> !(Peek(src, r.next) == '.' && IsDigit(PeekNext(src, r.next)))
    ensures r.token == Some(Token(TokenType.Number, src[start..r.next], Some(Literal.Number(NumberValue(src[start..r.next]))), line))
    ensures WellFormed(r.token.value)
  {
    var e1 := SkipDigits(src, start + 1);
    NewlinesSplit(src, start, start + 1, e1);
    if Peek(src, e1) == '.' && IsDigit(PeekNext(src, e1)) then
      var e2 := SkipDigits(src, e1 + 1);
      NewlinesSplit(src, start, e1, e1 + 1);
      NewlinesSplit(src, start, e1 + 1, e2);
      FractionShape(src, start, e1, e2);
      Scanned(e2, line, Some(AddToken(src, start, e2, TokenType.Number, Some(Literal.Number(NumberValue(src[start..e2]))), line)))
    else
      IntegerShape(src, start, e1);
      Scanned(e1, line, Some(AddToken(src, start, e1, TokenType.Number, Some(Literal.Number(NumberValue(src[start..e1]))), line)))
  }

  /** A run of digits is a number lexeme without a fraction. */
  lemma {:induction false} IntegerShape(src: string, start: nat, e: nat)
    requires start < e <= |src| && forall j :: start <= j < e ==> IsDigit(src[j])
    ensures IsNumberLexeme(src[start..e]) && DotIndex(src[start..e]) == e - start
  {
    var s := src[start..e];
    assert forall j :: 0 <= j < |s| ==> s[j] == src[start + j];
    DotIndexNone(s);
    assert s[..|s|] == s;
  }

  /** Digits, a dot and at least one more digit make a number lexeme whose
      dot is the first one. */
  lemma {:induction false} FractionShape(src: string, start: nat, e1: nat, e2: nat)
    requires start < e1 && e1 + 1 < e2 <= |src| && src[e1] == '.'
    requires forall j :: start <= j < e1 ==> IsDigit(src[j])
    requires forall j :: e1 < j < e2 ==> IsDigit(src[j])
    ensures IsNumberLexeme(src[start..e2]) && DotIndex(src[start..e2]) == e1 - start
  {
    var s := src[start..e2];
    var k := e1 - start;
    assert forall j :: 0 <= j < |s| ==> s[j] == src[start + j];
    DotIndexIsFirstDot(s, k);
    var head := s[..k];
    assert forall j :: 0 <= j < |head| ==> head[j] == src[start + j];
    var tail := s[k + 1..];
    assert forall j :: 0 <= j < |tail| ==> tail[j] == src[e1 + 1 + j];
  }

  lemma {:induction false} DotIndexNone(s: string)
    requires forall j :: 0 <= j < |s| ==> s[j] != '.'
    ensures DotIndex(s) == |s|
  {
    if |s| > 0 {
      DotIndexNone(s[1..]);
    }
  }

  lemma {:induction false} DotIndexIsFirstDot(s: string, k: nat)
    requires k < |s| && s[k] == '.' && forall j :: 0 <= j < k ==> s[j] != '.'
    ensures DotIndex(s) == k
  {
    if k > 0 {
      DotIndexIsFirstDot(s[1..], k - 1);
    }
  }

  /** `scan_token`: consumes at least one character and emits at most one
      token, whose lexeme is exactly the text consumed. */
  function ScanToken(src: string, start: nat, line: nat): (r: Scanned)
    requires start < |src|
    ensures start < r.next <= |src|
    ensures r.line == line + NewlinesIn(src, start, r.next)
    ensures r.token.Some? ==>
      && r.token.value.lexeme == src[start..r.next]
      && r.token.value.line == r.line
      && WellFormed(r.token.value)
    ensures SingleCharStart(src[start]) ==> r.next == start + 1 && r.token.Some?
    ensures OperatorStart(src[start]) ==>
      r.token.Some? && r.next <= start + 2 && (r.next == start + 2 <==> start + 1 < |src| && src[start + 1] == '=')
    ensures src[start] == '/' ==> r == ScanSlash(src, start, line)
    ensures src[start] == '"' ==> r == ScanString(src, start, line)
    ensures IsDigit(src[start]) ==> r == ScanNumber(src, start, line)
    // whitespace and unexpected characters are skipped one at a time
    ensures Whitespace(src[start]) ==> r.next == start + 1 && r.token.None?
    ensures !(SingleCharStart(src[start]) || OperatorStart(src[start]) || src[start] == '/' ||
              src[start] == '"' || IsDigit(src[start]) || Whitespace(src[start])) ==>
      r.next == start + 1 && r.token.None? && r.line == line
  {
    var c := src[start];
    if SingleCharStart(c) then ScanSingle(src, start, line)
    else if OperatorStart(c) then ScanOperator(src, start, line)
    else if c == '/' then
      var r := ScanSlash(src, start, line);
      assert r.token.Some? ==> src[start..r.next] == "/";
      r
    else if c == '"' then ScanString(src, start, line)
    else if Whitespace(c) then
      assert NewlinesIn(src, start, start + 1) == (if c == '\n' then 1 else 0);
      Scanned(start + 1, if c == '\n' then line + 1 else line, None)
    else if IsDigit(c) then ScanNumber(src, start, line)
    else
      assert NewlinesIn(src, start, start + 1) == 0;
      Scanned(start + 1, line, None)
  }

  /** The loop of `scan_tokens` from position `pos`. */
  function ScanFrom(src: string, pos: nat, line: nat): (ts: seq<Token>)
    requires pos <= |src|
    ensures |ts| > 0 && ts[|ts| - 1] == Token(EOF, "", None, line + NewlinesIn(src, pos, |src|))
    ensures forall i :: 0 <= i < |ts| - 1 ==> WellFormed(ts[i])
    decreases |src| - pos
  {
    if pos >= |src| then [Token(EOF, "", None, line)]
    else
      var s := ScanToken(src, pos, line);
      var rest := ScanFrom(src, s.next, s.line);
      NewlinesSplit(src, pos, s.next, |src|);
      if s.token.Some? then
        var ts := [s.token.value] + rest;
        assert forall i :: 0 <= i < |ts| - 1 ==> WellFormed(ts[i]) by {
          forall i | 0 <= i < |ts| - 1 ensures WellFormed(ts[i]) {
            if i > 0 { assert ts[i] == rest[i - 1]; }
          }
        }
        ts
      else rest
  }

  /** `scan_tokens`: line numbers start at 1, and the output is well-formed
      tokens ended by exactly one EOF. */
  function ScanTokens(src: string): (ts: seq<Token>)
    ensures |ts| > 0 && ts[|ts| - 1] == Token(EOF, "", None, 1 + NewlinesIn(src, 0, |src|))
    ensures forall i :: 0 <= i < |ts| - 1 ==> WellFormed(ts[i])
  {
    ScanFrom(src, 0, 1)
  }

  /* Examples. */

  /** Letters produce no tokens in this revision of rlox: `nil` scans to EOF alone. */
  lemma KeywordsAreNotScanned()
    ensures ScanTokens("nil") == [Token(EOF, "", None, 1)]
  {
    var src := "nil";
    assert ScanToken(src, 2, 1) == Scanned(3, 1, None);
    assert ScanToken(src, 1, 1) == Scanned(2, 1, None);
    assert ScanToken(src, 0, 1) == Scanned(1, 1, None);
  }

  /** `1 != 3` scans to a number, a two-character operator and a number. */
  lemma {:induction false} OperatorExample(src: string)
    requires src == "1 != 3"
    ensures ScanTokens(src) == [Token(TokenType.Number, "1", Some(Literal.Number(1.0)), 1)] + [
      Token(BangEqual, "!=", None, 1),
      Token(TokenType.Number, "3", Some(Literal.Number(3.0)), 1),
      Token(EOF, "", None, 1)]
  {
    OperatorExampleHead(src);
    OperatorExampleTail(src);
  }

  lemma {:induction false} OperatorExampleHead(src: string)
    requires src == "1 != 3"
    ensures ScanFrom(src, 0, 1) == [Token(TokenType.Number, "1", Some(Literal.Number(1.0)), 1)] + ScanFrom(src, 1, 1)
  {
    SingleDigitAt(src, 0, 1);
    assert DigitValue('1') == 1;
  }

  lemma {:induction false} OperatorExampleTail(src: string)
    requires src == "1 != 3"
    ensures ScanFrom(src, 1, 1) == [
      Token(BangEqual, "!=", None, 1),
      Token(TokenType.Number, "3", Some(Literal.Number(3.0)), 1),
      Token(EOF, "", None, 1)]
  {
    OperatorExampleMiddle(src);
    assert ScanToken(src, 1, 1) == Scanned(2, 1, None);
  }

  lemma {:induction false} OperatorExampleMiddle(src: string)
    requires src == "1 != 3"
    ensures ScanFrom(src, 2, 1) == [
      Token(BangEqual, "!=", None, 1),
      Token(TokenType.Number, "3", Some(Literal.Number(3.0)), 1),
      Token(EOF, "", None, 1)]
  {
    OperatorExampleLast(src);
    assert ScanToken(src, 4, 1) == Scanned(5, 1, None);
    assert ScanFrom(src, 4, 1) == [Token(TokenType.Number, "3", Some(Literal.Number(3.0)), 1), Token(EOF, "", None, 1)];
    OperatorExampleBang(src);
  }

  lemma {:induction false} OperatorExampleBang(src: string)
    requires src == "1 != 3"
    ensures ScanToken(src, 2, 1) == Scanned(4, 1, Some(Token(BangEqual, "!=", None, 1)))
  {
    assert src[2..4] == "!=";
    assert OneOrTwo(src, 2, 1, Bang, BangEqual) == Scanned(4, 1, Some(Token(BangEqual, "!=", None, 1)));
  }

  lemma {:induction false} OperatorExampleLast(src: string)
    requires src == "1 != 3"
    ensures ScanFrom(src, 5, 1) == [Token(TokenType.Number, "3", Some(Literal.Number(3.0)), 1), Token(EOF, "", None, 1)]
  {
    SingleDigitAt(src, 5, 1);
    assert ScanFrom(src, 6, 1) == [Token(EOF, "", None, 1)];
  }

  /** A digit followed by neither a digit nor a dot is the number it names. */
  lemma {:induction false} SingleDigitAt(src: string, i: nat, line: nat)
    requires i < |src| && IsDigit(src[i]) && Peek(src, i + 1) != '.' && !IsDigit(Peek(src, i + 1))
    ensures ScanToken(src, i, line) ==
      Scanned(i + 1, line, Some(Token(TokenType.Number, [src[i]], Some(Literal.Number(DigitValue(src[i]) as real)), line)))
  {
    assert SkipDigits(src, i + 1) == i + 1;
    assert src[i..i + 1] == [src[i]];
    assert DotIndex([src[i]]) == 1;
    assert NaturalValue([src[i]]) == DigitValue(src[i]) by {
      assert [src[i]][..0] == [];
    }
  }

  /** A string literal spanning a newline advances the line counter. */
  lemma MultilineStringExample()
    ensures ScanTokens("\"a\nb\"") == [
      Token(TokenType.String, "\"a\nb\"", Some(Literal.String("a\nb")), 2),
      Token(EOF, "", None, 2)]
  {
    var src := "\"a\nb\"";
    assert SkipString(src, 4, 2) == (4, 2);
    assert SkipString(src, 3, 2) == (4, 2);
    assert SkipString(src, 2, 1) == (4, 2);
    assert SkipString(src, 1, 1) == (4, 2);
    assert src[1..4] == "a\nb" && src[0..5] == src;
    assert ScanString(src, 0, 1) == Scanned(5, 2, Some(Token(TokenType.String, src, Some(Literal.String("a\nb")), 2)));
    assert ScanFrom(src, 5, 2) == [Token(EOF, "", None, 2)];
  }
}
