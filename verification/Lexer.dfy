/** The syntax-highlighting scanner of clite_ide/lexer.py.

    Python's Unicode tables and the three word lists are parameters, gathered in a `Lexicon`. */
module Lexer {
  import opened Wrappers

  datatype Kind = Keyword | Type | Constant | Function | Number | Str | Chr | Comment | Preproc

  datatype Token = Token(start: nat, end: nat, kind: Kind)

  datatype Tables = Tables(
    isDigit: char -> bool,    // str.isdigit
    isDecimal: char -> bool,  // \d of a str pattern
    isAlpha: char -> bool,    // str.isalpha
    isAlnum: char -> bool,    // str.isalnum
    keywords: set<string>,
    types: set<string>,
    constants: set<string>)

  /** The characters on which the scanner changes mode. */
  predicate Special(c: char) {
    c == '"' || c == '\'' || c == '/' || c == '#' || c == '\n'
  }

  ghost predicate Sane(lx: Tables) {
    && (forall c :: Special(c) ==> !lx.isDigit(c) && !lx.isDecimal(c) && !lx.isAlpha(c) && !lx.isAlnum(c))
    && (forall c :: lx.isAlpha(c) ==> lx.isAlnum(c) && !lx.isDigit(c)) && !lx.isDigit('_')
  }

  type Lexicon = lx: Tables | Sane(lx)
    witness Tables(c => '0' <= c <= '9', c => '0' <= c <= '9', c => 'a' <= c <= 'z',
                   c => 'a' <= c <= 'z' || '0' <= c <= '9', {}, {}, {})

  // ---------------------------------------------------------------- runs of characters

  datatype CharClass = Decimal | Hex | Binary | IntSuffix | FloatSuffix | Word | Blank

  predicate Is(lx: Lexicon, k: CharClass, c: char) {
    match k
    case Decimal => lx.isDecimal(c)
    case Hex => '0' <= c <= '9' || 'a' <= c <= 'f' || 'A' <= c <= 'F'
    case Binary => c == '0' || c == '1'
    case IntSuffix => c == 'u' || c == 'U' || c == 'l' || c == 'L'
    case FloatSuffix => c == 'f' || c == 'F' || c == 'l' || c == 'L'
    case Word => lx.isAlnum(c) || c == '_'
    case Blank => c == ' ' || c == '\t'
  }

  /** No character of `t[i..j]` makes the scanner change mode. */
  ghost predicate Plain(t: string, i: nat, j: nat)
    requires j <= |t|
  {
    forall k :: i <= k < j ==> !Special(t[k])
  }

  /** The end of the longest run of class `k` from `i` on. */
  function RunEnd(lx: Lexicon, k: CharClass, t: string, i: nat): (e: nat)
    requires i <= |t|
    ensures i <= e <= |t|
    ensures forall j :: i <= j < e ==> Is(lx, k, t[j])
    ensures e < |t| ==> !Is(lx, k, t[e])
    ensures Plain(t, i, e)
    decreases |t| - i
  {
    if i < |t| && Is(lx, k, t[i]) then RunEnd(lx, k, t, i + 1) else i
  }

  predicate At(t: string, i: nat, cs: set<char>) {
    i < |t| && t[i] in cs
  }

  /** The end of an exponent part at `i`, or `i` when there is none. */
  function ExponentEnd(lx: Lexicon, t: string, i: nat): (e: nat)
    requires i <= |t|
    ensures i <= e <= |t|
  {
    if At(t, i, {'e', 'E'}) then
      var s := if At(t, i + 1, {'+', '-'}) then i + 2 else i + 1;
      var e := RunEnd(lx, Decimal, t, s);
      if e > s then e else i
    else i
  }

  /** A literal like 0x1F or 0b10: the end of the match at `i`, or `i` when there is none. */
  function PrefixedEnd(lx: Lexicon, marks: set<char>, k: CharClass, t: string, i: nat): (e: nat)
    requires i < |t|
    ensures i <= e <= |t|
  {
    if t[i] == '0' && At(t, i + 1, marks) && RunEnd(lx, k, t, i + 2) > i + 2 then
      RunEnd(lx, IntSuffix, t, RunEnd(lx, k, t, i + 2))
    else i
  }

  function FloatEnd(lx: Lexicon, t: string, f: nat): (e: nat)
    requires f <= |t|
    ensures f <= e <= |t|
  {
    RunEnd(lx, FloatSuffix, t, ExponentEnd(lx, t, f))
  }

  /** What may follow the leading digits of a decimal literal. */
  function TailEnd(lx: Lexicon, t: string, d: nat): (e: nat)
    requires d <= |t|
    ensures d <= e <= |t|
  {
    if At(t, d, {'.'}) then FloatEnd(lx, t, RunEnd(lx, Decimal, t, d + 1))
    else if ExponentEnd(lx, t, d) > d then FloatEnd(lx, t, d)
    else RunEnd(lx, IntSuffix, t, d)
  }

  /** A literal that starts with a decimal digit, with or without a fraction or an exponent. */
  function DecimalEnd(lx: Lexicon, t: string, i: nat): (e: nat)
    requires i < |t|
    ensures i <= e <= |t|
  {
    var d := RunEnd(lx, Decimal, t, i);
    if d == i then i else TailEnd(lx, t, d)
  }

  /** The end of the match of the number pattern at `i`, its alternatives tried in order, or `i` when
      it does not match there. */
  function NumberEnd(lx: Lexicon, t: string, i: nat): (e: nat)
    requires i < |t|
    ensures i <= e <= |t|
  {
    var x, b := PrefixedEnd(lx, {'x', 'X'}, Hex, t, i), PrefixedEnd(lx, {'b', 'B'}, Binary, t, i);
    if x > i then x else if b > i then b else DecimalEnd(lx, t, i)
  }

  // ---------------------------------------------------------------- comments and quotes

  predicate BlockCloses(t: string, i: nat) {
    At(t, i, {'*'}) && At(t, i + 1, {'/'})
  }

  /** Just past the first closing pair from `i` on, or the end of the text. */
  function BlockEnd(t: string, i: nat): (e: nat)
    requires i <= |t|
    ensures i <= e <= |t|
    ensures (i + 2 <= e && BlockCloses(t, e - 2)) || (e == |t| && forall j :: i <= j ==> !BlockCloses(t, j))
    ensures forall j :: i <= j < e - 2 ==> !BlockCloses(t, j)
    decreases |t| - i
  {
    if i == |t| then i else if BlockCloses(t, i) then i + 2 else BlockEnd(t, i + 1)
  }

  /** The first newline from `i` on, or the end of the text. */
  function LineEnd(t: string, i: nat): (e: nat)
    requires i <= |t|
    ensures i <= e <= |t|
    ensures forall j :: i <= j < e ==> t[j] != '\n'
    ensures e < |t| ==> t[e] == '\n'
    decreases |t| - i
  {
    if i < |t| && t[i] != '\n' then LineEnd(t, i + 1) else i
  }

  /** Where the loop over a quoted literal stops: past the closing quote, or at the end of the text,
      or one beyond it when the text ends in the backslash of an escape. */
  function QuoteEnd(t: string, j: nat, q: char): (e: nat)
    requires j <= |t| + 1
    ensures j <= e <= |t| + 1
    decreases |t| + 1 - j
  {
    if j >= |t| then j
    else if t[j] == '\\' then QuoteEnd(t, j + 2, q)
    else if t[j] == q then j + 1
    else QuoteEnd(t, j + 1, q)
  }

  /** How many backslashes stand directly before `k`, going back no further than `s`. */
  function Backslashes(t: string, s: nat, k: nat): nat
    requires s <= k <= |t|
  {
    if s < k && t[k - 1] == '\\' then Backslashes(t, s, k - 1) + 1 else 0
  }

  /** A quote character that ends a literal whose text starts at `s`. */
  predicate Closes(t: string, s: nat, q: char, k: nat) {
    s <= k < |t| && t[k] == q && Backslashes(t, s, k) % 2 == 0
  }

  /** What the quote loop finds: the first quote preceded by an even number of backslashes. */
  lemma {:induction false} QuoteEndMeaning(t: string, s: nat, q: char, j: nat)
    requires s <= j <= |t| + 1 && q != '\\'
    requires j <= |t| ==> Backslashes(t, s, j) % 2 == 0
    ensures var e := QuoteEnd(t, j, q);
            && (forall k :: j <= k < e - 1 ==> !Closes(t, s, q, k))
            && (e < |t| ==> e > j && Closes(t, s, q, e - 1))
            && (e == |t| + 1 ==> !Closes(t, s, q, |t|))
    decreases |t| + 1 - j
  {
    if j < |t| {
      if t[j] == '\\' {
        assert Backslashes(t, s, j + 1) == Backslashes(t, s, j) + 1;
        if j + 1 < |t| {
          assert Backslashes(t, s, j + 2) == if t[j + 1] == '\\' then Backslashes(t, s, j + 1) + 1 else 0;
        }
        QuoteEndMeaning(t, s, q, j + 2);
      } else if t[j] != q {
        QuoteEndMeaning(t, s, q, j + 1);
      }
    }
  }

  // ---------------------------------------------------------------- one pass of the scanner

  /** One pass of the loop: where it leaves `i`, and the kind of the token it adds, if any. */
  datatype Lexeme = Lexeme(end: nat, kind: Option<Kind>)

  predicate BlockOpens(t: string, i: nat) {
    At(t, i, {'/'}) && At(t, i + 1, {'*'})
  }

  predicate LineOpens(t: string, i: nat) {
    At(t, i, {'/'}) && At(t, i + 1, {'/'})
  }

  function WordKind(lx: Lexicon, t: string, i: nat, j: nat): (k: Option<Kind>)
    requires i <= j <= |t|
    ensures k.None? || k.value.Keyword? || k.value.Type? || k.value.Constant? || k.value.Function?
  {
    if t[i..j] in lx.keywords then Some(Keyword)
    else if t[i..j] in lx.types then Some(Type)
    else if t[i..j] in lx.constants then Some(Constant)
    else if At(t, RunEnd(lx, Blank, t, j), {'('}) then Some(Function)
    else None
  }

  /** The part of the pass after the comments, literals and preprocessor lines. */
  function NextWord(lx: Lexicon, t: string, i: nat): (l: Lexeme)
    requires i < |t|
    ensures i < l.end <= |t|
    ensures l.kind != Some(Comment) && l.kind != Some(Str) && l.kind != Some(Chr) && l.kind != Some(Preproc)
  {
    if lx.isDigit(t[i]) && NumberEnd(lx, t, i) > i then Lexeme(NumberEnd(lx, t, i), Some(Number))
    else if lx.isAlpha(t[i]) || t[i] == '_' then
      var j := RunEnd(lx, Word, t, i + 1);
      Lexeme(j, WordKind(lx, t, i, j))
    else Lexeme(i + 1, None)
  }

  function Next(lx: Lexicon, t: string, i: nat): (l: Lexeme)
    requires i < |t|
    ensures i < l.end <= |t| + 1
    ensures l.end == |t| + 1 ==> l.kind == Some(Str) || l.kind == Some(Chr)
  {
    if BlockOpens(t, i) then Lexeme(BlockEnd(t, i + 2), Some(Comment))
    else if LineOpens(t, i) then Lexeme(LineEnd(t, i), Some(Comment))
    else if t[i] == '"' then Lexeme(QuoteEnd(t, i + 1, '"'), Some(Str))
    else if t[i] == '\'' then Lexeme(QuoteEnd(t, i + 1, '\''), Some(Chr))
    else if t[i] == '#' then Lexeme(LineEnd(t, i + 1), Some(Preproc))
    else NextWord(lx, t, i)
  }

  /** The tokens the scanner adds from position `i` on. */
  function Tokens(lx: Lexicon, t: string, i: nat): seq<Token>
    requires i <= |t| + 1
    decreases |t| + 1 - i
  {
    if i >= |t| then []
    else
      var l := Next(lx, t, i);
      (if l.kind.Some? then [Token(i, l.end, l.kind.value)] else []) + Tokens(lx, t, l.end)
  }

  lemma TokensUnfold(lx: Lexicon, t: string, i: nat)
    requires i < |t|
    ensures var l := Next(lx, t, i);
            Tokens(lx, t, i)
            == (if l.kind.Some? then [Token(i, l.end, l.kind.value)] else []) + Tokens(lx, t, l.end)
  {
  }

  method Colorize(lx: Lexicon, text: string) returns (out: seq<Token>)
    ensures out == Tokens(lx, text, 0)
  {
    hide Tokens, RunEnd, LineEnd, BlockEnd, QuoteEnd, NumberEnd, WordKind, Is;
    out := [];
    var i := 0;
    var n := |text|;
    while i < n
      invariant i <= n + 1
      invariant out + Tokens(lx, text, i) == Tokens(lx, text, 0)
      decreases n + 1 - i
    {
      TokensUnfold(lx, text, i);
      var c := text[i];
      var j, kind := i + 1, None;
      if c == '/' && i + 1 < n && text[i + 1] == '*' {
        j, kind := BlockEnd(text, i + 2), Some(Comment);
      } else if c == '/' && i + 1 < n && text[i + 1] == '/' {
        j, kind := LineEnd(text, i), Some(Comment);
      } else if c == '"' {
        j := ScanQuoted(text, i + 1, c);
        kind := Some(Str);
      } else if c == '\'' {
        j := ScanQuoted(text, i + 1, c);
        kind := Some(Chr);
      } else if c == '#' {
        j := ScanLine(text, i + 1);
        kind := Some(Preproc);
      } else if lx.isDigit(c) && NumberEnd(lx, text, i) > i {
        j, kind := NumberEnd(lx, text, i), Some(Number);
      } else if lx.isAlpha(c) || c == '_' {
        j, kind := ScanWord(lx, text, i);
      }
      assert Next(lx, text, i) == Lexeme(j, kind);
      if kind.Some? {
        Regroup(out, [Token(i, j, kind.value)], Tokens(lx, text, j));
        out := out + [Token(i, j, kind.value)];
      } else {
        Regroup(out, [], Tokens(lx, text, j));
      }
      i := j;
    }
    TokensDone(lx, text, i);
  }

  lemma Regroup(a: seq<Token>, b: seq<Token>, c: seq<Token>)
    ensures a + (b + c) == (a + b) + c && a + [] == a
  {
  }

  lemma TokensDone(lx: Lexicon, t: string, i: nat)
    requires |t| <= i <= |t| + 1
    ensures Tokens(lx, t, i) == []
  {
  }

  /** The loop over a quoted literal. */
  method ScanQuoted(text: string, start: nat, q: char) returns (j: nat)
    requires start <= |text|
    ensures j == QuoteEnd(text, start, q)
  {
    j := start;
    while j < |text|
      invariant j <= |text| + 1 && QuoteEnd(text, j, q) == QuoteEnd(text, start, q)
      decreases |text| + 1 - j
    {
      if text[j] == '\\' {
        j := j + 2;
        continue;
      }
      if text[j] == q {
        j := j + 1;
        return;
      }
      j := j + 1;
    }
  }

  /** The loop over a preprocessor line. */
  method ScanLine(text: string, start: nat) returns (j: nat)
    requires start <= |text|
    ensures j == LineEnd(text, start)
  {
    j := start;
    while j < |text| && text[j] != '\n'
      invariant j <= |text| && LineEnd(text, j) == LineEnd(text, start)
    {
      j := j + 1;
    }
  }

  /** The loops over an identifier and the blanks after it. */
  method ScanWord(lx: Lexicon, text: string, i: nat) returns (j: nat, kind: Option<Kind>)
    requires i < |text|
    ensures j == RunEnd(lx, Word, text, i + 1) && kind == WordKind(lx, text, i, j)
  {
    j, kind := i + 1, None;
    while j < |text| && Is(lx, Word, text[j])
      invariant j <= |text| && RunEnd(lx, Word, text, j) == RunEnd(lx, Word, text, i + 1)
    {
      j := j + 1;
    }
    var word := text[i..j];
    if word in lx.keywords {
      kind := Some(Keyword);
    } else if word in lx.types {
      kind := Some(Type);
    } else if word in lx.constants {
      kind := Some(Constant);
    } else {
      var k := j;
      while k < |text| && Is(lx, Blank, text[k])
        invariant k <= |text| && RunEnd(lx, Blank, text, k) == RunEnd(lx, Blank, text, j)
      {
        k := k + 1;
      }
      if k < |text| && text[k] == '(' { kind := Some(Function); }
    }
  }

  // ---------------------------------------------------------------- the shape of a token list

  /** Tokens are non-empty, in order, disjoint, and inside the text; only a literal left open by a
      final backslash ends one beyond it. */
  lemma {:induction false} TokensOrdered(lx: Lexicon, t: string, i: nat)
    requires i <= |t| + 1
    ensures var ts := Tokens(lx, t, i);
            && (forall k :: 0 <= k < |ts| ==> i <= ts[k].start < |t| && ts[k].start < ts[k].end <= |t| + 1)
            && (forall k :: 0 <= k < |ts| && ts[k].end > |t| ==> ts[k].kind == Str || ts[k].kind == Chr)
            && (forall k, m :: 0 <= k < m < |ts| ==> ts[k].end <= ts[m].start)
    decreases |t| + 1 - i
  {
    if i < |t| {
      hide Tokens;
      TokensUnfold(lx, t, i);
      TokensOrdered(lx, t, Next(lx, t, i).end);
    }
  }

  /** A character on which the scanner must not stop twice: a quote, a `#`, or the start of a comment. */
  predicate Opens(t: string, p: nat) {
    At(t, p, {'"', '\'', '#'}) || BlockOpens(t, p) || LineOpens(t, p)
  }

  predicate Within(ts: seq<Token>, p: nat) {
    exists k :: 0 <= k < |ts| && ts[k].start <= p < ts[k].end
  }

  /** Nothing is overlooked: every opening character lies in some token. */
  lemma {:induction false} OpenersCovered(lx: Lexicon, t: string, i: nat, p: nat)
    requires i <= p && Opens(t, p)
    ensures Within(Tokens(lx, t, i), p)
    decreases |t| - i
  {
    hide Tokens, NumberEnd;
    TokensUnfold(lx, t, i);
    var l := Next(lx, t, i);
    var ts := Tokens(lx, t, i);
    if p < l.end {
      assert l.kind.Some?;
      assert ts[0].start <= p < ts[0].end;
    } else {
      OpenersCovered(lx, t, l.end, p);
      var rest := Tokens(lx, t, l.end);
      var k :| 0 <= k < |rest| && rest[k].start <= p < rest[k].end;
      assert ts[k + |ts| - |rest|] == rest[k];
    }
  }

  // ---------------------------------------------------------------- what the tokens are

  ghost predicate AllIs(lx: Lexicon, k: CharClass, t: string, i: nat, j: nat) {
    i <= j <= |t| && forall m :: i <= m < j ==> Is(lx, k, t[m])
  }

  ghost predicate ExponentShape(lx: Lexicon, t: string, i: nat, j: nat) {
    i == j || (At(t, i, {'e', 'E'})
               && ((i + 1 < j && AllIs(lx, Decimal, t, i + 1, j))
                   || (At(t, i + 1, {'+', '-'}) && i + 2 < j && AllIs(lx, Decimal, t, i + 2, j))))
  }

  ghost predicate PrefixedShape(lx: Lexicon, marks: set<char>, k: CharClass, t: string, s: nat, m: nat, e: nat) {
    At(t, s, {'0'}) && At(t, s + 1, marks) && s + 2 < m && AllIs(lx, k, t, s + 2, m) && AllIs(lx, IntSuffix, t, m, e)
  }

  /** Digits to `d`, a fraction to `f`, an exponent to `g`, a suffix to `e`. */
  ghost predicate DecimalShape(lx: Lexicon, t: string, s: nat, d: nat, f: nat, g: nat, e: nat) {
    && s < d && AllIs(lx, Decimal, t, s, d)
    && (f == d || (At(t, d, {'.'}) && AllIs(lx, Decimal, t, d + 1, f)))
    && ExponentShape(lx, t, f, g)
    && (AllIs(lx, FloatSuffix, t, g, e) || (g == d && AllIs(lx, IntSuffix, t, g, e)))
  }

  /** `t[s..e]` is a number: hexadecimal, binary or decimal. */
  ghost predicate NumberShape(lx: Lexicon, t: string, s: nat, e: nat) {
    || (exists m: nat :: PrefixedShape(lx, {'x', 'X'}, Hex, t, s, m, e))
    || (exists m: nat :: PrefixedShape(lx, {'b', 'B'}, Binary, t, s, m, e))
    || (exists d: nat, f: nat, g: nat :: DecimalShape(lx, t, s, d, f, g, e))
  }

  lemma PrefixedMeaning(lx: Lexicon, marks: set<char>, k: CharClass, t: string, s: nat)
    requires s < |t| && PrefixedEnd(lx, marks, k, t, s) > s
    ensures exists m: nat :: PrefixedShape(lx, marks, k, t, s, m, PrefixedEnd(lx, marks, k, t, s))
  {
    hide RunEnd, Is;
    assert PrefixedShape(lx, marks, k, t, s, RunEnd(lx, k, t, s + 2), PrefixedEnd(lx, marks, k, t, s));
  }

  lemma ExponentMeaning(lx: Lexicon, t: string, i: nat)
    requires i <= |t|
    ensures ExponentShape(lx, t, i, ExponentEnd(lx, t, i))
  {
    hide RunEnd, Is;
  }

  lemma DecimalMeaning(lx: Lexicon, t: string, s: nat)
    requires s < |t| && DecimalEnd(lx, t, s) > s
    ensures exists d: nat, f: nat, g: nat :: DecimalShape(lx, t, s, d, f, g, DecimalEnd(lx, t, s))
  {
    hide RunEnd, Is, ExponentEnd, ExponentShape;
    var d, e := RunEnd(lx, Decimal, t, s), DecimalEnd(lx, t, s);
    if At(t, d, {'.'}) {
      var f := RunEnd(lx, Decimal, t, d + 1);
      ExponentMeaning(lx, t, f);
      assert DecimalShape(lx, t, s, d, f, ExponentEnd(lx, t, f), e);
    } else if ExponentEnd(lx, t, d) > d {
      ExponentMeaning(lx, t, d);
      assert DecimalShape(lx, t, s, d, d, ExponentEnd(lx, t, d), e);
    } else {
      ExponentNone(lx, t, d);
      assert DecimalShape(lx, t, s, d, d, d, e);
    }
  }

  lemma ExponentNone(lx: Lexicon, t: string, i: nat)
    ensures ExponentShape(lx, t, i, i)
  {
  }

  /** A whole word: it starts like an identifier and does not go on at `e`. */
  ghost predicate IsWord(lx: Lexicon, t: string, s: nat, e: nat) {
    && s < e <= |t| && (lx.isAlpha(t[s]) || t[s] == '_')
    && AllIs(lx, Word, t, s + 1, e) && (e < |t| ==> !Is(lx, Word, t[e]))
  }

  /** A literal that opens at `s`: it ends past the first quote with an even number of backslashes
      before it, or has none and runs to the end of the text. */
  ghost predicate IsLiteral(t: string, q: char, s: nat, e: nat) {
    var b := s + 1;
    && At(t, s, {q})
    && (forall k :: b <= k < e - 1 ==> !Closes(t, b, q, k))
    && ((b < e && Closes(t, b, q, e - 1))
        || (e >= |t| && forall k :: b <= k < |t| ==> !Closes(t, b, q, k)))
  }

  /** What a token of each kind is a token of. */
  ghost predicate Means(lx: Lexicon, t: string, k: Token) {
    var s, e := k.start, k.end;
    s < |t| &&
    match k.kind
    case Comment =>
      || (BlockOpens(t, s) && s + 2 <= e <= |t| && (forall j :: s + 2 <= j < e - 2 ==> !BlockCloses(t, j))
          && ((s + 4 <= e && BlockCloses(t, e - 2)) || (e == |t| && forall j :: s + 2 <= j ==> !BlockCloses(t, j))))
      || (LineOpens(t, s) && e <= |t| && (forall j :: s <= j < e ==> t[j] != '\n') && (e == |t| || t[e] == '\n'))
    case Str => IsLiteral(t, '"', s, e)
    case Chr => IsLiteral(t, '\'', s, e)
    case Preproc => t[s] == '#' && e <= |t| && (forall j :: s <= j < e ==> t[j] != '\n') && (e == |t| || t[e] == '\n')
    case Number => lx.isDigit(t[s]) && NumberShape(lx, t, s, e)
    case Keyword => IsWord(lx, t, s, e) && t[s..e] in lx.keywords
    case Type => IsWord(lx, t, s, e) && t[s..e] in lx.types - lx.keywords
    case Constant => IsWord(lx, t, s, e) && t[s..e] in lx.constants - lx.types - lx.keywords
    case Function =>
      && IsWord(lx, t, s, e) && t[s..e] !in lx.keywords + lx.types + lx.constants
      && exists p: nat :: AllIs(lx, Blank, t, e, p) && At(t, p, {'('})
  }

  lemma LiteralMeaning(t: string, q: char, s: nat)
    requires At(t, s, {q}) && q != '\\'
    ensures IsLiteral(t, q, s, QuoteEnd(t, s + 1, q))
  {
    hide QuoteEnd;
    var b := s + 1;
    var e := QuoteEnd(t, b, q);
    QuoteEndMeaning(t, b, q, b);
    if e >= |t| && !(b < e && Closes(t, b, q, e - 1)) {
      forall k | b <= k < |t|
        ensures !Closes(t, b, q, k)
      {
        assert k < e - 1 || k == e - 1;
      }
    }
  }

  lemma NextMeaning(lx: Lexicon, t: string, i: nat)
    requires i < |t| && Next(lx, t, i).kind.Some?
    ensures Means(lx, t, Token(i, Next(lx, t, i).end, Next(lx, t, i).kind.value))
  {
    hide BlockEnd, LineEnd, QuoteEnd, RunEnd, NumberEnd, Is, IsLiteral, NumberShape, AllIs;
    if BlockOpens(t, i) || LineOpens(t, i) || t[i] == '#' {
    } else if t[i] == '"' {
      LiteralMeaning(t, '"', i);
    } else if t[i] == '\'' {
      LiteralMeaning(t, '\'', i);
    } else if lx.isDigit(t[i]) && NumberEnd(lx, t, i) > i {
      NumberMeaning(lx, t, i);
    } else {
      WordMeaning(lx, t, i);
    }
  }

  lemma NumberMeaning(lx: Lexicon, t: string, s: nat)
    requires s < |t| && NumberEnd(lx, t, s) > s
    ensures NumberShape(lx, t, s, NumberEnd(lx, t, s))
  {
    hide PrefixedEnd, DecimalEnd, PrefixedShape, DecimalShape;
    if PrefixedEnd(lx, {'x', 'X'}, Hex, t, s) > s {
      PrefixedMeaning(lx, {'x', 'X'}, Hex, t, s);
    } else if PrefixedEnd(lx, {'b', 'B'}, Binary, t, s) > s {
      PrefixedMeaning(lx, {'b', 'B'}, Binary, t, s);
    } else {
      DecimalMeaning(lx, t, s);
    }
  }

  lemma WordMeaning(lx: Lexicon, t: string, i: nat)
    requires i < |t| && (lx.isAlpha(t[i]) || t[i] == '_') && NextWord(lx, t, i).kind.Some?
    requires !(lx.isDigit(t[i]) && NumberEnd(lx, t, i) > i)
    ensures Means(lx, t, Token(i, NextWord(lx, t, i).end, NextWord(lx, t, i).kind.value))
  {
    hide RunEnd, NumberEnd, Is;
    var j := RunEnd(lx, Word, t, i + 1);
    assert IsWord(lx, t, i, j);
    assert AllIs(lx, Blank, t, j, RunEnd(lx, Blank, t, j));
  }

  /** Every token is what its kind says. */
  lemma {:induction false} TokensMeaning(lx: Lexicon, t: string, i: nat)
    requires i <= |t| + 1
    ensures forall k :: 0 <= k < |Tokens(lx, t, i)| ==> Means(lx, t, Tokens(lx, t, i)[k])
    decreases |t| + 1 - i
  {
    hide Tokens, Next, Means;
    if i < |t| {
      TokensUnfold(lx, t, i);
      if Next(lx, t, i).kind.Some? { NextMeaning(lx, t, i); }
      TokensMeaning(lx, t, Next(lx, t, i).end);
    } else {
      TokensDone(lx, t, i);
    }
  }
}
