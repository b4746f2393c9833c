/** What the highlighting scanner of clite_ide/lexer.py must not leave out: every word of its lists,
    every call and every number outside comments, literals and preprocessor lines is a token. */
module Coverage {
  import opened Wrappers
  import opened Lexer

  // ---------------------------------------------------------------- where the scanner stops

  /** No identifier goes on at `s`. */
  ghost predicate WordStart(lx: Lexicon, t: string, s: nat)
    requires s <= |t|
  {
    s == 0 || !Is(lx, Word, t[s - 1])
  }

  predicate Shields(k: Kind) {
    k == Comment || k == Str || k == Chr || k == Preproc || k == Number
  }

  /** Position `s` is not inside a comment, a literal, a preprocessor line or a number. */
  ghost predicate Free(ts: seq<Token>, s: nat) {
    forall k :: 0 <= k < |ts| && Shields(ts[k].kind) ==> !(ts[k].start < s < ts[k].end)
  }

  lemma FreeRest(k: Token, ts: seq<Token>, s: nat)
    requires Free([k] + ts, s)
    ensures Free(ts, s) && (Shields(k.kind) ==> !(k.start < s < k.end))
  {
    assert ([k] + ts)[0] == k;
    forall m | 0 <= m < |ts| && Shields(ts[m].kind)
      ensures !(ts[m].start < s < ts[m].end)
    {
      assert ([k] + ts)[m + 1] == ts[m];
    }
  }

  /** A pass that runs over `s` is one of those, or an identifier that goes on there. */
  lemma PassOver(lx: Lexicon, t: string, i: nat, s: nat)
    requires i < s < |t| && WordStart(lx, t, s) && s < Next(lx, t, i).end
    ensures Next(lx, t, i).kind.Some? && Shields(Next(lx, t, i).kind.value)
  {
    WordPassed(lx, t, i, s - 1);
    hide Next, Is;
  }

  /** A pass that adds none of them is a single character or runs over an identifier. */
  lemma WordPassed(lx: Lexicon, t: string, i: nat, m: nat)
    requires i < |t|
    ensures var l := Next(lx, t, i);
            (l.kind.Some? && Shields(l.kind.value)) || (i <= m < l.end - 1 ==> m < |t| && Is(lx, Word, t[m]))
  {
    hide NumberEnd, WordKind, BlockEnd, LineEnd, QuoteEnd;
  }

  /** The scanner stops at every such place where an identifier or a number can start. */
  lemma {:induction false} Stops(lx: Lexicon, t: string, i: nat, s: nat) returns (before: seq<Token>)
    requires i <= s < |t| && (i == s || WordStart(lx, t, s)) && Free(Tokens(lx, t, i), s)
    ensures Tokens(lx, t, i) == before + Tokens(lx, t, s)
    decreases s - i
  {
    hide Tokens, Next, Free, WordStart;
    before := [];
    if i < s {
      TokensUnfold(lx, t, i);
      var l := Next(lx, t, i);
      var rest := Tokens(lx, t, l.end);
      if l.kind.Some? {
        FreeRest(Token(i, l.end, l.kind.value), rest, s);
      } else {
        assert [] + rest == rest;
      }
      if l.end > s { PassOver(lx, t, i, s); }
      before := Stops(lx, t, l.end, s);
      if l.kind.Some? {
        Regroup([Token(i, l.end, l.kind.value)], before, Tokens(lx, t, s));
        before := [Token(i, l.end, l.kind.value)] + before;
      }
    }
  }

  lemma TokenThere(lx: Lexicon, t: string, s: nat)
    requires s < |t| && WordStart(lx, t, s) && Free(Tokens(lx, t, 0), s) && Next(lx, t, s).kind.Some?
    ensures Token(s, Next(lx, t, s).end, Next(lx, t, s).kind.value) in Tokens(lx, t, 0)
  {
    hide Tokens, Next, Free, WordStart;
    var before := Stops(lx, t, 0, s);
    TokensUnfold(lx, t, s);
    var k := Token(s, Next(lx, t, s).end, Next(lx, t, s).kind.value);
    assert (before + Tokens(lx, t, s))[|before|] == k;
  }

  // ---------------------------------------------------------------- words

  /** The run of class `k` from `i` to `j` cannot be made longer. */
  ghost predicate Longest(lx: Lexicon, k: CharClass, t: string, i: nat, j: nat) {
    AllIs(lx, k, t, i, j) && (j < |t| ==> !Is(lx, k, t[j]))
  }

  lemma LongestIsRunEnd(lx: Lexicon, k: CharClass, t: string, i: nat, j: nat)
    requires i <= |t|
    ensures Longest(lx, k, t, i, j) <==> j == RunEnd(lx, k, t, i)
  {
    hide Is;
  }

  /** Only blanks separate the word that ends at `e` from an opening parenthesis. */
  ghost predicate Called(lx: Lexicon, t: string, e: nat) {
    exists p: nat :: AllIs(lx, Blank, t, e, p) && At(t, p, {'('})
  }

  lemma CalledAt(lx: Lexicon, t: string, e: nat)
    requires e <= |t|
    ensures Called(lx, t, e) <==> At(t, RunEnd(lx, Blank, t, e), {'('})
  {
    var q := RunEnd(lx, Blank, t, e);
    if Called(lx, t, e) {
      var p: nat :| AllIs(lx, Blank, t, e, p) && At(t, p, {'('});
      LongestIsRunEnd(lx, Blank, t, e, p);
    } else {
      assert AllIs(lx, Blank, t, e, q);
    }
  }

  /** What a word must be highlighted as: the first list that has it decides, a call only when none has. */
  ghost function KindOfWord(lx: Lexicon, t: string, s: nat, e: nat): Option<Kind>
    requires s <= e <= |t|
  {
    var w := t[s..e];
    if w in lx.keywords then Some(Keyword)
    else if w in lx.types then Some(Type)
    else if w in lx.constants then Some(Constant)
    else if Called(lx, t, e) then Some(Function)
    else None
  }

  lemma WordPass(lx: Lexicon, t: string, s: nat, e: nat)
    requires IsWord(lx, t, s, e)
    ensures Next(lx, t, s) == Lexeme(e, KindOfWord(lx, t, s, e))
  {
    LongestIsRunEnd(lx, Word, t, s + 1, e);
    CalledAt(lx, t, e);
    hide RunEnd, NumberEnd, BlockEnd, LineEnd, QuoteEnd, Called, Is, AllIs;
    assert !Special(t[s]) && !lx.isDigit(t[s]);
  }

  /** Every whole word in free text that a list has, or that is called, is a token of its kind. */
  lemma WordIsToken(lx: Lexicon, t: string, s: nat, e: nat)
    requires IsWord(lx, t, s, e) && WordStart(lx, t, s) && Free(Tokens(lx, t, 0), s)
    ensures var w, ts := t[s..e], Tokens(lx, t, 0);
            && (w in lx.keywords ==> Token(s, e, Keyword) in ts)
            && (w in lx.types && w !in lx.keywords ==> Token(s, e, Type) in ts)
            && (w in lx.constants && w !in lx.types && w !in lx.keywords ==> Token(s, e, Constant) in ts)
            && (w !in lx.keywords && w !in lx.types && w !in lx.constants && Called(lx, t, e) ==> Token(s, e, Function) in ts)
  {
    WordPass(lx, t, s, e);
    assert s < |t|;
    hide Tokens, Next, Free, WordStart, IsWord, Called;
    if Next(lx, t, s).kind.Some? { TokenThere(lx, t, s); }
  }

  // ---------------------------------------------------------------- numbers

  predicate DigitAt(lx: Lexicon, k: CharClass, t: string, i: nat) {
    i < |t| && Is(lx, k, t[i])
  }

  /** Where the digits of an exponent at `i` would start. */
  function AfterSign(t: string, i: nat): nat {
    if At(t, i + 1, {'+', '-'}) then i + 2 else i + 1
  }

  predicate HasExponent(lx: Lexicon, t: string, i: nat) {
    At(t, i, {'e', 'E'}) && DigitAt(lx, Decimal, t, AfterSign(t, i))
  }

  /** An exponent from `i` to `j` if there is one, as long as it gets. */
  ghost predicate Exponent(lx: Lexicon, t: string, i: nat, j: nat) {
    if HasExponent(lx, t, i) then Longest(lx, Decimal, t, AfterSign(t, i), j) else j == i
  }

  predicate PrefixFits(lx: Lexicon, marks: set<char>, k: CharClass, t: string, s: nat) {
    At(t, s, {'0'}) && At(t, s + 1, marks) && DigitAt(lx, k, t, s + 2)
  }

  ghost predicate Prefixed(lx: Lexicon, k: CharClass, t: string, s: nat, e: nat) {
    exists m: nat :: Longest(lx, k, t, s + 2, m) && Longest(lx, IntSuffix, t, m, e)
  }

  ghost predicate FloatTail(lx: Lexicon, t: string, f: nat, e: nat) {
    exists g: nat :: Exponent(lx, t, f, g) && Longest(lx, FloatSuffix, t, g, e)
  }

  /** After the leading digits: a fraction, or else an exponent, or else an integer suffix. */
  ghost predicate DecimalTail(lx: Lexicon, t: string, d: nat, e: nat) {
    if At(t, d, {'.'}) then exists f: nat :: Longest(lx, Decimal, t, d + 1, f) && FloatTail(lx, t, f, e)
    else if HasExponent(lx, t, d) then FloatTail(lx, t, d, e)
    else Longest(lx, IntSuffix, t, d, e)
  }

  /** `t[s..e]` is the number at `s`: hexadecimal if that fits, else binary if that fits, else decimal, and
      every part as long as it gets. */
  ghost predicate IsNumber(lx: Lexicon, t: string, s: nat, e: nat) {
    if PrefixFits(lx, {'x', 'X'}, Hex, t, s) then Prefixed(lx, Hex, t, s, e)
    else if PrefixFits(lx, {'b', 'B'}, Binary, t, s) then Prefixed(lx, Binary, t, s, e)
    else exists d: nat :: s < d && Longest(lx, Decimal, t, s, d) && DecimalTail(lx, t, d, e)
  }

  lemma ExponentIsEnd(lx: Lexicon, t: string, i: nat, j: nat)
    requires i <= |t|
    ensures Exponent(lx, t, i, j) <==> j == ExponentEnd(lx, t, i)
    ensures HasExponent(lx, t, i) <==> ExponentEnd(lx, t, i) > i
  {
    if At(t, i, {'e', 'E'}) {
      var s := AfterSign(t, i);
      LongestIsRunEnd(lx, Decimal, t, s, j);
      NonEmptyRun(lx, Decimal, t, s);
    }
  }

  lemma NonEmptyRun(lx: Lexicon, k: CharClass, t: string, i: nat)
    requires i <= |t|
    ensures DigitAt(lx, k, t, i) <==> RunEnd(lx, k, t, i) > i
  {
    hide Is;
  }

  lemma PrefixedIsEnd(lx: Lexicon, marks: set<char>, k: CharClass, t: string, s: nat, e: nat)
    requires s < |t|
    ensures PrefixFits(lx, marks, k, t, s) <==> PrefixedEnd(lx, marks, k, t, s) > s
    ensures PrefixFits(lx, marks, k, t, s) ==> (Prefixed(lx, k, t, s, e) <==> e == PrefixedEnd(lx, marks, k, t, s))
  {
    hide RunEnd, Longest, Is;
    if At(t, s, {'0'}) && At(t, s + 1, marks) {
      NonEmptyRun(lx, k, t, s + 2);
      var m := RunEnd(lx, k, t, s + 2);
      LongestIsRunEnd(lx, k, t, s + 2, m);
      LongestIsRunEnd(lx, IntSuffix, t, m, e);
      if Prefixed(lx, k, t, s, e) {
        var n: nat :| Longest(lx, k, t, s + 2, n) && Longest(lx, IntSuffix, t, n, e);
        LongestIsRunEnd(lx, k, t, s + 2, n);
      }
    }
  }

  lemma FloatTailIsEnd(lx: Lexicon, t: string, f: nat, e: nat)
    requires f <= |t|
    ensures FloatTail(lx, t, f, e) <==> e == FloatEnd(lx, t, f)
  {
    hide RunEnd, Longest, Exponent, ExponentEnd;
    var g := ExponentEnd(lx, t, f);
    ExponentIsEnd(lx, t, f, g);
    LongestIsRunEnd(lx, FloatSuffix, t, g, e);
    if FloatTail(lx, t, f, e) {
      var h: nat :| Exponent(lx, t, f, h) && Longest(lx, FloatSuffix, t, h, e);
      ExponentIsEnd(lx, t, f, h);
    }
  }

  lemma DecimalTailIsEnd(lx: Lexicon, t: string, d: nat, e: nat)
    requires d <= |t|
    ensures DecimalTail(lx, t, d, e) <==> e == TailEnd(lx, t, d)
  {
    hide RunEnd, Longest, FloatTail, FloatEnd, HasExponent, ExponentEnd;
    ExponentIsEnd(lx, t, d, d);
    FloatTailIsEnd(lx, t, d, e);
    LongestIsRunEnd(lx, IntSuffix, t, d, e);
    if At(t, d, {'.'}) {
      var f := RunEnd(lx, Decimal, t, d + 1);
      LongestIsRunEnd(lx, Decimal, t, d + 1, f);
      FloatTailIsEnd(lx, t, f, e);
      if DecimalTail(lx, t, d, e) {
        var g: nat :| Longest(lx, Decimal, t, d + 1, g) && FloatTail(lx, t, g, e);
        LongestIsRunEnd(lx, Decimal, t, d + 1, g);
      }
    }
  }

  /** The number pattern matches at `s` exactly the number there. */
  lemma NumberIsLongest(lx: Lexicon, t: string, s: nat, e: nat)
    requires s < |t|
    ensures IsNumber(lx, t, s, e) <==> e > s && e == NumberEnd(lx, t, s)
  {
    hide RunEnd, Longest, TailEnd, DecimalTail, PrefixedEnd, Prefixed, PrefixFits;
    PrefixedIsEnd(lx, {'x', 'X'}, Hex, t, s, e);
    PrefixedIsEnd(lx, {'b', 'B'}, Binary, t, s, e);
    var d := RunEnd(lx, Decimal, t, s);
    LongestIsRunEnd(lx, Decimal, t, s, d);
    DecimalTailIsEnd(lx, t, d, e);
    if exists c: nat :: s < c && Longest(lx, Decimal, t, s, c) && DecimalTail(lx, t, c, e) {
      var c: nat :| s < c && Longest(lx, Decimal, t, s, c) && DecimalTail(lx, t, c, e);
      LongestIsRunEnd(lx, Decimal, t, s, c);
    }
  }

  /** Every number in free text is a token, in its full length. */
  lemma NumberIsToken(lx: Lexicon, t: string, s: nat, e: nat)
    requires s < |t| && lx.isDigit(t[s]) && IsNumber(lx, t, s, e)
    requires WordStart(lx, t, s) && Free(Tokens(lx, t, 0), s)
    ensures Token(s, e, Number) in Tokens(lx, t, 0)
  {
    NumberIsLongest(lx, t, s, e);
    assert !Special(t[s]);
    assert Next(lx, t, s) == Lexeme(e, Some(Number)) by {
      hide NumberEnd, BlockEnd, LineEnd, QuoteEnd;
    }
    hide Tokens, Next, Free, WordStart, IsNumber;
    TokenThere(lx, t, s);
  }

  /** And no number token is anything else. */
  lemma {:induction false} NumbersAreLongest(lx: Lexicon, t: string, i: nat)
    requires i <= |t| + 1
    ensures forall k :: k in Tokens(lx, t, i) && k.kind == Number ==> IsNumber(lx, t, k.start, k.end)
    decreases |t| + 1 - i
  {
    hide Tokens, Next, IsNumber;
    if i < |t| {
      TokensUnfold(lx, t, i);
      NumberPass(lx, t, i);
      NumbersAreLongest(lx, t, Next(lx, t, i).end);
    } else {
      TokensDone(lx, t, i);
    }
  }

  lemma NumberPass(lx: Lexicon, t: string, i: nat)
    requires i < |t|
    ensures Next(lx, t, i).kind == Some(Number) ==> IsNumber(lx, t, i, Next(lx, t, i).end)
  {
    NumberIsLongest(lx, t, i, Next(lx, t, i).end);
    hide IsNumber, NumberEnd, WordKind, BlockEnd, LineEnd, QuoteEnd;
  }

  // ---------------------------------------------------------------- the alphabet

  /** The character classes of the patterns, written out. */
  lemma Classes(lx: Lexicon, c: char)
    ensures Is(lx, Hex, c) <==> c in "0123456789abcdefABCDEF"
    ensures Is(lx, Binary, c) <==> c in "01"
    ensures Is(lx, IntSuffix, c) <==> c in "uUlL"
    ensures Is(lx, FloatSuffix, c) <==> c in "fFlL"
    ensures Is(lx, Blank, c) <==> c in " \t"
  {
    forall s: string, k | 0 <= k < |s|
      ensures s[k] in s
    {
    }
    if '0' <= c <= '9' { DigitIn(c); }
    if 'a' <= c <= 'f' { LowerIn(c); }
    if 'A' <= c <= 'F' { UpperIn(c); }
  }

  lemma DigitIn(c: char)
    requires '0' <= c <= '9'
    ensures c in "0123456789"
  {
    assert "0123456789"[c as int - '0' as int] == c;
  }

  lemma LowerIn(c: char)
    requires 'a' <= c <= 'f'
    ensures c in "abcdef"
  {
    assert "abcdef"[c as int - 'a' as int] == c;
  }

  lemma UpperIn(c: char)
    requires 'A' <= c <= 'F'
    ensures c in "ABCDEF"
  {
    assert "ABCDEF"[c as int - 'A' as int] == c;
  }

  const SAMPLE := "/*b*/'c'\"d\"//a\n#e"

  /** A text with one token of each kind that does not depend on the tables. */
  lemma OneOfEach(lx: Lexicon, t: string)
    requires t == SAMPLE
    ensures Tokens(lx, t, 0)
            == [Token(0, 5, Comment), Token(5, 8, Chr), Token(8, 11, Str), Token(11, 14, Comment), Token(15, 17, Preproc)]
  {
    hide Tokens, Next;
    assert |t| == 17;
    Quoted(lx, t);
    Lined(lx, t);
    hide SAMPLE;
    TokensDone(lx, t, 17);
    TokensUnfold(lx, t, 15);
    TokensUnfold(lx, t, 14);
    TokensUnfold(lx, t, 11);
    assert Tokens(lx, t, 11) == [Token(11, 14, Comment), Token(15, 17, Preproc)];
    TokensUnfold(lx, t, 8);
    TokensUnfold(lx, t, 5);
    TokensUnfold(lx, t, 0);
  }

  lemma Quoted(lx: Lexicon, t: string)
    requires t == SAMPLE
    ensures Next(lx, t, 0) == Lexeme(5, Some(Comment)) && Next(lx, t, 5) == Lexeme(8, Some(Chr))
    ensures Next(lx, t, 8) == Lexeme(11, Some(Str))
  {
    hide NumberEnd, WordKind, RunEnd, LineEnd;
    assert BlockEnd(t, 2) == 5 by { assert BlockEnd(t, 3) == 5; }
    assert QuoteEnd(t, 6, '\'') == 8 by { assert QuoteEnd(t, 7, '\'') == 8; }
    assert QuoteEnd(t, 9, '"') == 11 by { assert QuoteEnd(t, 10, '"') == 11; }
    hide BlockEnd, QuoteEnd;
  }

  lemma Lined(lx: Lexicon, t: string)
    requires t == SAMPLE
    ensures Next(lx, t, 11) == Lexeme(14, Some(Comment)) && Next(lx, t, 14) == Lexeme(15, None)
    ensures Next(lx, t, 15) == Lexeme(17, Some(Preproc))
  {
    hide NumberEnd, WordKind, RunEnd, BlockEnd, QuoteEnd;
    assert Special(t[14]);
    assert LineEnd(t, 11) == 14 by { assert LineEnd(t, 12) == 14 by { assert LineEnd(t, 13) == 14; } }
    assert LineEnd(t, 16) == 17;
    hide LineEnd;
  }
}
