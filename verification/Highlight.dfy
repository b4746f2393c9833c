/** Re-highlighting a window of lines, `_highlight` of clite_ide/editor.py, against highlighting the
    whole text. */
module Highlight {
  import opened Lexer
  import opened Lines

  // ---------------------------------------------------------------- scanning a window

  /** `w` ends at the end of a line or of the text. */
  ghost predicate Window(t: string, a: nat, b: nat, w: string) {
    && a <= b <= |t| && (b == |t| || t[b] == '\n')
    && |w| == b - a && forall k :: 0 <= k < |w| ==> w[k] == t[a + k]
  }

  lemma {:induction false} RunEndInWindow(lx: Lexicon, k: CharClass, t: string, a: nat, b: nat, w: string, i: nat)
    requires Window(t, a, b, w) && |w| == b - a <= |t| - a && a <= i <= b
    ensures RunEnd(lx, k, t, i) <= b && RunEnd(lx, k, w, i - a) + a == RunEnd(lx, k, t, i)
    decreases b - i
  {
    if i < b {
      RunEndInWindow(lx, k, t, a, b, w, i + 1);
    } else if b < |t| {
      assert Special(t[b]);
    }
  }

  lemma CharInWindow(t: string, a: nat, b: nat, w: string, i: nat)
    requires Window(t, a, b, w) && |w| == b - a <= |t| - a && a <= i < b
    ensures w[i - a] == t[i]
  {
    assert t[a + (i - a)] == t[i];
  }

  lemma AtBound(t: string, i: nat, cs: set<char>, a: nat, b: nat, w: string)
    requires Window(t, a, b, w) && |w| == b - a <= |t| - a && a <= i <= b && '\n' !in cs
    ensures At(w, i - a, cs) == At(t, i, cs) && (At(t, i, cs) ==> i < b)
  {
  }

  lemma ExponentEndInWindow(lx: Lexicon, t: string, a: nat, b: nat, w: string, i: nat)
    requires Window(t, a, b, w) && |w| == b - a <= |t| - a && a <= i <= b
    ensures ExponentEnd(lx, t, i) <= b && ExponentEnd(lx, w, i - a) + a == ExponentEnd(lx, t, i)
  {
    hide Window, RunEnd;
    AtBound(t, i, {'e', 'E'}, a, b, w);
    if At(t, i, {'e', 'E'}) {
      AtBound(t, i + 1, {'+', '-'}, a, b, w);
      RunEndInWindow(lx, Decimal, t, a, b, w, if At(t, i + 1, {'+', '-'}) then i + 2 else i + 1);
    }
  }

  /** A run of class `k` followed by a suffix. */
  lemma RunsInWindow(lx: Lexicon, k: CharClass, suffix: CharClass, t: string, a: nat, b: nat, w: string, i: nat)
    requires Window(t, a, b, w) && |w| == b - a <= |t| - a && a <= i <= b
    ensures var e := RunEnd(lx, k, t, i);
            && e <= b && RunEnd(lx, k, w, i - a) + a == e
            && RunEnd(lx, suffix, t, e) <= b
            && RunEnd(lx, suffix, w, e - a) + a == RunEnd(lx, suffix, t, e)
  {
    hide Window, RunEnd;
    RunEndInWindow(lx, k, t, a, b, w, i);
    RunEndInWindow(lx, suffix, t, a, b, w, RunEnd(lx, k, t, i));
  }

  lemma FloatEndInWindow(lx: Lexicon, t: string, a: nat, b: nat, w: string, f: nat)
    requires Window(t, a, b, w) && |w| == b - a <= |t| - a && a <= f <= b
    ensures FloatEnd(lx, t, f) <= b && FloatEnd(lx, w, f - a) + a == FloatEnd(lx, t, f)
  {
    hide Window, RunEnd, ExponentEnd;
    ExponentEndInWindow(lx, t, a, b, w, f);
    RunEndInWindow(lx, FloatSuffix, t, a, b, w, ExponentEnd(lx, t, f));
  }

  lemma TailEndInWindow(lx: Lexicon, t: string, a: nat, b: nat, w: string, d: nat)
    requires Window(t, a, b, w) && |w| == b - a <= |t| - a && a <= d <= b
    ensures TailEnd(lx, t, d) <= b && TailEnd(lx, w, d - a) + a == TailEnd(lx, t, d)
  {
    hide Window, RunEnd, At, ExponentEnd, FloatEnd;
    AtBound(t, d, {'.'}, a, b, w);
    if At(t, d, {'.'}) {
      RunEndInWindow(lx, Decimal, t, a, b, w, d + 1);
      FloatEndInWindow(lx, t, a, b, w, RunEnd(lx, Decimal, t, d + 1));
    } else {
      ExponentEndInWindow(lx, t, a, b, w, d);
      FloatEndInWindow(lx, t, a, b, w, d);
      RunEndInWindow(lx, IntSuffix, t, a, b, w, d);
    }
  }

  lemma PrefixedEndInWindow(lx: Lexicon, marks: set<char>, k: CharClass, t: string, a: nat, b: nat, w: string, i: nat)
    requires Window(t, a, b, w) && |w| == b - a <= |t| - a && a <= i < b && '\n' !in marks
    ensures var e := PrefixedEnd(lx, marks, k, t, i);
            e <= b && PrefixedEnd(lx, marks, k, w, i - a) + a == e
  {
    hide Window, RunEnd, At;
    CharInWindow(t, a, b, w, i);
    AtBound(t, i + 1, marks, a, b, w);
    if At(t, i + 1, marks) {
      RunsInWindow(lx, k, IntSuffix, t, a, b, w, i + 2);
      assert RunEnd(lx, k, t, i + 2) > i + 2 <==> RunEnd(lx, k, w, i + 2 - a) > i + 2 - a;
    }
  }

  lemma DecimalEndInWindow(lx: Lexicon, t: string, a: nat, b: nat, w: string, i: nat)
    requires Window(t, a, b, w) && |w| == b - a <= |t| - a && a <= i < b
    ensures DecimalEnd(lx, t, i) <= b && DecimalEnd(lx, w, i - a) + a == DecimalEnd(lx, t, i)
  {
    hide Window, RunEnd, TailEnd;
    RunEndInWindow(lx, Decimal, t, a, b, w, i);
    TailEndInWindow(lx, t, a, b, w, RunEnd(lx, Decimal, t, i));
  }

  lemma NumberEndInWindow(lx: Lexicon, t: string, a: nat, b: nat, w: string, i: nat)
    requires Window(t, a, b, w) && |w| == b - a <= |t| - a && a <= i < b
    ensures NumberEnd(lx, t, i) <= b && NumberEnd(lx, w, i - a) + a == NumberEnd(lx, t, i)
  {
    hide Window, PrefixedEnd, DecimalEnd;
    PrefixedEndInWindow(lx, {'x', 'X'}, Hex, t, a, b, w, i);
    PrefixedEndInWindow(lx, {'b', 'B'}, Binary, t, a, b, w, i);
    DecimalEndInWindow(lx, t, a, b, w, i);
  }

  lemma {:induction false} LineEndInWindow(t: string, a: nat, b: nat, w: string, i: nat)
    requires Window(t, a, b, w) && |w| == b - a <= |t| - a && a <= i <= b
    ensures LineEnd(t, i) <= b && LineEnd(w, i - a) + a == LineEnd(t, i)
    decreases b - i
  {
    if i < b { LineEndInWindow(t, a, b, w, i + 1); }
  }

  /** A multi-line token may be cut off by the end of the window. */
  lemma {:induction false} BlockEndInWindow(t: string, a: nat, b: nat, w: string, i: nat)
    requires Window(t, a, b, w) && |w| == b - a <= |t| - a && a <= i <= b
    ensures var e, f := BlockEnd(t, i), BlockEnd(w, i - a) + a;
            if e <= b then f == e else f == b
    decreases b - i
  {
    if i < b {
      AtBound(t, i, {'*'}, a, b, w);
      AtBound(t, i + 1, {'/'}, a, b, w);
      BlockEndInWindow(t, a, b, w, i + 1);
    } else if b < |t| {
      assert !BlockCloses(t, b);
    }
  }

  lemma {:induction false} QuoteEndInWindow(t: string, a: nat, b: nat, w: string, i: nat, q: char)
    requires Window(t, a, b, w) && |w| == b - a <= |t| - a && a <= i <= b + 1 && q != '\n'
    ensures var e, f := QuoteEnd(t, i, q), QuoteEnd(w, i - a, q) + a;
            if e <= b || b == |t| then f == e else b <= f <= b + 1
    decreases b + 1 - i
  {
    if i < b {
      if t[i] == '\\' {
        QuoteEndInWindow(t, a, b, w, i + 2, q);
      } else if t[i] != q {
        QuoteEndInWindow(t, a, b, w, i + 1, q);
      }
    }
  }

  /** One pass over the window does what the pass over the text does, unless it is cut off. */
  lemma NextInWindow(lx: Lexicon, t: string, a: nat, b: nat, w: string, i: nat)
    requires Window(t, a, b, w) && |w| == b - a <= |t| - a && a <= i < b
    ensures var l, m := Next(lx, t, i), Next(lx, w, i - a);
            && m.kind == l.kind
            && (if l.end <= b || b == |t| then m.end + a == l.end else m.end + a >= b && l.kind.Some?)
  {
    hide Window, LineEnd, BlockEnd, QuoteEnd, NextWord, At;
    CharInWindow(t, a, b, w, i);
    AtBound(t, i, {'/'}, a, b, w);
    AtBound(t, i + 1, {'*'}, a, b, w);
    AtBound(t, i + 1, {'/'}, a, b, w);
    if BlockOpens(t, i) {
      BlockEndInWindow(t, a, b, w, i + 2);
    } else if LineOpens(t, i) {
      LineEndInWindow(t, a, b, w, i);
    } else if t[i] == '"' {
      QuoteEndInWindow(t, a, b, w, i + 1, '"');
    } else if t[i] == '\'' {
      QuoteEndInWindow(t, a, b, w, i + 1, '\'');
    } else if t[i] == '#' {
      LineEndInWindow(t, a, b, w, i + 1);
    } else {
      NextWordInWindow(lx, t, a, b, w, i);
    }
  }

  lemma NextWordInWindow(lx: Lexicon, t: string, a: nat, b: nat, w: string, i: nat)
    requires Window(t, a, b, w) && |w| == b - a <= |t| - a && a <= i < b
    ensures var l, m := NextWord(lx, t, i), NextWord(lx, w, i - a);
            m.kind == l.kind && l.end <= b && m.end + a == l.end
  {
    hide Window, RunEnd, NumberEnd, WordKind;
    CharInWindow(t, a, b, w, i);
    NumberEndInWindow(lx, t, a, b, w, i);
    RunEndInWindow(lx, Word, t, a, b, w, i + 1);
    WordKindInWindow(lx, t, a, b, w, i, RunEnd(lx, Word, t, i + 1));
  }

  lemma SliceOfSlice(t: string, a: nat, b: nat, w: string, i: nat, j: nat)
    requires Window(t, a, b, w) && a <= i <= j <= b
    ensures w[i - a..j - a] == t[i..j]
  {
    forall k | 0 <= k < j - i
      ensures w[i - a..j - a][k] == t[i..j][k]
    {
      assert w[i - a + k] == t[a + (i - a + k)];
    }
  }

  lemma WordKindInWindow(lx: Lexicon, t: string, a: nat, b: nat, w: string, i: nat, j: nat)
    requires Window(t, a, b, w) && |w| == b - a <= |t| - a && a <= i <= j <= b
    ensures WordKind(lx, w, i - a, j - a) == WordKind(lx, t, i, j)
  {
    hide Window, RunEnd;
    SliceOfSlice(t, a, b, w, i, j);
    RunEndInWindow(lx, Blank, t, a, b, w, j);
    AtBound(t, RunEnd(lx, Blank, t, j), {'('}, a, b, w);
  }

  /** `ws`, the tokens of the window `t[a..b]`, are the first of the tokens `ts` of the text from
      there on, moved to offset 0; only the last may be cut off by the end of the window, and the
      others of `ts` start beyond it. */
  ghost predicate Refines(ws: seq<Token>, ts: seq<Token>, a: nat, b: nat) {
    && |ws| <= |ts|
    && (forall k :: 0 <= k < |ws| ==> ws[k].start + a == ts[k].start < b && ws[k].kind == ts[k].kind)
    && (forall k :: 0 <= k < |ws| ==> ws[k].end + a == ts[k].end || (k == |ws| - 1 && b <= ws[k].end + a && b < ts[k].end))
    && (forall k :: |ws| <= k < |ts| ==> b <= ts[k].start)
  }

  lemma RefinesCons(w: Token, ws: seq<Token>, k: Token, ts: seq<Token>, a: nat, b: nat)
    requires Refines(ws, ts, a, b)
    requires w.start + a == k.start < b && w.kind == k.kind
    requires w.end + a == k.end || (ws == [] && b <= w.end + a && b < k.end)
    ensures Refines([w] + ws, [k] + ts, a, b)
  {
  }

  lemma {:induction false} TokensInWindow(lx: Lexicon, t: string, a: nat, b: nat, w: string, i: nat)
    requires Window(t, a, b, w) && |w| == b - a <= |t| - a && a <= i <= |t| + 1
    requires i <= b || b == |t|
    ensures Refines(Tokens(lx, w, i - a), Tokens(lx, t, i), a, b)
    decreases |t| + 1 - i
  {
    hide Window, Next, Tokens, Refines;
    if i >= b {
      RefinesNothing(lx, t, i, a, b);
      TokensDone(lx, w, i - a);
    } else {
      NextInWindow(lx, t, a, b, w, i);
      TokensUnfold(lx, t, i);
      TokensUnfold(lx, w, i - a);
      var l, m := Next(lx, t, i), Next(lx, w, i - a);
      var ws, ts := Tokens(lx, w, m.end), Tokens(lx, t, l.end);
      if l.end <= b || b == |t| {
        TokensInWindow(lx, t, a, b, w, l.end);
      } else {
        TokensDone(lx, w, m.end);
        RefinesNothing(lx, t, l.end, a, b);
      }
      assert Refines(ws, ts, a, b);
      if l.kind.Some? {
        RefinesCons(Token(i - a, m.end, l.kind.value), ws, Token(i, l.end, l.kind.value), ts, a, b);
      } else {
        assert [] + ws == ws && [] + ts == ts;
      }
    }
  }

  lemma RefinesNothing(lx: Lexicon, t: string, i: nat, a: nat, b: nat)
    requires b <= i <= |t| + 1
    ensures Refines([], Tokens(lx, t, i), a, b)
  {
    TokensStart(lx, t, i);
  }

  lemma TokensStart(lx: Lexicon, t: string, i: nat)
    requires i <= |t| + 1
    ensures forall k :: 0 <= k < |Tokens(lx, t, i)| ==> i <= Tokens(lx, t, i)[k].start
  {
    TokensOrdered(lx, t, i);
  }

  // ---------------------------------------------------------------- where a window may start

  ghost predicate Straddles(ts: seq<Token>, a: nat) {
    exists k :: 0 <= k < |ts| && ts[k].start < a < ts[k].end
  }

  lemma StraddlesCons(k: Token, ts: seq<Token>, a: nat)
    ensures Straddles([k] + ts, a) <==> k.start < a < k.end || Straddles(ts, a)
  {
    if k.start < a < k.end { assert ([k] + ts)[0] == k; }
    if Straddles(ts, a) {
      var m :| 0 <= m < |ts| && ts[m].start < a < ts[m].end;
      assert ([k] + ts)[m + 1] == ts[m];
    }
  }

  /** If no token straddles the start of a line, the scanner of the whole text stops there: its
      tokens are those that end before it, and those it would find starting afresh. */
  lemma {:induction false} StopsAtLineStart(lx: Lexicon, t: string, i: nat, a: nat) returns (before: seq<Token>)
    requires i <= a <= |t| && (i == a || t[a - 1] == '\n')
    requires !Straddles(Tokens(lx, t, i), a)
    ensures Tokens(lx, t, i) == before + Tokens(lx, t, a)
    ensures forall k :: 0 <= k < |before| ==> before[k].end <= a
    decreases a - i
  {
    hide Tokens, Next, Straddles;
    before := [];
    if i < a {
      TokensUnfold(lx, t, i);
      NewlineEndsWords(lx, t, i, a);
      var l := Next(lx, t, i);
      var rest := Tokens(lx, t, l.end);
      if l.kind.Some? {
        var k := Token(i, l.end, l.kind.value);
        StraddlesCons(k, rest, a);
        before := StopsAtLineStart(lx, t, l.end, a);
        before := [k] + before;
      } else {
        assert [] + rest == rest;
        before := StopsAtLineStart(lx, t, l.end, a);
      }
    }
  }

  lemma NewlineEndsWords(lx: Lexicon, t: string, i: nat, a: nat)
    requires i < a <= |t| && t[a - 1] == '\n'
    ensures var l := Next(lx, t, i); l.end <= a || l.kind.Some?
  {
    hide NumberEnd;
    var l := Next(lx, t, i);
    if l.end > a && l.kind.None? {
      assert Is(lx, Word, t[a - 1]) || a - 1 == i;
      assert Special(t[a - 1]);
    }
  }

  /** The tokens of the text are `before`, all before the window `t[a..b]`, and then `ts`, which the
      window's tokens stand for. */
  ghost predicate Agrees(lx: Lexicon, t: string, a: nat, b: nat, before: seq<Token>, ts: seq<Token>)
    requires a <= b <= |t|
  {
    && Tokens(lx, t, 0) == before + ts && Refines(Tokens(lx, t[a..b], 0), ts, a, b)
    && forall k :: 0 <= k < |before| ==> before[k].end <= a
  }

  lemma WindowAgrees(lx: Lexicon, t: string, a: nat, b: nat) returns (before: seq<Token>, ts: seq<Token>)
    requires a <= b <= |t| && (b == |t| || t[b] == '\n') && (a == 0 || t[a - 1] == '\n')
    requires !Straddles(Tokens(lx, t, 0), a)
    ensures Agrees(lx, t, a, b, before, ts)
  {
    hide Tokens;
    TokensInWindow(lx, t, a, b, t[a..b], a);
    before := StopsAtLineStart(lx, t, 0, a);
    ts := Tokens(lx, t, a);
  }

  /** Tokenizing a window of lines agrees with tokenizing the whole text exactly when no token of the
      whole text straddles the start of the window. */
  lemma WindowRefinesText(lx: Lexicon, t: string, a: nat, b: nat)
    requires a <= b <= |t| && (b == |t| || t[b] == '\n') && (a == 0 || t[a - 1] == '\n')
    ensures (exists before, ts :: Agrees(lx, t, a, b, before, ts)) <==> !Straddles(Tokens(lx, t, 0), a)
  {
    hide Tokens;
    if !Straddles(Tokens(lx, t, 0), a) {
      var before, ts := WindowAgrees(lx, t, a, b);
    }
    if exists before, ts :: Agrees(lx, t, a, b, before, ts) {
      var before, ts :| Agrees(lx, t, a, b, before, ts);
      var all := Tokens(lx, t, 0);
      forall k | 0 <= k < |all|
        ensures !(all[k].start < a < all[k].end)
      {
        assert all[k] == if k < |before| then before[k] else ts[k - |before|];
      }
    }
  }

  /** A comment over two lines with a quote on the second: tokenized from there, it is a string. */
  lemma StraddlingMatters(lx: Lexicon)
    ensures var t := "/*\n\"";
            && Tokens(lx, t, 0) == [Token(0, 4, Comment)] && Straddles(Tokens(lx, t, 0), 3)
            && Tokens(lx, t[3..4], 0) == [Token(0, 1, Str)]
  {
    var t, w := "/*\n\"", "\"";
    assert t[3..4] == w;
    assert BlockEnd(t, 2) == BlockEnd(t, 3) == BlockEnd(t, 4) == 4;
    TokensUnfold(lx, t, 0);
    TokensDone(lx, t, 4);
    assert Tokens(lx, t, 0) == [Token(0, 4, Comment)];
    TokensUnfold(lx, w, 0);
    TokensDone(lx, w, 1);
    assert Tokens(lx, w, 0) == [Token(0, 1, Str)];
    assert Tokens(lx, t, 0)[0].start < 3 < Tokens(lx, t, 0)[0].end;
  }

  // ---------------------------------------------------------------- `_highlight`

  const RANGE := 80

  /** A tag_add call. */
  datatype Tag = Tag(kind: Kind, from: Index, to: Index)

  function TagOf(t: string, k: Token, moved: nat): Tag {
    Tag(k.kind, CharToLineCol(t, k.start + moved), CharToLineCol(t, k.end + moved))
  }

  function FirstLine(cursorLine: nat): nat {
    if cursorLine > RANGE then cursorLine - RANGE else 1
  }

  function LastLine(nlines: nat, cursorLine: nat): nat {
    if cursorLine + RANGE < nlines then cursorLine + RANGE else nlines
  }

  /** The offsets between which the text is tokenized again when the cursor is on `cursorLine`. */
  function Region(t: string, cursorLine: nat): (r: (nat, nat))
    requires 1 <= cursorLine <= |Split(t)|
    ensures r.0 <= r.1 <= |t| && (r.1 == |t| || t[r.1] == '\n') && (r.0 == 0 || t[r.0 - 1] == '\n')
    ensures Join(Split(t)[FirstLine(cursorLine) - 1..LastLine(|Split(t)|, cursorLine)]) == t[r.0..r.1]
  {
    hide Split, Join, Offset;
    var ls := Split(t);
    var a, b := FirstLine(cursorLine) - 1, LastLine(|ls|, cursorLine);
    JoinSplit(t);
    JoinSlice(ls, a, b);
    (Offset(ls, a), Offset(ls, b) - 1)
  }

  /** Where line `l`, counted from 1, starts and ends. */
  function StartOf(t: string, l: nat): nat
    requires 1 <= l <= |Split(t)|
  {
    Offset(Split(t), l - 1)
  }

  function EndOf(t: string, l: nat): nat
    requires 1 <= l <= |Split(t)|
  {
    Offset(Split(t), l - 1) + |Split(t)[l - 1]|
  }

  /** The region is made of the lines at most 80 away from the cursor, all of them and no other. */
  lemma RegionLines(t: string, cursorLine: nat, l: nat)
    requires 1 <= cursorLine <= |Split(t)| && 1 <= l <= |Split(t)|
    ensures Region(t, cursorLine).0 <= StartOf(t, l) && EndOf(t, l) <= Region(t, cursorLine).1
            <==> -80 <= l - cursorLine <= 80
  {
    hide Split, Join, Offset;
    var ls := Split(t);
    var a, b := FirstLine(cursorLine) - 1, LastLine(|ls|, cursorLine);
    if l - 1 < a { OffsetMonotone(ls, l - 1, a); }
    if a < l - 1 { OffsetMonotone(ls, a, l - 1); }
    if l - 1 < b { OffsetMonotone(ls, l - 1, b); }
    if b < l - 1 { OffsetMonotone(ls, b, l - 1); }
  }

  method Retag(lx: Lexicon, text: string, cursorLine: nat) returns (tags: seq<Tag>)
    requires 1 <= cursorLine <= |Split(text)|
    ensures var (a, b) := Region(text, cursorLine);
            var ts := Tokens(lx, text[a..b], 0);
            tags == seq(|ts|, k requires 0 <= k < |ts| => TagOf(text, ts[k], a))
  {
    hide Tokens, CharToLineCol, Split, Join;
    var lines := Split(text);
    var startLine, endLine := FirstLine(cursorLine), LastLine(|lines|, cursorLine);
    var regionText := Join(lines[startLine - 1..endLine]);
    var offsetChar := Offset(lines, startLine - 1);
    ghost var (a, b) := Region(text, cursorLine);
    var tokens := Colorize(lx, regionText);
    tags := [];
    for i := 0 to |tokens|
      invariant tags == seq(i, k requires 0 <= k < i => TagOf(text, tokens[k], offsetChar))
    {
      tags := tags + [TagOf(text, tokens[i], offsetChar)];
    }
  }

  /** The tags are those that highlighting the whole text gives to the tokens from the region's first
      line on, up to its last, unless a token of the whole text straddles the region's start; a token
      that runs past the region's end gets at least the part of it in the region. */
  lemma RetagRefinesFull(lx: Lexicon, t: string, cursorLine: nat, tags: seq<Tag>) returns (ts: seq<Token>)
    requires 1 <= cursorLine <= |Split(t)|
    requires var (a, b) := Region(t, cursorLine);
             var ws := Tokens(lx, t[a..b], 0);
             !Straddles(Tokens(lx, t, 0), a)
             && tags == seq(|ws|, k requires 0 <= k < |ws| => TagOf(t, ws[k], a))
    ensures |tags| <= |ts| <= |Tokens(lx, t, 0)| && Tokens(lx, t, 0)[|Tokens(lx, t, 0)| - |ts|..] == ts
    ensures var (a, b) := Region(t, cursorLine);
            && (forall k :: 0 <= k < |tags| ==> tags[k].kind == ts[k].kind && tags[k].from == CharToLineCol(t, ts[k].start))
            && (forall k :: 0 <= k < |tags| && ts[k].end <= b ==> tags[k] == TagOf(t, ts[k], 0))
            && (forall k :: 0 <= k < |tags| - 1 ==> tags[k] == TagOf(t, ts[k], 0))
            && (forall k :: |tags| <= k < |ts| ==> b <= ts[k].start)
            && (forall k :: 0 <= k < |Tokens(lx, t, 0)| - |ts| ==> Tokens(lx, t, 0)[k].end <= a)
  {
    hide Tokens, Region, CharToLineCol, Straddles, Split, Join, TagOf, Refines;
    var (a, b) := Region(t, cursorLine);
    var before;
    before, ts := WindowAgrees(lx, t, a, b);
    assert (before + ts)[|before|..] == ts;
    TagsRefine(t, Tokens(lx, t[a..b], 0), ts, a, b);
  }

  lemma TagsRefine(t: string, ws: seq<Token>, ts: seq<Token>, a: nat, b: nat)
    requires Refines(ws, ts, a, b)
    ensures |ws| <= |ts|
    ensures forall k :: 0 <= k < |ws| ==>
              && TagOf(t, ws[k], a).kind == ts[k].kind && TagOf(t, ws[k], a).from == CharToLineCol(t, ts[k].start)
              && (ts[k].end <= b || k < |ws| - 1 ==> TagOf(t, ws[k], a) == TagOf(t, ts[k], 0))
    ensures forall k :: |ws| <= k < |ts| ==> b <= ts[k].start
  {
    hide CharToLineCol;
  }

  // ---------------------------------------------------------------- the colours of the text

  /** The characters of a text of length `n` that tokens moved by `moved` colour, and how. */
  function Colours(n: nat, ts: seq<Token>, moved: nat): set<(Kind, nat)> {
    set i, p | 0 <= i < |ts| && 0 <= p < n && ts[i].start + moved <= p < ts[i].end + moved :: (ts[i].kind, p)
  }

  /** The characters between two indices. */
  function Between(t: string, from: Index, to: Index): set<nat>
    requires from.line >= 1 && to.line >= 1 && from.col >= 0 && to.col >= 0
  {
    set p: nat | p < AbsPos(t, to.line, to.col) && !Outside(AbsPos(t, from.line, from.col), |t|, p)
  }

  predicate Outside(a: nat, b: nat, p: nat) {
    p < a || b <= p
  }

  class SyntaxView {
    var tags: set<(Kind, nat)>  // which characters are under which tag

    constructor ()
      ensures tags == {}
    {
      tags := {};
    }

    /** The tags in the region are replaced by those of its tokens. */
    method Highlight(lx: Lexicon, text: string, cursorLine: nat)
      requires 1 <= cursorLine <= |Split(text)|
      modifies this
      ensures var (a, b) := Region(text, cursorLine);
              && (forall k: Kind, p: nat :: (k, p) in tags <==>
                    ((k, p) in old(tags) && Outside(a, b, p)) || (k, p) in Colours(|text|, Tokens(lx, text[a..b], 0), a))
              && (forall l, k: Kind, p: nat ::
                    1 <= l <= |Split(text)| && -80 <= l - cursorLine <= 80 && StartOf(text, l) <= p < EndOf(text, l) ==>
                      ((k, p) in tags <==> (k, p) in Colours(|text|, Tokens(lx, text[a..b], 0), a)))
    {
      hide Tokens, Region, CharToLineCol, AbsPos, Split, StartOf, EndOf;
      ghost var (a, b) := Region(text, cursorLine);
      var region := Region(text, cursorLine);
      ghost var ts := Tokens(lx, text[a..b], 0);
      var calls := Retag(lx, text, cursorLine);
      tags := set x | x in tags && !(region.0 <= x.1 < region.1);
      ghost var kept := tags;
      for i := 0 to |calls|
        invariant tags == kept + Colours(|text|, ts[..i], a)
      {
        TagColours(text, ts[i], a);
        ColoursNext(|text|, ts, a, i);
        var call := calls[i];
        tags := tags + set p | p in Between(text, call.from, call.to) :: (call.kind, p);
      }
      assert ts[..|calls|] == ts;
      forall l | 1 <= l <= |Split(text)| && -80 <= l - cursorLine <= 80
        ensures a <= StartOf(text, l) && EndOf(text, l) <= b
      {
        RegionLines(text, cursorLine, l);
      }
    }
  }

  /** The indices of a token name its characters. */
  lemma TagColours(t: string, k: Token, moved: nat)
    ensures var tag := TagOf(t, k, moved);
            && tag.from.line >= 1 && tag.to.line >= 1 && tag.from.col >= 0 && tag.to.col >= 0
            && (set p | p in Between(t, tag.from, tag.to) :: (tag.kind, p)) == Colours(|t|, [k], moved)
  {
    hide CharToLineCol, AbsPos;
    PositionRoundTrip(t, k.start + moved);
    PositionRoundTrip(t, k.end + moved);
    var tag := TagOf(t, k, moved);
    var s, c := set p | p in Between(t, tag.from, tag.to) :: (tag.kind, p), Colours(|t|, [k], moved);
    forall x | x in s
      ensures x in c
    {
      assert [k][0].start + moved <= x.1 < [k][0].end + moved;
    }
  }

  lemma ColoursNext(n: nat, ts: seq<Token>, moved: nat, i: nat)
    requires i < |ts|
    ensures Colours(n, ts[..i + 1], moved) == Colours(n, ts[..i], moved) + Colours(n, [ts[i]], moved)
  {
    var s, u, v := ts[..i + 1], ts[..i], [ts[i]];
    forall x | x in Colours(n, u, moved)
      ensures x in Colours(n, s, moved)
    {
      var j :| 0 <= j < |u| && u[j].kind == x.0 && u[j].start + moved <= x.1 < u[j].end + moved;
      assert s[j] == u[j];
    }
    assert s[i] == v[0];
    forall x | x in Colours(n, s, moved)
      ensures x in Colours(n, u, moved) + Colours(n, v, moved)
    {
      var j :| 0 <= j < |s| && s[j].kind == x.0 && s[j].start + moved <= x.1 < s[j].end + moved;
      assert j < i ==> u[j] == s[j];
    }
  }

  predicate Colouring(ts: seq<Token>, moved: nat, i: nat, k: Kind, p: nat) {
    i < |ts| && ts[i].kind == k && ts[i].start + moved <= p < ts[i].end + moved
  }

  lemma ColoursBy(n: nat, ts: seq<Token>, moved: nat, k: Kind, p: nat)
    ensures (k, p) in Colours(n, ts, moved) <==> p < n && exists i: nat :: Colouring(ts, moved, i, k, p)
  {
    if exists i: nat :: Colouring(ts, moved, i, k, p) {
      var i: nat :| Colouring(ts, moved, i, k, p);
      assert ts[i].kind == k;
    }
    if (k, p) in Colours(n, ts, moved) {
      var i :| 0 <= i < |ts| && ts[i].kind == k && ts[i].start + moved <= p < ts[i].end + moved;
      assert Colouring(ts, moved, i, k, p);
    }
  }

  lemma TokenColours(ws: seq<Token>, before: seq<Token>, ts: seq<Token>, a: nat, b: nat, i: nat, k: Kind, p: nat)
    requires Refines(ws, ts, a, b) && forall m :: 0 <= m < |before| ==> before[m].end <= a
    requires forall m :: 0 <= m < |ws| ==> ws[m].end + a <= b + 1
    ensures Colouring(ws, a, i, k, p) ==> Colouring(before + ts, 0, |before| + i, k, p)
    ensures Colouring(before + ts, 0, i, k, p) && !Outside(a, b, p) ==>
              i >= |before| && Colouring(ws, a, i - |before|, k, p)
  {
    InEither(before, ts, i);
    InEither(before, ts, |before| + i);
    if Colouring(ws, a, i, k, p) {
      assert ws[i].start + a == ts[i].start;
    }
  }

  lemma InEither(s: seq<Token>, u: seq<Token>, i: nat)
    ensures i < |s| ==> (s + u)[i] == s[i]
    ensures |s| <= i < |s + u| ==> (s + u)[i] == u[i - |s|]
  {
  }

  lemma ColoursCarry(n: nat, ws: seq<Token>, before: seq<Token>, ts: seq<Token>, a: nat, b: nat, k: Kind, p: nat)
    requires Refines(ws, ts, a, b) && forall m :: 0 <= m < |before| ==> before[m].end <= a
    requires forall m :: 0 <= m < |ws| ==> ws[m].end + a <= b + 1
    ensures (k, p) in Colours(n, ws, a) ==> (k, p) in Colours(n, before + ts, 0)
    ensures !Outside(a, b, p) && (k, p) in Colours(n, before + ts, 0) ==> (k, p) in Colours(n, ws, a)
  {
    hide Colours, Colouring, Refines;
    ColoursBy(n, ws, a, k, p);
    ColoursBy(n, before + ts, 0, k, p);
    if (k, p) in Colours(n, ws, a) {
      var i: nat :| Colouring(ws, a, i, k, p);
      TokenColours(ws, before, ts, a, b, i, k, p);
    }
    if !Outside(a, b, p) && (k, p) in Colours(n, before + ts, 0) {
      var i: nat :| Colouring(before + ts, 0, i, k, p);
      TokenColours(ws, before, ts, a, b, i, k, p);
    }
  }

  /** Inside the window its tokens colour what the tokens of the text do; outside they colour nothing
      that those do not. */
  lemma WindowColours(lx: Lexicon, t: string, a: nat, b: nat, k: Kind, p: nat)
    requires a <= b <= |t| && (b == |t| || t[b] == '\n') && (a == 0 || t[a - 1] == '\n')
    requires !Straddles(Tokens(lx, t, 0), a)
    ensures var ws := Colours(|t|, Tokens(lx, t[a..b], 0), a);
            var all := Colours(|t|, Tokens(lx, t, 0), 0);
            ((k, p) in ws ==> (k, p) in all) && (!Outside(a, b, p) && (k, p) in all ==> (k, p) in ws)
  {
    hide Tokens, Straddles, Colours, Refines;
    var before, ts := WindowAgrees(lx, t, a, b);
    EndsInside(lx, t[a..b]);
    ColoursCarry(|t|, Tokens(lx, t[a..b], 0), before, ts, a, b, k, p);
  }

  lemma EndsInside(lx: Lexicon, w: string)
    ensures forall m :: 0 <= m < |Tokens(lx, w, 0)| ==> Tokens(lx, w, 0)[m].end <= |w| + 1
  {
    TokensOrdered(lx, w, 0);
  }

  /** Re-highlighting the region is as good as highlighting everything: if no token of the text straddles
      the region's start, and outside the region the tags were right before, then all of them are now. */
  lemma HighlightIsFull(lx: Lexicon, t: string, cursorLine: nat, was: set<(Kind, nat)>, now: set<(Kind, nat)>)
    requires 1 <= cursorLine <= |Split(t)|
    requires !Straddles(Tokens(lx, t, 0), Region(t, cursorLine).0)
    requires var (a, b) := Region(t, cursorLine);
             forall k: Kind, p: nat :: (k, p) in now <==>
               ((k, p) in was && Outside(a, b, p)) || (k, p) in Colours(|t|, Tokens(lx, t[a..b], 0), a)
    requires var (a, b) := Region(t, cursorLine);
             forall k: Kind, p: nat :: Outside(a, b, p) ==> ((k, p) in was <==> (k, p) in Colours(|t|, Tokens(lx, t, 0), 0))
    ensures now == Colours(|t|, Tokens(lx, t, 0), 0)
  {
    hide Tokens, Region, Straddles, Colours, Split;
    var (a, b) := Region(t, cursorLine);
    forall x: (Kind, nat)
      ensures x in now <==> x in Colours(|t|, Tokens(lx, t, 0), 0)
    {
      var (k, p) := x;
      WindowColours(lx, t, a, b, k, p);
    }
  }

  // ---------------------------------------------------------------- highlighting after an edit

  /** A token covers character `p`. */
  ghost predicate Covered(ts: seq<Token>, p: nat) {
    exists k :: 0 <= k < |ts| && ts[k].start <= p < ts[k].end
  }

  /** The text from line start `a` to line end `b`, the newlines around it in no token. */
  ghost predicate SetApart(lx: Lexicon, t: string, a: nat, b: nat) {
    && a <= b <= |t|
    && (a == 0 || (t[a - 1] == '\n' && !Covered(Tokens(lx, t, 0), a - 1)))
    && (b == |t| || (t[b] == '\n' && !Covered(Tokens(lx, t, 0), b)))
  }

  /** `t[a..b]` has been edited into `u[a..c]`. */
  ghost predicate Edited(t: string, u: string, a: nat, b: nat, c: nat) {
    a <= b <= |t| && a <= c <= |u| && t[..a] == u[..a] && t[b..] == u[c..]
  }

  lemma NotColoured(n: nat, ts: seq<Token>, k: Kind, p: nat)
    requires !Covered(ts, p)
    ensures (k, p) !in Colours(n, ts, 0)
  {
  }

  lemma NotStraddled(ts: seq<Token>, p: nat)
    requires !Covered(ts, p)
    ensures !Straddles(ts, p + 1)
  {
    forall k | 0 <= k < |ts|
      ensures !(ts[k].start < p + 1 < ts[k].end)
    {
      assert !(ts[k].start <= p < ts[k].end);
    }
  }

  /** Inside a window of lines whose start is not straddled the colours of the text are the window's. */
  lemma ColoursOfWindow(lx: Lexicon, t: string, a: nat, b: nat, k: Kind, p: nat)
    requires a <= p < b <= |t| && (b == |t| || t[b] == '\n') && (a == 0 || t[a - 1] == '\n')
    requires !Straddles(Tokens(lx, t, 0), a)
    ensures (k, p) in Colours(|t|, Tokens(lx, t, 0), 0) <==> (k, p - a) in Colours(b - a, Tokens(lx, t[a..b], 0), 0)
  {
    hide Tokens, Straddles, Colours;
    WindowColours(lx, t, a, b, k, p);
    ColoursMoved(|t|, b - a, Tokens(lx, t[a..b], 0), a, k, p);
  }

  lemma ColoursMoved(n: nat, m: nat, ts: seq<Token>, a: nat, k: Kind, p: nat)
    requires a <= p < n && p - a < m
    ensures (k, p) in Colours(n, ts, a) <==> (k, p - a) in Colours(m, ts, 0)
  {
    hide Colours;
    var q := p - a;
    ColoursBy(n, ts, a, k, p);
    ColoursBy(m, ts, 0, k, q);
    if exists i: nat :: Colouring(ts, a, i, k, p) {
      var i: nat :| Colouring(ts, a, i, k, p);
      assert Colouring(ts, 0, i, k, q);
    }
    if exists i: nat :: Colouring(ts, 0, i, k, q) {
      var i: nat :| Colouring(ts, 0, i, k, q);
      assert Colouring(ts, a, i, k, p);
    }
  }

  lemma StartNotStraddled(ts: seq<Token>)
    ensures !Straddles(ts, 0)
  {
  }

  /** Before the newline in front of the lines the colours are those of the text up to there. */
  lemma ColoursBefore(lx: Lexicon, t: string, a: nat, b: nat, k: Kind, p: nat)
    requires SetApart(lx, t, a, b) && p < a
    ensures (k, p) in Colours(|t|, Tokens(lx, t, 0), 0) <==>
              p < a - 1 && (k, p) in Colours(a - 1, Tokens(lx, t[0..a - 1], 0), 0)
  {
    hide Tokens, Straddles, Colours, Covered;
    if p == a - 1 {
      NotColoured(|t|, Tokens(lx, t, 0), k, p);
    } else {
      StartNotStraddled(Tokens(lx, t, 0));
      ColoursOfWindow(lx, t, 0, a - 1, k, p);
    }
  }

  lemma HeadsAgree(t: string, u: string, a: nat, b: nat, c: nat)
    requires Edited(t, u, a, b, c) && a > 0
    ensures a - 1 <= |t| && a - 1 <= |u| && t[0..a - 1] == u[0..a - 1]
  {
    assert t[0..a - 1] == t[..a][..a - 1] && u[0..a - 1] == u[..a][..a - 1];
  }

  /** The full colours before the edited lines stay as they were. */
  lemma BeforeKept(lx: Lexicon, t: string, u: string, a: nat, b: nat, c: nat, k: Kind, p: nat)
    requires Edited(t, u, a, b, c) && SetApart(lx, t, a, b) && SetApart(lx, u, a, c) && p < a
    ensures (k, p) in Colours(|t|, Tokens(lx, t, 0), 0) <==> (k, p) in Colours(|u|, Tokens(lx, u, 0), 0)
  {
    hide Tokens, Colours, Edited, SetApart;
    HeadsAgree(t, u, a, b, c);
    ColoursBefore(lx, t, a, b, k, p);
    ColoursBefore(lx, u, a, c, k, p);
  }

  /** Where character `p` of the edited text was before. */
  function OldPlace(b: nat, c: nat, p: nat): nat
    requires c <= p
  {
    p - c + b
  }

  lemma TailsAgree(t: string, u: string, a: nat, b: nat, c: nat)
    requires Edited(t, u, a, b, c)
    ensures |t| - b == |u| - c && (b < |t| ==> t[b + 1..|t|] == u[c + 1..|u|])
  {
    assert |t[b..]| == |u[c..]|;
    if b < |t| { assert t[b + 1..|t|] == t[b..][1..] && u[c + 1..|u|] == u[c..][1..]; }
  }

  /** Behind the newline that ends the lines the colours are those of the rest, tokenized by itself. */
  lemma ColoursBehind(lx: Lexicon, t: string, a: nat, b: nat, k: Kind, p: nat)
    requires SetApart(lx, t, a, b) && b <= p < |t|
    ensures (k, p) in Colours(|t|, Tokens(lx, t, 0), 0) <==>
              p > b && (k, p - (b + 1)) in Colours(|t| - (b + 1), Tokens(lx, t[b + 1..|t|], 0), 0)
  {
    hide Tokens, Straddles, Colours, Covered;
    if p == b {
      NotColoured(|t|, Tokens(lx, t, 0), k, b);
    } else {
      NotStraddled(Tokens(lx, t, 0), b);
      ColoursOfWindow(lx, t, b + 1, |t|, k, p);
    }
  }

  /** Those behind them move with the text. */
  lemma BehindMoves(lx: Lexicon, t: string, u: string, a: nat, b: nat, c: nat, k: Kind, p: nat)
    requires Edited(t, u, a, b, c) && SetApart(lx, t, a, b) && SetApart(lx, u, a, c) && c <= p < |u|
    ensures (k, OldPlace(b, c, p)) in Colours(|t|, Tokens(lx, t, 0), 0) <==> (k, p) in Colours(|u|, Tokens(lx, u, 0), 0)
  {
    TailsAgree(t, u, a, b, c);
    hide Tokens, Colours, Edited, SetApart;
    ColoursBehind(lx, t, a, b, k, OldPlace(b, c, p));
    ColoursBehind(lx, u, a, c, k, p);
  }

  /** The tags were those of highlighting all of `t`. Lines of it were edited into those of the region of
      `u`, and `was` is what Tk has made of the tags: outside the region they are the old ones, moved with
      the text. Highlighting the region then leaves the tags of highlighting all of `u`. */
  lemma EditThenHighlight(lx: Lexicon, t: string, u: string, b: nat, cursorLine: nat,
                          was: set<(Kind, nat)>, now: set<(Kind, nat)>)
    requires 1 <= cursorLine <= |Split(u)|
    requires var (a, c) := Region(u, cursorLine);
             Edited(t, u, a, b, c) && SetApart(lx, t, a, b) && SetApart(lx, u, a, c)
    requires var (a, c) := Region(u, cursorLine);
             && (forall k: Kind, p: nat :: p < a ==> ((k, p) in was <==> (k, p) in Colours(|t|, Tokens(lx, t, 0), 0)))
             && (forall k: Kind, p: nat :: c <= p ==>
                   ((k, p) in was <==> p < |u| && (k, OldPlace(b, c, p)) in Colours(|t|, Tokens(lx, t, 0), 0)))
    requires var (a, c) := Region(u, cursorLine);
             forall k: Kind, p: nat :: (k, p) in now <==>
               ((k, p) in was && Outside(a, c, p)) || (k, p) in Colours(|u|, Tokens(lx, u[a..c], 0), a)
    ensures now == Colours(|u|, Tokens(lx, u, 0), 0)
  {
    hide Tokens, Region, Straddles, Colours, Split, SetApart, Edited, OldPlace;
    var (a, c) := Region(u, cursorLine);
    forall k: Kind, p: nat | Outside(a, c, p)
      ensures (k, p) in was <==> (k, p) in Colours(|u|, Tokens(lx, u, 0), 0)
    {
      if p < a {
        BeforeKept(lx, t, u, a, b, c, k, p);
      } else if p < |u| {
        BehindMoves(lx, t, u, a, b, c, k, p);
      } else {
        BeyondEnd(|u|, Tokens(lx, u, 0), k, p);
      }
    }
    ApartNotStraddled(lx, u, a, c);
    HighlightIsFull(lx, u, cursorLine, was, now);
  }

  lemma BeyondEnd(n: nat, ts: seq<Token>, k: Kind, p: nat)
    requires p >= n
    ensures (k, p) !in Colours(n, ts, 0)
  {
  }

  lemma ApartNotStraddled(lx: Lexicon, t: string, a: nat, b: nat)
    requires SetApart(lx, t, a, b)
    ensures !Straddles(Tokens(lx, t, 0), a)
  {
    hide Tokens, Straddles, Covered;
    if a == 0 {
      StartNotStraddled(Tokens(lx, t, 0));
    } else {
      NotStraddled(Tokens(lx, t, 0), a - 1);
    }
  }
}
