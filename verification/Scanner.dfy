/** The second hand-written scanner, `_pos_in_string_or_comment` of clite_ide/editor.py, and its
    agreement with the first. */
module Scanner {
  import opened Wrappers
  import opened Lexer

  /** The verdict of the loop when it stands at position `i`. */
  function Inside(t: string, i: nat, pos: nat): bool
    requires i <= |t| + 1
    decreases |t| + 1 - i
  {
    if i >= |t| || i > pos then false
    else if BlockOpens(t, i) then pos < BlockEnd(t, i + 2) || Inside(t, BlockEnd(t, i + 2), pos)
    else if LineOpens(t, i) then pos <= LineEnd(t, i) || Inside(t, LineEnd(t, i), pos)
    else if t[i] == '"' || t[i] == '\'' then
      var j := QuoteEnd(t, i + 1, t[i]);
      pos <= (if j < |t| then j else |t|) || Inside(t, j, pos)
    else Inside(t, i + 1, pos)
  }

  method PosInStringOrComment(text: string, pos: nat) returns (r: bool)
    ensures r == Inside(text, 0, pos)
  {
    var i := 0;
    var n := |text|;
    while i < n && i <= pos
      invariant i <= n + 1 && Inside(text, i, pos) == Inside(text, 0, pos)
      decreases n + 1 - i
    {
      var c := text[i];
      if c == '/' && i + 1 < n && text[i + 1] == '*' {
        var j := BlockEnd(text, i + 2);
        if i <= pos < j { return true; }
        i := j;
        continue;
      }
      if c == '/' && i + 1 < n && text[i + 1] == '/' {
        var j := LineEnd(text, i);
        if i <= pos <= j { return true; }
        i := j;
        continue;
      }
      if c == '"' || c == '\'' {
        var j := ScanQuoted(text, i + 1, c);
        var endPos := if j < n then j else n;
        if i <= pos <= endPos { return true; }
        i := j;
        continue;
      }
      i := i + 1;
    }
    r := false;
  }

  /** `pos` is in a comment, string or character token, or right at the end of one that is not a
      block comment. */
  predicate Covers(t: string, k: Token, pos: nat) {
    && (k.kind == Comment || k.kind == Str || k.kind == Chr)
    && k.start <= pos
    && (pos < k.end || (pos == k.end && !BlockOpens(t, k.start)))
  }

  predicate Covered(t: string, ts: seq<Token>, pos: nat) {
    exists k :: 0 <= k < |ts| && Covers(t, ts[k], pos)
  }

  /** A character at which the loop does anything but move on. */
  predicate Starts(t: string, p: nat) {
    At(t, p, {'"', '\''}) || BlockOpens(t, p) || LineOpens(t, p)
  }

  lemma {:induction false} PlainRun(t: string, i: nat, j: nat, pos: nat)
    requires i <= j <= |t|
    requires forall k :: i <= k < j ==> !Starts(t, k)
    ensures Inside(t, i, pos) == Inside(t, j, pos)
    decreases j - i
  {
    if i < j {
      PlainRun(t, i + 1, j, pos);
      assert !Starts(t, i);
    }
  }

  lemma CoveredSplit(t: string, ts: seq<Token>, k: Token, pos: nat)
    ensures Covered(t, [k] + ts, pos) <==> Covers(t, k, pos) || Covered(t, ts, pos)
  {
    if Covers(t, k, pos) {
      assert ([k] + ts)[0] == k;
    }
    if Covered(t, ts, pos) {
      var m :| 0 <= m < |ts| && Covers(t, ts[m], pos);
      assert ([k] + ts)[m + 1] == ts[m];
    }
  }

  lemma PlainJoin(t: string, i: nat, m: nat, e: nat)
    requires i <= m <= e <= |t| && Plain(t, i, m) && Plain(t, m, e)
    ensures Plain(t, i, e)
  {
  }

  lemma PlainTwo(t: string, i: nat)
    requires i + 2 <= |t| && !Special(t[i]) && !Special(t[i + 1])
    ensures Plain(t, i, i + 2)
  {
  }

  lemma ExponentIsPlain(lx: Lexicon, t: string, i: nat)
    requires i <= |t|
    ensures Plain(t, i, ExponentEnd(lx, t, i))
  {
    var e := ExponentEnd(lx, t, i);
    if e > i {
      if At(t, i + 1, {'+', '-'}) {
        PlainTwo(t, i);
        PlainJoin(t, i, i + 2, e);
      } else {
        assert !Special(t[i]);
        PlainJoin(t, i, i + 1, e);
      }
    }
  }

  lemma PrefixedIsPlain(lx: Lexicon, marks: set<char>, k: CharClass, t: string, i: nat)
    requires i < |t| && forall c :: c in marks ==> !Special(c)
    ensures Plain(t, i, PrefixedEnd(lx, marks, k, t, i))
  {
    hide RunEnd;
    var e := PrefixedEnd(lx, marks, k, t, i);
    if e > i {
      PlainTwo(t, i);
      PlainJoin(t, i, i + 2, RunEnd(lx, k, t, i + 2));
      PlainJoin(t, i, RunEnd(lx, k, t, i + 2), e);
    }
  }

  lemma NumberIsPlain(lx: Lexicon, t: string, i: nat)
    requires i < |t|
    ensures Plain(t, i, NumberEnd(lx, t, i))
  {
    hide RunEnd, PrefixedEnd, TailEnd, Plain;
    PrefixedIsPlain(lx, {'x', 'X'}, Hex, t, i);
    PrefixedIsPlain(lx, {'b', 'B'}, Binary, t, i);
    PlainJoin(t, i, i, i);
    var d := RunEnd(lx, Decimal, t, i);
    if d > i {
      TailIsPlain(lx, t, d);
      PlainJoin(t, i, d, TailEnd(lx, t, d));
    }
  }

  lemma TailIsPlain(lx: Lexicon, t: string, d: nat)
    requires d <= |t|
    ensures Plain(t, d, TailEnd(lx, t, d))
  {
    hide RunEnd, ExponentEnd, FloatEnd;
    if At(t, d, {'.'}) {
      var f := RunEnd(lx, Decimal, t, d + 1);
      PlainDot(t, d);
      PlainJoin(t, d, d + 1, f);
      FloatIsPlain(lx, t, f);
      PlainJoin(t, d, f, FloatEnd(lx, t, f));
    } else if ExponentEnd(lx, t, d) > d {
      FloatIsPlain(lx, t, d);
    }
  }

  lemma FloatIsPlain(lx: Lexicon, t: string, f: nat)
    requires f <= |t|
    ensures Plain(t, f, FloatEnd(lx, t, f))
  {
    ExponentIsPlain(lx, t, f);
    PlainJoin(t, f, ExponentEnd(lx, t, f), FloatEnd(lx, t, f));
  }

  lemma PlainDot(t: string, d: nat)
    requires At(t, d, {'.'})
    ensures Plain(t, d, d + 1)
  {
  }

  lemma NextIsPlain(lx: Lexicon, t: string, i: nat)
    requires i < |t| && t[i] != '#' && !Starts(t, i)
    ensures var e := Next(lx, t, i).end; e <= |t| && forall k :: i <= k < e ==> !Starts(t, k)
  {
    hide NumberEnd, RunEnd, WordKind;
    NumberIsPlain(lx, t, i);
    var e := Next(lx, t, i).end;
    assert e == i + 1 || Plain(t, i, e);
  }

  /** A quote or a comment opener after the `#` of a preprocessor line: the token hides it from the
      first scanner only. */
  predicate Hidden(t: string, k: Token, p: nat) {
    k.kind == Preproc && k.start < p < k.end && Starts(t, p)
  }

  ghost predicate NoneHidden(t: string, ts: seq<Token>) {
    forall k, p: nat :: 0 <= k < |ts| ==> !Hidden(t, ts[k], p)
  }

  lemma NoneHiddenSplit(t: string, ts: seq<Token>, k: Token)
    ensures NoneHidden(t, [k] + ts) <==> NoneHidden(t, ts) && forall p: nat :: !Hidden(t, k, p)
  {
    if NoneHidden(t, [k] + ts) {
      forall m, p: nat | 0 <= m < |ts|
        ensures !Hidden(t, ts[m], p)
      {
        assert ([k] + ts)[m + 1] == ts[m];
      }
      assert ([k] + ts)[0] == k;
    }
  }

  predicate Judged(k: Option<Kind>) {
    k == Some(Comment) || k == Some(Str) || k == Some(Chr)
  }

  /** What the verdict on `pos` owes to the pass at `i`. */
  lemma OnePass(lx: Lexicon, t: string, i: nat, pos: nat)
    requires i < |t| && pos <= |t|
    ensures var l := Next(lx, t, i);
            && (Judged(l.kind) ==>
                  (Inside(t, i, pos) <==> Covers(t, Token(i, l.end, l.kind.value), pos) || Inside(t, l.end, pos)))
            && (l.kind.Some? && !Judged(l.kind) ==> !Covers(t, Token(i, l.end, l.kind.value), pos))
            && (!Judged(l.kind) && (l.kind == Some(Preproc) ==> forall p: nat :: !Hidden(t, Token(i, l.end, Preproc), p)) ==>
                  Inside(t, i, pos) == Inside(t, l.end, pos))
  {
    hide NumberEnd, RunEnd, WordKind;
    var l := Next(lx, t, i);
    if !Judged(l.kind) {
      assert !Starts(t, i);
      if l.kind == Some(Preproc) {
        var k := Token(i, l.end, Preproc);
        if forall p: nat :: !Hidden(t, k, p) {
          forall p | i <= p < l.end
            ensures !Starts(t, p)
          {
            assert !Hidden(t, k, p);
          }
          PlainRun(t, i, l.end, pos);
        }
      } else {
        NextIsPlain(lx, t, i);
        PlainRun(t, i, l.end, pos);
      }
    }
  }

  /** Started at the same place, the two scanners agree as long as no preprocessor line hides anything. */
  lemma {:induction false} Agreement(lx: Lexicon, t: string, i: nat, pos: nat)
    requires i <= |t| + 1 && pos <= |t| && NoneHidden(t, Tokens(lx, t, i))
    ensures Inside(t, i, pos) <==> Covered(t, Tokens(lx, t, i), pos)
    decreases |t| + 1 - i
  {
    hide Next, Tokens, Covered, NoneHidden, Hidden, Inside, Covers;
    if i < |t| {
      TokensUnfold(lx, t, i);
      OnePass(lx, t, i, pos);
      var l := Next(lx, t, i);
      var rest := Tokens(lx, t, l.end);
      if l.kind.Some? {
        NoneHiddenSplit(t, rest, Token(i, l.end, l.kind.value));
        CoveredSplit(t, rest, Token(i, l.end, l.kind.value), pos);
      } else {
        assert [] + rest == rest;
      }
      Agreement(lx, t, l.end, pos);
    } else {
      TokensDone(lx, t, i);
      NothingThere(t, i, pos);
    }
  }

  lemma NothingThere(t: string, i: nat, pos: nat)
    requires |t| <= i <= |t| + 1
    ensures !Inside(t, i, pos) && !Covered(t, [], pos)
  {
  }

  /** And where a line does hide something, they disagree at the first such place. */
  lemma {:induction false} Disagreement(lx: Lexicon, t: string, i: nat) returns (pos: nat)
    requires i <= |t| + 1 && !NoneHidden(t, Tokens(lx, t, i))
    ensures i < pos < |t| && Inside(t, i, pos) && !Covered(t, Tokens(lx, t, i), pos)
    decreases |t| + 1 - i
  {
    hide Next, Tokens, Covered, NoneHidden, Inside, Covers, Starts;
    if i >= |t| {
      TokensDone(lx, t, i);
      NothingHidden(t);
      assert false;
    } else {
      TokensUnfold(lx, t, i);
      var l := Next(lx, t, i);
      var rest := Tokens(lx, t, l.end);
      if l.kind == Some(Preproc) && exists p: nat :: Hidden(t, Token(i, l.end, Preproc), p) {
        var k := Token(i, l.end, Preproc);
        pos := FirstHidden(t, k);
        FirstShows(lx, t, i, pos);
        CoveredSplit(t, rest, k, pos);
        NoneBefore(lx, t, l.end, pos);
      } else {
        if l.kind.Some? {
          NoneHiddenSplit(t, rest, Token(i, l.end, l.kind.value));
        } else {
          assert [] + rest == rest;
        }
        pos := Disagreement(lx, t, l.end);
        OnePass(lx, t, i, pos);
        if l.kind.Some? {
          PastIt(t, Token(i, l.end, l.kind.value), pos);
          CoveredSplit(t, rest, Token(i, l.end, l.kind.value), pos);
        }
      }
    }
  }

  lemma NothingHidden(t: string)
    ensures NoneHidden(t, [])
  {
  }

  lemma PastIt(t: string, k: Token, pos: nat)
    requires k.end < pos
    ensures !Covers(t, k, pos)
  {
  }

  lemma FirstHidden(t: string, k: Token) returns (pos: nat)
    requires exists p: nat :: Hidden(t, k, p)
    ensures Hidden(t, k, pos) && forall p: nat :: p < pos ==> !Hidden(t, k, p)
  {
    pos := 0;
    while !Hidden(t, k, pos)
      invariant forall p: nat :: p < pos ==> !Hidden(t, k, p)
      invariant pos <= k.end
      decreases k.end - pos
    {
      pos := pos + 1;
    }
  }

  lemma FirstShows(lx: Lexicon, t: string, i: nat, pos: nat)
    requires i < |t| && Next(lx, t, i).kind == Some(Preproc)
    requires var k := Token(i, Next(lx, t, i).end, Preproc);
             Hidden(t, k, pos) && forall p: nat :: p < pos ==> !Hidden(t, k, p)
    ensures i < pos < Next(lx, t, i).end && pos < |t| && Inside(t, i, pos)
    ensures !Covers(t, Token(i, Next(lx, t, i).end, Preproc), pos)
  {
    var k := Token(i, Next(lx, t, i).end, Preproc);
    assert t[i] == '#';
    forall p | i <= p < pos
      ensures !Starts(t, p)
    {
      assert !Hidden(t, k, p);
    }
    PlainRun(t, i, pos, pos);
  }

  /** Nothing before the place where scanning starts is covered. */
  lemma NoneBefore(lx: Lexicon, t: string, i: nat, pos: nat)
    requires i <= |t| + 1 && pos < i
    ensures !Covered(t, Tokens(lx, t, i), pos)
  {
    TokensOrdered(lx, t, i);
    var ts := Tokens(lx, t, i);
    forall k | 0 <= k < |ts|
      ensures !Covers(t, ts[k], pos)
    {
      assert Tokens(lx, t, i)[k].start >= i;
    }
  }

  // ---------------------------------------------------------------- texts with a `#`

  /** The text as the second scanner sees it: to it a `#` is a character like any other. */
  function WithoutHashes(t: string): (u: string)
    ensures |u| == |t|
    ensures forall k :: 0 <= k < |t| ==> u[k] == if t[k] == '#' then ' ' else t[k]
  {
    seq(|t|, k requires 0 <= k < |t| => if t[k] == '#' then ' ' else t[k])
  }

  lemma {:induction false} SameBlockEnd(t: string, i: nat)
    requires i <= |t|
    ensures BlockEnd(t, i) == BlockEnd(WithoutHashes(t), i)
    decreases |t| - i
  {
    if i < |t| { SameBlockEnd(t, i + 1); }
  }

  lemma {:induction false} SameLineEnd(t: string, i: nat)
    requires i <= |t|
    ensures LineEnd(t, i) == LineEnd(WithoutHashes(t), i)
    decreases |t| - i
  {
    if i < |t| { SameLineEnd(t, i + 1); }
  }

  lemma {:induction false} SameQuoteEnd(t: string, i: nat, q: char)
    requires i <= |t| + 1 && q != '#' && q != ' '
    ensures QuoteEnd(t, i, q) == QuoteEnd(WithoutHashes(t), i, q)
    decreases |t| + 1 - i
  {
    if i < |t| {
      SameQuoteEnd(t, i + 1, q);
      SameQuoteEnd(t, i + 2, q);
    }
  }

  lemma {:induction false} HashesIgnored(t: string, i: nat, pos: nat)
    requires i <= |t| + 1
    ensures Inside(t, i, pos) == Inside(WithoutHashes(t), i, pos)
    decreases |t| + 1 - i
  {
    if i < |t| {
      if BlockOpens(t, i) {
        SameBlockEnd(t, i + 2);
        HashesIgnored(t, BlockEnd(t, i + 2), pos);
      } else if LineOpens(t, i) {
        SameLineEnd(t, i);
        HashesIgnored(t, LineEnd(t, i), pos);
      } else if t[i] == '"' || t[i] == '\'' {
        SameQuoteEnd(t, i + 1, t[i]);
        HashesIgnored(t, QuoteEnd(t, i + 1, t[i]), pos);
      } else {
        HashesIgnored(t, i + 1, pos);
      }
    }
  }

  /** The cursor test and the token test give the same verdict everywhere exactly when no preprocessor
      line hides a quote or a comment opener. */
  lemma ScannersAgree(lx: Lexicon, t: string)
    ensures (forall pos :: 0 <= pos <= |t| ==> (Inside(t, 0, pos) <==> Covered(t, Tokens(lx, t, 0), pos)))
            <==> NoneHidden(t, Tokens(lx, t, 0))
  {
    hide Inside, Covered, NoneHidden, Tokens;
    if NoneHidden(t, Tokens(lx, t, 0)) {
      forall pos | 0 <= pos <= |t|
        ensures Inside(t, 0, pos) <==> Covered(t, Tokens(lx, t, 0), pos)
      {
        Agreement(lx, t, 0, pos);
      }
    } else {
      var pos := Disagreement(lx, t, 0);
    }
  }

  /** On every text the cursor test is the token test on the text with its `#` blanked out. */
  lemma TestsBlankedText(lx: Lexicon, t: string, pos: nat)
    requires pos <= |t|
    ensures var u := WithoutHashes(t);
            Inside(t, 0, pos) <==> Covered(u, Tokens(lx, u, 0), pos)
  {
    hide Inside, Covered, Tokens;
    var u := WithoutHashes(t);
    HashesIgnored(t, 0, pos);
    forall k, p: nat | 0 <= k < |Tokens(lx, u, 0)|
      ensures !Hidden(u, Tokens(lx, u, 0)[k], p)
    {
      TokensMeaning(lx, u, 0);
      assert Means(lx, u, Tokens(lx, u, 0)[k]);
    }
    Agreement(lx, u, 0, pos);
  }

  /** A line that hides something: the quote opens a string for one scanner only. */
  lemma HashMatters(lx: Lexicon)
    ensures Inside("#\"", 0, 1) && !Covered("#\"", Tokens(lx, "#\"", 0), 1)
  {
    var t := "#\"";
    assert Inside(t, 1, 1);
    TokensUnfold(lx, t, 0);
    assert LineEnd(t, 1) == LineEnd(t, 2) == 2;
    TokensDone(lx, t, 2);
    assert Tokens(lx, t, 0) == [Token(0, 2, Preproc)];
  }
}
