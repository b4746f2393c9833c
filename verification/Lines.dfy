/** Text, its lines, and the two ways of naming a position: an offset, or a line and a column as the
    Tk text widget counts them (clite_ide/editor.py, `_char_to_linecol` and `_abs_pos`). */
module Lines {

  ghost predicate OneLine(s: string) {
    '\n' !in s
  }

  /** text.split("\n") */
  function Split(t: string): (ls: seq<string>)
    ensures |ls| >= 1 && forall k :: 0 <= k < |ls| ==> OneLine(ls[k])
  {
    if t == "" then [""]
    else
      var rest := Split(t[1..]);
      if t[0] == '\n' then [""] + rest else [[t[0]] + rest[0]] + rest[1..]
  }

  /** "\n".join(lines) */
  function Join(ls: seq<string>): string
    requires |ls| >= 1
  {
    if |ls| == 1 then ls[0] else ls[0] + "\n" + Join(ls[1..])
  }

  lemma {:induction false} JoinSplit(t: string)
    ensures Join(Split(t)) == t
  {
    if t != "" {
      JoinSplit(t[1..]);
      var rest := Split(t[1..]);
      if t[0] == '\n' {
        assert ([""] + rest)[1..] == rest;
      } else {
        assert ([[t[0]] + rest[0]] + rest[1..])[1..] == rest[1..];
      }
    }
  }

  /** The offset at which line `k`, counted from 0, starts. */
  function Offset(ls: seq<string>, k: nat): nat
    requires k <= |ls|
  {
    if k == 0 then 0 else |ls[0]| + 1 + Offset(ls[1..], k - 1)
  }

  lemma OffsetZero(ls: seq<string>)
    ensures Offset(ls, 0) == 0
  {
  }

  lemma {:induction false} OffsetNext(ls: seq<string>, k: nat)
    requires k < |ls|
    ensures Offset(ls, k + 1) == Offset(ls, k) + |ls[k]| + 1
  {
    if k > 0 { OffsetNext(ls[1..], k - 1); }
  }

  lemma {:induction false} OffsetMonotone(ls: seq<string>, j: nat, k: nat)
    requires j < k <= |ls|
    ensures Offset(ls, j) + |ls[j]| + 1 <= Offset(ls, k)
    decreases k - j
  {
    OffsetNext(ls, j);
    if j + 1 < k { OffsetMonotone(ls, j + 1, k); }
  }

  /** Where the characters of a line are found in the text. */
  lemma {:induction false} JoinAt(ls: seq<string>, k: nat, c: nat)
    requires k < |ls| && c <= |ls[k]|
    ensures var p := Offset(ls, k) + c;
            && p <= |Join(ls)|
            && (c < |ls[k]| ==> p < |Join(ls)| && Join(ls)[p] == ls[k][c])
            && (c == |ls[k]| && k + 1 < |ls| ==> p < |Join(ls)| && Join(ls)[p] == '\n')
            && (c == |ls[k]| && k + 1 == |ls| ==> p == |Join(ls)|)
  {
    if k > 0 { JoinAt(ls[1..], k - 1, c); }
  }

  /** Joining some of the lines cuts the text out between their first and last character. */
  lemma {:induction false} JoinSlice(ls: seq<string>, a: nat, b: nat)
    requires a < b <= |ls|
    ensures var t := Join(ls);
            && Offset(ls, a) <= Offset(ls, b) - 1 <= |t|
            && Join(ls[a..b]) == t[Offset(ls, a)..Offset(ls, b) - 1]
            && (a == 0 || t[Offset(ls, a) - 1] == '\n')
            && (Offset(ls, b) - 1 == |t| || t[Offset(ls, b) - 1] == '\n')
  {
    hide Join, Offset;
    assert a == 0 ==> Offset(ls, a) == 0 by { OffsetZero(ls); }
    OffsetMonotone(ls, a, b);
    OffsetNext(ls, b - 1);
    JoinAt(ls, b - 1, |ls[b - 1]|);
    if a > 0 {
      OffsetNext(ls, a - 1);
      JoinAt(ls, a - 1, |ls[a - 1]|);
    }
    JoinLength(ls[a..b]);
    OffsetSlice(ls, a, b, b - a);
    var t, w := Join(ls), Join(ls[a..b]);
    forall p | 0 <= p < |w|
      ensures w[p] == t[Offset(ls, a) + p]
    {
      var k, c := Locate(ls[a..b], p);
      JoinAt(ls[a..b], k, c);
      JoinAt(ls, a + k, c);
      OffsetSlice(ls, a, b, k);
    }
  }

  lemma {:induction false} OffsetSlice(ls: seq<string>, a: nat, b: nat, k: nat)
    requires a + k <= b <= |ls|
    ensures Offset(ls, a) + Offset(ls[a..b], k) == Offset(ls, a + k)
  {
    if k > 0 {
      OffsetSlice(ls, a, b, k - 1);
      OffsetNext(ls[a..b], k - 1);
      OffsetNext(ls, a + k - 1);
    }
  }

  lemma JoinLength(ls: seq<string>)
    requires |ls| >= 1
    ensures |Join(ls)| == Offset(ls, |ls|) - 1
  {
    JoinAt(ls, |ls| - 1, |ls[|ls| - 1]|);
    OffsetNext(ls, |ls| - 1);
  }

  /** The line and column of an offset, both counted from 0. */
  lemma {:induction false} Locate(ls: seq<string>, p: nat) returns (k: nat, c: nat)
    requires |ls| >= 1 && p <= |Join(ls)|
    ensures k < |ls| && c <= |ls[k]| && p == Offset(ls, k) + c
  {
    if p <= |ls[0]| {
      k, c := 0, p;
    } else {
      k, c := Locate(ls[1..], p - |ls[0]| - 1);
      k := k + 1;
    }
  }

  // ---------------------------------------------------------------- offsets, lines and columns

  /** text.count("\n", 0, pos) */
  function Newlines(t: string, pos: nat): nat
    requires pos <= |t|
  {
    if pos == 0 then 0 else Newlines(t, pos - 1) + (if t[pos - 1] == '\n' then 1 else 0)
  }

  /** text.rfind("\n", 0, pos) + 1 */
  function LineStart(t: string, pos: nat): (s: nat)
    requires pos <= |t|
    ensures s <= pos
  {
    if pos == 0 || t[pos - 1] == '\n' then pos else LineStart(t, pos - 1)
  }

  datatype Index = Index(line: int, col: int)

  /** `_char_to_linecol`: offsets beyond the end count as the end. */
  function CharToLineCol(t: string, pos: nat): Index {
    var p := if pos < |t| then pos else |t|;
    Index(Newlines(t, p) + 1, p - LineStart(t, p))
  }

  /** `_abs_pos`: the number of characters before index `line.col`, which the widget pulls back to
      the end of its line, or of the text. */
  function AbsPos(t: string, line: nat, col: nat): nat
    requires line >= 1
  {
    var ls := Split(t);
    if line > |ls| then |t|
    else Offset(ls, line - 1) + if col < |ls[line - 1]| then col else |ls[line - 1]|
  }

  lemma {:induction false} LineColOf(ls: seq<string>, k: nat, c: nat)
    requires k < |ls| && c <= |ls[k]| && forall m :: 0 <= m < |ls| ==> OneLine(ls[m])
    ensures Offset(ls, k) + c <= |Join(ls)|
    ensures CharToLineCol(Join(ls), Offset(ls, k) + c) == Index(k + 1, c)
    decreases k, c
  {
    hide Join, Offset;
    OffsetZero(ls);
    JoinAt(ls, k, c);
    if c > 0 {
      LineColOf(ls, k, c - 1);
      JoinAt(ls, k, c - 1);
      assert ls[k][c - 1] in ls[k];
    } else if k > 0 {
      OffsetNext(ls, k - 1);
      LineColOf(ls, k - 1, |ls[k - 1]|);
      JoinAt(ls, k - 1, |ls[k - 1]|);
    }
  }

  /** The two namings of a position are inverse to each other. */
  lemma PositionRoundTrip(t: string, pos: nat)
    ensures var i := CharToLineCol(t, pos);
            && 1 <= i.line <= |Split(t)| && 0 <= i.col <= |Split(t)[i.line - 1]|
            && AbsPos(t, i.line, i.col) == if pos < |t| then pos else |t|
  {
    hide Join, Offset, Split, CharToLineCol;
    JoinSplit(t);
    var k, c := Locate(Split(t), if pos < |t| then pos else |t|);
    LineColOf(Split(t), k, c);
    CharToLineColClamps(t, pos);
  }

  lemma CharToLineColClamps(t: string, pos: nat)
    ensures CharToLineCol(t, pos) == CharToLineCol(t, if pos < |t| then pos else |t|)
  {
  }

  lemma IndexRoundTrip(t: string, line: nat, col: nat)
    requires 1 <= line <= |Split(t)| && col <= |Split(t)[line - 1]|
    ensures CharToLineCol(t, AbsPos(t, line, col)) == Index(line, col)
  {
    hide Join, Offset, Split, CharToLineCol;
    JoinSplit(t);
    LineColOf(Split(t), line - 1, col);
  }
}
