/** Replace-all over the text widget, `replace_all` of clite_ide/editor.py.

    The search ignores case: `fold` is the widget's case folding, a parameter. */
module Replace {
  import opened Wrappers

  type Fold = char -> char

  function Folded(fold: Fold, s: string): (r: string)
    ensures |r| == |s|
    ensures forall k :: 0 <= k < |s| ==> r[k] == fold(s[k])
  {
    seq(|s|, k requires 0 <= k < |s| => fold(s[k]))
  }

  /** The needle stands at offset `i`, but for case. */
  predicate OccursAt(fold: Fold, text: string, needle: string, i: nat) {
    i + |needle| <= |text| && Folded(fold, text[i..i + |needle|]) == Folded(fold, needle)
  }

  ghost predicate Occurs(fold: Fold, text: string, needle: string) {
    exists i: nat :: OccursAt(fold, text, needle, i)
  }

  /** Text.search(needle, from, nocase=1, stopindex=stop): the first match that starts in `[from, stop)`. */
  function Search(fold: Fold, text: string, needle: string, from: nat, stop: nat): (r: Option<nat>)
    ensures r.Some? ==> from <= r.value < stop && OccursAt(fold, text, needle, r.value)
    ensures forall i :: from <= i < (if r.Some? then r.value else stop) ==> !OccursAt(fold, text, needle, i)
    decreases stop - from
  {
    if from >= stop then None
    else if OccursAt(fold, text, needle, from) then Some(from)
    else Search(fold, text, needle, from + 1, stop)
  }

  /** The buffer and its insertion cursor. */
  datatype Buffer = Buffer(text: string, insert: nat)

  /** The wrapped search of one round: from the cursor to the end, then from the start to the cursor. */
  function Find(fold: Fold, b: Buffer, needle: string): (r: Option<nat>)
    ensures r.Some? ==> OccursAt(fold, b.text, needle, r.value)
    ensures r.None? && needle != "" ==> !Occurs(fold, b.text, needle)
  {
    var found := Search(fold, b.text, needle, b.insert, |b.text|);
    if found.Some? then found else Search(fold, b.text, needle, 0, b.insert)
  }

  function Substitute(b: Buffer, i: nat, needle: string, repl: string): Buffer
    requires i + |needle| <= |b.text|
  {
    Buffer(b.text[..i] + repl + b.text[i + |needle|..], i)
  }

  /** `n` rounds of the loop, None when it stops earlier. */
  function Rounds(fold: Fold, b: Buffer, needle: string, repl: string, n: nat): Option<Buffer> {
    if n == 0 then Some(b)
    else
      match Rounds(fold, b, needle, repl, n - 1)
      case None => None
      case Some(m) =>
        var found := Find(fold, m, needle);
        if found.Some? then Some(Substitute(m, found.value, needle, repl)) else None
  }

  // ---------------------------------------------------------------- why it ends

  /** Some folded character occurs more often in the needle than in its replacement. */
  ghost predicate Shrinks(fold: Fold, needle: string, repl: string) {
    !(multiset(Folded(fold, needle)) <= multiset(Folded(fold, repl)))
  }

  function Count(fold: Fold, s: string, c: char): nat {
    multiset(Folded(fold, s))[c]
  }

  lemma CountConcat(fold: Fold, s: string, t: string, c: char)
    ensures Count(fold, s + t, c) == Count(fold, s, c) + Count(fold, t, c)
  {
    assert Folded(fold, s + t) == Folded(fold, s) + Folded(fold, t);
  }

  /** One substitution changes the count of a character by what the two strings say. */
  lemma SubstituteCounts(fold: Fold, b: Buffer, i: nat, needle: string, repl: string)
    requires OccursAt(fold, b.text, needle, i)
    ensures forall c :: Count(fold, Substitute(b, i, needle, repl).text, c) + Count(fold, needle, c)
                        == Count(fold, b.text, c) + Count(fold, repl, c)
  {
    hide Count;
    var pre, mid, post := b.text[..i], b.text[i..i + |needle|], b.text[i + |needle|..];
    assert b.text == pre + mid + post;
    forall c
      ensures Count(fold, Substitute(b, i, needle, repl).text, c) + Count(fold, needle, c)
              == Count(fold, b.text, c) + Count(fold, repl, c)
    {
      CountConcat(fold, pre, mid, c);
      CountConcat(fold, pre + mid, post, c);
      CountConcat(fold, pre, repl, c);
      CountConcat(fold, pre + repl, post, c);
      SameCount(fold, mid, needle, c);
    }
  }

  lemma SameCount(fold: Fold, s: string, t: string, c: char)
    requires Folded(fold, s) == Folded(fold, t)
    ensures Count(fold, s, c) == Count(fold, t, c)
  {
  }

  lemma WitnessChar(fold: Fold, needle: string, repl: string) returns (c: char)
    requires Shrinks(fold, needle, repl)
    ensures Count(fold, repl, c) < Count(fold, needle, c)
  {
    c :| multiset(Folded(fold, needle))[c] > multiset(Folded(fold, repl))[c];
  }

  /** A replacement shorter than the needle qualifies. */
  lemma ShorterShrinks(fold: Fold, needle: string, repl: string)
    requires |repl| < |needle|
    ensures Shrinks(fold, needle, repl)
  {
    SubsetSize(multiset(Folded(fold, needle)), multiset(Folded(fold, repl)));
  }

  lemma SubsetSize(m: multiset<char>, n: multiset<char>)
    ensures m <= n ==> |m| <= |n|
  {
    if m <= n { assert n == m + (n - m); }
  }

  /** So does one that shares no character with it, case aside. */
  lemma DisjointShrinks(fold: Fold, needle: string, repl: string)
    requires needle != "" && forall c :: c in Folded(fold, needle) ==> c !in Folded(fold, repl)
    ensures Shrinks(fold, needle, repl)
  {
    var c := Folded(fold, needle)[0];
    assert c in Folded(fold, needle) && c !in Folded(fold, repl);
    assert c in multiset(Folded(fold, needle)) && c !in multiset(Folded(fold, repl));
  }

  /** The loop stops after `n` rounds. */
  ghost predicate StopsAfter(fold: Fold, b: Buffer, needle: string, repl: string, n: nat) {
    var m := Rounds(fold, b, needle, repl, n);
    m.Some? && Find(fold, m.value, needle).None?
  }

  ghost predicate Stops(fold: Fold, b: Buffer, needle: string, repl: string) {
    exists n: nat :: StopsAfter(fold, b, needle, repl, n)
  }

  lemma {:induction false} RoundsShift(fold: Fold, b: Buffer, needle: string, repl: string, n: nat)
    requires Find(fold, b, needle).Some?
    ensures Rounds(fold, b, needle, repl, n + 1)
            == Rounds(fold, Substitute(b, Find(fold, b, needle).value, needle, repl), needle, repl, n)
  {
    hide Find, Substitute;
    if n > 0 {
      RoundsShift(fold, b, needle, repl, n - 1);
    } else {
      assert Rounds(fold, b, needle, repl, 0) == Some(b);
    }
  }

  /** Under that condition the loop stops, whatever the text and wherever the cursor. */
  lemma {:induction false} ShrinksStops(fold: Fold, b: Buffer, needle: string, repl: string, c: char)
    requires Count(fold, repl, c) < Count(fold, needle, c)
    ensures Stops(fold, b, needle, repl)
    decreases Count(fold, b.text, c)
  {
    hide Rounds, Find, Substitute, Count;
    RoundsStart(fold, b, needle, repl);
    if Find(fold, b, needle).None? {
      assert StopsAfter(fold, b, needle, repl, 0);
    } else {
      var i := Find(fold, b, needle).value;
      var m := Substitute(b, i, needle, repl);
      SubstituteCounts(fold, b, i, needle, repl);
      ShrinksStops(fold, m, needle, repl, c);
      var n: nat :| StopsAfter(fold, m, needle, repl, n);
      RoundsShift(fold, b, needle, repl, n);
      assert StopsAfter(fold, b, needle, repl, n + 1);
    }
  }

  /** Each round uses up one more of every character the needle has more of. */
  lemma {:induction false} RoundsCount(fold: Fold, b: Buffer, needle: string, repl: string, n: nat, c: char)
    requires Rounds(fold, b, needle, repl, n).Some? && Count(fold, repl, c) < Count(fold, needle, c)
    ensures n + Count(fold, Rounds(fold, b, needle, repl, n).value.text, c) <= Count(fold, b.text, c)
  {
    hide Find, Substitute, Count;
    if n > 0 {
      RoundsCount(fold, b, needle, repl, n - 1, c);
      var m := Rounds(fold, b, needle, repl, n - 1).value;
      SubstituteCounts(fold, m, Find(fold, m, needle).value, needle, repl);
    }
  }

  // ---------------------------------------------------------------- the loop

  class TextWidget {
    var buffer: Buffer
    const fold: Fold

    constructor (fold: Fold, text: string)
      ensures this.fold == fold && buffer == Buffer(text, 0)
    {
      this.fold := fold;
      buffer := Buffer(text, 0);
    }

    /** Nothing is left to be found afterwards. The count is at most the number the text has of any
        character that the needle has more of than the replacement. */
    method ReplaceAll(needle: string, repl: string) returns (count: nat)
      requires needle == "" || Stops(fold, buffer, needle, repl)
      modifies this`buffer
      ensures needle == "" ==> count == 0 && buffer == old(buffer)
      ensures Rounds(fold, old(buffer), needle, repl, count) == Some(buffer)
      ensures needle != "" ==> !Occurs(fold, buffer.text, needle)
      ensures forall c :: Count(fold, repl, c) < Count(fold, needle, c) ==> count <= Count(fold, old(buffer).text, c)
      ensures Shrinks(fold, needle, repl) ==> count <= |old(buffer).text|
    {
      hide Rounds, Count, Find, Search, Occurs, Substitute, Shrinks;
      count := 0;
      RoundsStart(fold, buffer, needle, repl);
      if needle == "" {
        NoneFewer(fold, repl);
        return;
      }
      ghost var last: nat :| StopsAfter(fold, buffer, needle, repl, last);
      while true
        invariant Rounds(fold, old(buffer), needle, repl, count) == Some(buffer) && count <= last
        decreases last - count
      {
        var found := Search(fold, buffer.text, needle, buffer.insert, |buffer.text|);
        if found == None {
          found := Search(fold, buffer.text, needle, 0, buffer.insert);
        }
        IsFind(fold, buffer, needle);
        assert found == Find(fold, buffer, needle);
        if found == None { break; }
        RoundsNext(fold, old(buffer), needle, repl, count, buffer);
        buffer := Substitute(buffer, found.value, needle, repl);
        count := count + 1;
      }
      CountOf(fold, old(buffer), needle, repl, count);
    }
  }

  lemma CountOf(fold: Fold, b: Buffer, needle: string, repl: string, n: nat)
    requires Rounds(fold, b, needle, repl, n).Some?
    ensures forall c :: Count(fold, repl, c) < Count(fold, needle, c) ==> n <= Count(fold, b.text, c)
    ensures Shrinks(fold, needle, repl) ==> n <= |b.text|
  {
    hide Rounds, Count, Shrinks;
    forall c | Count(fold, repl, c) < Count(fold, needle, c)
      ensures n <= Count(fold, b.text, c)
    {
      RoundsCount(fold, b, needle, repl, n, c);
    }
    if Shrinks(fold, needle, repl) {
      var c := WitnessChar(fold, needle, repl);
      CountBounded(fold, b.text, c);
    }
  }

  lemma NoneFewer(fold: Fold, repl: string)
    ensures forall c :: Count(fold, "", c) <= Count(fold, repl, c)
    ensures !Shrinks(fold, "", repl)
  {
  }

  lemma RoundsStart(fold: Fold, b: Buffer, needle: string, repl: string)
    ensures Rounds(fold, b, needle, repl, 0) == Some(b)
  {
  }

  lemma RoundsNext(fold: Fold, b: Buffer, needle: string, repl: string, n: nat, m: Buffer)
    requires Rounds(fold, b, needle, repl, n) == Some(m) && Find(fold, m, needle).Some?
    ensures Rounds(fold, b, needle, repl, n + 1) == Some(Substitute(m, Find(fold, m, needle).value, needle, repl))
  {
  }

  lemma IsFind(fold: Fold, b: Buffer, needle: string)
    ensures Find(fold, b, needle) == var found := Search(fold, b.text, needle, b.insert, |b.text|);
                                     if found.Some? then found else Search(fold, b.text, needle, 0, b.insert)
  {
  }

  lemma CountBounded(fold: Fold, s: string, c: char)
    ensures Count(fold, s, c) <= |s|
  {
    var m := multiset(Folded(fold, s));
    assert m == m[c := 0] + multiset{}[c := m[c]];
  }

  // ---------------------------------------------------------------- and when it does not

  /** A replacement that contains the needle keeps the loop going for ever once there is a match. */
  lemma {:induction false} ContainedNeverEnds(fold: Fold, b: Buffer, needle: string, repl: string, n: nat)
    requires needle != "" && Occurs(fold, b.text, needle) && Occurs(fold, repl, needle)
    ensures Rounds(fold, b, needle, repl, n).Some?
    ensures Occurs(fold, Rounds(fold, b, needle, repl, n).value.text, needle)
  {
    hide Occurs, Find, Substitute;
    if n > 0 {
      ContainedNeverEnds(fold, b, needle, repl, n - 1);
      ContainedStays(fold, Rounds(fold, b, needle, repl, n - 1).value, needle, repl);
    }
  }

  /** So it stops exactly when there is no match to begin with. */
  lemma ContainedStops(fold: Fold, b: Buffer, needle: string, repl: string)
    requires needle != "" && Occurs(fold, repl, needle)
    ensures Stops(fold, b, needle, repl) <==> !Occurs(fold, b.text, needle)
  {
    hide Rounds, Find;
    if Occurs(fold, b.text, needle) {
      forall n: nat
        ensures !StopsAfter(fold, b, needle, repl, n)
      {
        ContainedNeverEnds(fold, b, needle, repl, n);
        FindsAny(fold, Rounds(fold, b, needle, repl, n).value, needle);
      }
    } else {
      RoundsStart(fold, b, needle, repl);
      FindsAny(fold, b, needle);
      assert StopsAfter(fold, b, needle, repl, 0);
    }
  }

  lemma FindsAny(fold: Fold, b: Buffer, needle: string)
    requires needle != ""
    ensures Find(fold, b, needle).Some? <==> Occurs(fold, b.text, needle)
  {
  }

  lemma SliceOfMiddle(pre: string, mid: string, post: string, j: nat, n: nat)
    requires j + n <= |mid|
    ensures (pre + mid + post)[|pre| + j..|pre| + j + n] == mid[j..j + n]
  {
  }

  lemma ContainedStays(fold: Fold, m: Buffer, needle: string, repl: string)
    requires needle != "" && Occurs(fold, m.text, needle) && Occurs(fold, repl, needle)
    ensures Find(fold, m, needle).Some?
    ensures Occurs(fold, Substitute(m, Find(fold, m, needle).value, needle, repl).text, needle)
  {
    hide Folded, Search;
    FindsAny(fold, m, needle);
    hide Find;
    var i := Find(fold, m, needle).value;
    var j: nat :| OccursAt(fold, repl, needle, j);
    var text := Substitute(m, i, needle, repl).text;
    SliceOfMiddle(m.text[..i], repl, m.text[i + |needle|..], j, |needle|);
    assert OccursAt(fold, text, needle, i + j);
  }

  /** The two conditions exclude each other. */
  lemma ContainedDoesNotShrink(fold: Fold, needle: string, repl: string)
    requires Occurs(fold, repl, needle)
    ensures !Shrinks(fold, needle, repl)
  {
    var j: nat :| OccursAt(fold, repl, needle, j);
    var pre, mid, post := repl[..j], repl[j..j + |needle|], repl[j + |needle|..];
    assert repl == pre + mid + post;
    assert Folded(fold, repl) == Folded(fold, pre) + Folded(fold, needle) + Folded(fold, post);
  }

  // ---------------------------------------------------------------- replacements no longer than the needle

  const BASE := 0x110000

  /** A folded character as a digit, the digits counted up or down. */
  function Digit(fold: Fold, c: char, down: bool): (d: nat)
    ensures d < BASE
  {
    var v := fold(c) as int;
    if down then BASE - 1 - v else v
  }

  /** The folded text read as a number. */
  function Number(fold: Fold, s: string, down: bool): nat {
    if s == "" then 0 else Number(fold, s[..|s| - 1], down) * BASE + Digit(fold, s[|s| - 1], down)
  }

  lemma NumberSnoc(fold: Fold, s: string, c: char, down: bool)
    ensures Number(fold, s + [c], down) == Number(fold, s, down) * BASE + Digit(fold, c, down)
  {
    assert (s + [c])[..|s|] == s;
  }

  /** A smaller beginning makes a smaller number, whatever follows. */
  lemma {:induction false} NumberMonotone(fold: Fold, u: string, v: string, p: string, q: string, down: bool)
    requires |p| == |q| && Number(fold, u, down) < Number(fold, v, down)
    ensures Number(fold, u + p, down) < Number(fold, v + q, down)
    decreases |p|
  {
    hide Number, Digit;
    if p == "" {
      assert u + p == u && v + q == v;
    } else {
      var p', q', c, d := p[..|p| - 1], q[..|q| - 1], p[|p| - 1], q[|q| - 1];
      NumberMonotone(fold, u, v, p', q', down);
      assert u + p == (u + p') + [c] && v + q == (v + q') + [d];
      NumberSnoc(fold, u + p', c, down);
      NumberSnoc(fold, v + q', d, down);
    }
  }

  /** Replacing a piece by one of the same length with a smaller digit where they first differ. */
  lemma FirstDifference(fold: Fold, pre: string, a: string, b: string, post: string, f: nat, down: bool)
    requires f < |a| == |b| && Folded(fold, a[..f]) == Folded(fold, b[..f])
    requires Digit(fold, a[f], down) < Digit(fold, b[f], down)
    ensures Number(fold, pre + a + post, down) < Number(fold, pre + b + post, down)
  {
    hide Number, Digit;
    var u, v := pre + a[..f], pre + b[..f];
    SameNumber(fold, u, v, down);
    NumberSnoc(fold, u, a[f], down);
    NumberSnoc(fold, v, b[f], down);
    NumberMonotone(fold, u + [a[f]], v + [b[f]], a[f + 1..] + post, b[f + 1..] + post, down);
    assert pre + a + post == (u + [a[f]]) + (a[f + 1..] + post);
    assert pre + b + post == (v + [b[f]]) + (b[f + 1..] + post);
  }

  lemma {:induction false} SameNumber(fold: Fold, u: string, v: string, down: bool)
    requires |u| == |v| && forall i :: 0 <= i < |u| ==> fold(u[i]) == fold(v[i])
    ensures Number(fold, u, down) == Number(fold, v, down)
  {
    if u != "" { SameNumber(fold, u[..|u| - 1], v[..|v| - 1], down); }
  }

  /** Where two pieces of one length first differ, and the direction in which `repl` is the smaller. */
  lemma Differ(fold: Fold, needle: string, repl: string) returns (f: nat, down: bool)
    requires |needle| == |repl| && Folded(fold, needle) != Folded(fold, repl)
    ensures f < |repl| && Folded(fold, repl[..f]) == Folded(fold, needle[..f])
    ensures Digit(fold, repl[f], down) < Digit(fold, needle[f], down)
  {
    f := 0;
    assert exists i :: 0 <= i < |repl| && fold(repl[i]) != fold(needle[i]);
    while fold(repl[f]) == fold(needle[f])
      invariant f < |repl| && forall i :: 0 <= i < f ==> fold(repl[i]) == fold(needle[i])
      invariant exists i :: f <= i < |repl| && fold(repl[i]) != fold(needle[i])
      decreases |repl| - f
    {
      f := f + 1;
    }
    down := fold(repl[f]) as int > fold(needle[f]) as int;
    assert fold(repl[f]) as int != fold(needle[f]) as int;
  }

  /** With pieces of one length the number goes one way, round after round. */
  lemma {:induction false} SameLengthStops(fold: Fold, b: Buffer, needle: string, repl: string, f: nat, down: bool)
    requires f < |repl| == |needle| && Folded(fold, repl[..f]) == Folded(fold, needle[..f])
    requires Digit(fold, repl[f], down) < Digit(fold, needle[f], down)
    ensures Stops(fold, b, needle, repl)
    decreases Number(fold, b.text, down)
  {
    hide Rounds, Find, Number, Digit;
    RoundsStart(fold, b, needle, repl);
    if Find(fold, b, needle).None? {
      assert StopsAfter(fold, b, needle, repl, 0);
    } else {
      var i := Find(fold, b, needle).value;
      var m := Substitute(b, i, needle, repl);
      SubstituteLowers(fold, b, i, needle, repl, f, down);
      SameLengthStops(fold, m, needle, repl, f, down);
      var n: nat :| StopsAfter(fold, m, needle, repl, n);
      RoundsShift(fold, b, needle, repl, n);
      assert StopsAfter(fold, b, needle, repl, n + 1);
    }
  }

  lemma SubstituteLowers(fold: Fold, b: Buffer, i: nat, needle: string, repl: string, f: nat, down: bool)
    requires f < |repl| == |needle| && Folded(fold, repl[..f]) == Folded(fold, needle[..f])
    requires Digit(fold, repl[f], down) < Digit(fold, needle[f], down) && OccursAt(fold, b.text, needle, i)
    ensures Number(fold, Substitute(b, i, needle, repl).text, down) < Number(fold, b.text, down)
  {
    hide Number;
    var pre, mid, post := b.text[..i], b.text[i..i + |needle|], b.text[i + |needle|..];
    assert b.text == pre + mid + post;
    assert forall j :: 0 <= j < |needle| ==> fold(mid[j]) == Folded(fold, mid)[j] == fold(needle[j]);
    assert Folded(fold, mid[..f]) == Folded(fold, needle[..f]);
    FirstDifference(fold, pre, repl, mid, post, f, down);
  }

  /** With a replacement no longer than the needle the loop stops exactly when the two differ, case
      aside, or there is no match. */
  lemma NoLongerStops(fold: Fold, b: Buffer, needle: string, repl: string)
    requires needle != "" && |repl| <= |needle|
    ensures Stops(fold, b, needle, repl) <==> Folded(fold, repl) != Folded(fold, needle) || !Occurs(fold, b.text, needle)
  {
    hide Stops, Digit, Shrinks, Count;
    if |repl| < |needle| {
      ShorterShrinks(fold, needle, repl);
      var c := WitnessChar(fold, needle, repl);
      ShrinksStops(fold, b, needle, repl, c);
    } else if Folded(fold, repl) == Folded(fold, needle) {
      assert repl[0..0 + |needle|] == repl;
      assert OccursAt(fold, repl, needle, 0);
      ContainedStops(fold, b, needle, repl);
    } else {
      var f, down := Differ(fold, needle, repl);
      SameLengthStops(fold, b, needle, repl, f, down);
    }
  }

  // ---------------------------------------------------------------- what becomes of the text

  /** One replacement leaves everything around the match in place, and the cursor before what it put there. */
  lemma SubstituteKeeps(b: Buffer, i: nat, needle: string, repl: string)
    requires i + |needle| <= |b.text|
    ensures var m := Substitute(b, i, needle, repl);
            && |m.text| == |b.text| - |needle| + |repl| && m.insert == i
            && m.text[..i] == b.text[..i] && m.text[i..i + |repl|] == repl
            && m.text[i + |repl|..] == b.text[i + |needle|..]
  {
  }

  /** The usual result: the matches from the left, none overlapping the one before, each replaced. */
  function Replaced(fold: Fold, s: string, needle: string, repl: string): string
    requires needle != ""
    decreases |s|
  {
    var f := Search(fold, s, needle, 0, |s|);
    if f.None? then s else s[..f.value] + repl + Replaced(fold, s[f.value + |needle|..], needle, repl)
  }

  /** The replacement is not empty and shares no character with the needle, case aside. */
  ghost predicate Apart(fold: Fold, needle: string, repl: string) {
    repl != "" && needle != "" && forall c :: c in Folded(fold, needle) ==> c !in Folded(fold, repl)
  }

  lemma CharsOfMatch(fold: Fold, text: string, needle: string, i: nat, j: nat)
    requires i <= j < i + |needle| && j < |text|
    ensures OccursAt(fold, text, needle, i) ==> fold(text[j]) in Folded(fold, needle)
  {
    if OccursAt(fold, text, needle, i) {
      assert Folded(fold, text[i..i + |needle|])[j - i] == fold(text[j]);
    }
  }

  lemma CharsFolded(fold: Fold, s: string, c: char)
    requires c in s
    ensures fold(c) in Folded(fold, s)
  {
    var k :| 0 <= k < |s| && s[k] == c;
    assert Folded(fold, s)[k] == fold(c);
  }

  lemma NotInside(fold: Fold, text: string, needle: string, repl: string, i: nat, j: nat)
    requires Apart(fold, needle, repl) && i <= j < i + |needle| && j < |text| && text[j] in repl
    ensures !OccursAt(fold, text, needle, i)
  {
    hide OccursAt;
    CharsOfMatch(fold, text, needle, i, j);
    CharsFolded(fold, repl, text[j]);
  }

  lemma OccursInPart(fold: Fold, a: string, b: string, c: string, needle: string, i: nat)
    requires i + |needle| <= |b|
    ensures OccursAt(fold, a + b + c, needle, |a| + i) <==> OccursAt(fold, b, needle, i)
  {
    assert (a + b + c)[|a| + i..|a| + i + |needle|] == b[i..i + |needle|];
  }

  /** Where the loop stands: `done` is finished and ends in a replacement, with the cursor before it. */
  ghost predicate Halfway(fold: Fold, b: Buffer, needle: string, repl: string, done: string, rest: string) {
    && b.text == done + rest && Apart(fold, needle, repl)
    && (if done == "" then b.insert == 0
        else |repl| <= |done| && done[|done| - |repl|..] == repl && b.insert == |done| - |repl|)
    && forall i :: 0 <= i < |done| ==> !OccursAt(fold, b.text, needle, i)
  }

  /** The next match is the first of the rest. */
  lemma NextMatch(fold: Fold, b: Buffer, needle: string, repl: string, done: string, rest: string)
    requires Halfway(fold, b, needle, repl, done, rest)
    ensures var f := Search(fold, rest, needle, 0, |rest|);
            Find(fold, b, needle) == if f.None? then None else Some(|done| + f.value)
  {
    hide Find, OccursAt, Apart;
    var f := Search(fold, rest, needle, 0, |rest|);
    var m := |done| + (if f.Some? then f.value else |rest|);
    FirstInRest(fold, b.text, needle, done, rest, m, f);
    assert needle != "" by { ApartNeedle(fold, needle, repl); }
    hide Search;
    FindFirst(fold, b, needle, m, f.Some?);
  }

  lemma ApartNeedle(fold: Fold, needle: string, repl: string)
    requires Apart(fold, needle, repl)
    ensures needle != "" && repl != ""
  {
  }

  lemma FirstInRest(fold: Fold, text: string, needle: string, done: string, rest: string, m: nat, f: Option<nat>)
    requires text == done + rest && f == Search(fold, rest, needle, 0, |rest|)
    requires m == |done| + (if f.Some? then f.value else |rest|)
    requires forall i :: 0 <= i < |done| ==> !OccursAt(fold, text, needle, i)
    ensures forall i :: 0 <= i < m ==> !OccursAt(fold, text, needle, i)
    ensures f.Some? ==> OccursAt(fold, text, needle, m)
  {
    hide OccursAt;
    if f.Some? { InRest(fold, text, needle, done, rest, m); }
    forall i | 0 <= i < m
      ensures !OccursAt(fold, text, needle, i)
    {
      if i >= |done| { InRest(fold, text, needle, done, rest, i); }
    }
  }

  lemma InRest(fold: Fold, text: string, needle: string, done: string, rest: string, i: nat)
    requires text == done + rest && |done| <= i
    ensures OccursAt(fold, text, needle, i) <==> OccursAt(fold, rest, needle, i - |done|)
  {
    if i + |needle| <= |text| {
      OccursInPart(fold, done, rest, "", needle, i - |done|);
      assert done + rest + "" == text;
    }
  }

  lemma FindFirst(fold: Fold, b: Buffer, needle: string, m: nat, found: bool)
    requires b.insert <= m <= |b.text| && needle != "" && (found <==> m < |b.text|)
    requires forall i :: 0 <= i < m ==> !OccursAt(fold, b.text, needle, i)
    requires found ==> OccursAt(fold, b.text, needle, m)
    ensures Find(fold, b, needle) == if found then Some(m) else None
  {
    hide OccursAt;
  }

  lemma Pieces(done: string, rest: string, f: nat, n: nat)
    requires f + n <= |rest|
    ensures (done + rest)[..|done| + f] == done + rest[..f] && (done + rest)[|done| + f + n..] == rest[f + n..]
  {
  }

  /** Replacing it moves the border on. */
  lemma MovesOn(fold: Fold, b: Buffer, needle: string, repl: string, done: string, rest: string, f: nat)
    requires Halfway(fold, b, needle, repl, done, rest)
    requires Search(fold, rest, needle, 0, |rest|) == Some(f)
    ensures f + |needle| <= |rest| && |done| + f + |needle| <= |b.text|
    ensures Halfway(fold, Substitute(b, |done| + f, needle, repl), needle, repl,
                    done + rest[..f] + repl, rest[f + |needle|..])
  {
    MatchFits(fold, rest, needle, f);
    hide Search, OccursAt;
    Pieces(done, rest, f, |needle|);
    ApartNeedle(fold, needle, repl);
    var u, v := rest[..f], rest[f + |needle|..];
    var text := Substitute(b, |done| + f, needle, repl).text;
    assert text == (done + u + repl) + v;
    assert (done + u + repl)[|done + u|..] == repl;
    forall i | 0 <= i < |done + u + repl|
      ensures !OccursAt(fold, text, needle, i)
    {
      StillNone(fold, b, text, needle, repl, done, rest, f, i);
    }
    hide Apart;
  }

  lemma MatchFits(fold: Fold, s: string, needle: string, f: nat)
    requires Search(fold, s, needle, 0, |s|) == Some(f)
    ensures f + |needle| <= |s|
  {
  }

  lemma StillNone(fold: Fold, b: Buffer, text: string, needle: string, repl: string, done: string, rest: string, f: nat, i: nat)
    requires Halfway(fold, b, needle, repl, done, rest)
    requires Search(fold, rest, needle, 0, |rest|) == Some(f) && f + |needle| <= |rest|
    requires text == done + rest[..f] + repl + rest[f + |needle|..] && i < |done| + f + |repl|
    ensures !OccursAt(fold, text, needle, i)
  {
    hide OccursAt, Search, Apart;
    var u, v := rest[..f], rest[f + |needle|..];
    var n := |done| + f;
    ApartNeedle(fold, needle, repl);
    CharAt(done + u, repl, v, if i >= n then i - n else 0);
    if i >= n {
      NotInside(fold, text, needle, repl, i, i);
    } else if i + |needle| > n {
      NotInside(fold, text, needle, repl, i, n);
    } else {
      Pieces(done, rest, f, |needle|);
      SameBefore(fold, b.text, text, needle, n, i);
      if i >= |done| { InRest(fold, b.text, needle, done, rest, i); }
    }
  }

  lemma CharAt(a: string, b: string, c: string, k: nat)
    requires k < |b|
    ensures (a + b + c)[|a| + k] == b[k] && (a + b + c)[..|a|] == a
  {
  }

  lemma SameBefore(fold: Fold, s: string, t: string, needle: string, n: nat, i: nat)
    requires n <= |s| && n <= |t| && s[..n] == t[..n] && i + |needle| <= n
    ensures OccursAt(fold, s, needle, i) == OccursAt(fold, t, needle, i)
  {
    assert s[i..i + |needle|] == s[..n][i..i + |needle|];
    assert t[i..i + |needle|] == t[..n][i..i + |needle|];
  }

  lemma {:induction false} FinishesAs(fold: Fold, b: Buffer, needle: string, repl: string, done: string, rest: string) returns (n: nat)
    requires Halfway(fold, b, needle, repl, done, rest)
    ensures StopsAfter(fold, b, needle, repl, n)
    ensures Rounds(fold, b, needle, repl, n).value.text == done + Replaced(fold, rest, needle, repl)
    decreases |rest|
  {
    hide Find, Rounds, OccursAt, Search, Substitute, Replaced;
    NextMatch(fold, b, needle, repl, done, rest);
    ApartNeedle(fold, needle, repl);
    ReplacedUnfolds(fold, rest, needle, repl);
    var f := Search(fold, rest, needle, 0, |rest|);
    if f.None? {
      n := 0;
      RoundsStart(fold, b, needle, repl);
    } else {
      MovesOn(fold, b, needle, repl, done, rest, f.value);
      var m := Substitute(b, |done| + f.value, needle, repl);
      var u, v := rest[..f.value], rest[f.value + |needle|..];
      hide Halfway, Apart;
      n := FinishesAs(fold, m, needle, repl, done + u + repl, v);
      RoundsShift(fold, b, needle, repl, n);
      n := n + 1;
      Reassociate(done, u, repl, Replaced(fold, v, needle, repl));
    }
  }

  lemma ReplacedUnfolds(fold: Fold, s: string, needle: string, repl: string)
    requires needle != ""
    ensures var f := Search(fold, s, needle, 0, |s|);
            if f.None? then Replaced(fold, s, needle, repl) == s
            else f.value + |needle| <= |s|
                 && Replaced(fold, s, needle, repl) == s[..f.value] + repl + Replaced(fold, s[f.value + |needle|..], needle, repl)
  {
  }

  lemma Reassociate(a: string, b: string, c: string, d: string)
    ensures (a + b + c) + d == a + (b + c + d)
  {
  }

  /** No more rounds are possible once the loop has stopped. */
  lemma {:induction false} StopsOnce(fold: Fold, b: Buffer, needle: string, repl: string, n: nat, m: nat)
    requires StopsAfter(fold, b, needle, repl, n) && n < m
    ensures Rounds(fold, b, needle, repl, m).None?
    decreases m
  {
    hide Find, Substitute;
    if n + 1 < m { StopsOnce(fold, b, needle, repl, n, m - 1); }
  }

  /** From the start of the text, with a replacement that is apart from the needle, the loop does what is
      usually meant by replacing all matches. */
  lemma ReplacesAll(fold: Fold, text: string, needle: string, repl: string, n: nat)
    requires Apart(fold, needle, repl) && StopsAfter(fold, Buffer(text, 0), needle, repl, n)
    ensures Rounds(fold, Buffer(text, 0), needle, repl, n).value.text == Replaced(fold, text, needle, repl)
  {
    hide Rounds, Find;
    var b := Buffer(text, 0);
    assert "" + text == text && Halfway(fold, b, needle, repl, "", text);
    var m := FinishesAs(fold, b, needle, repl, "", text);
    if n < m { StopsOnce(fold, b, needle, repl, n, m); }
    if m < n { StopsOnce(fold, b, needle, repl, m, n); }
    assert "" + Replaced(fold, text, needle, repl) == Replaced(fold, text, needle, repl);
  }
}
