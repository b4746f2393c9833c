/** Code folding in clite_ide/editor.py: which lines can be folded (`_update_folds_cache`), and what
    folding hides (`toggle_fold`, `unfold_all`). */
module Folds {
  import opened Lines
  import Brackets

  // ---------------------------------------------------------------- the fold map

  ghost predicate Pair(t: string, p: nat, q: nat) {
    Brackets.Matched(t, '{', '}', p, q)
  }

  /** Lines are counted from 1. */
  function LineOf(t: string, pos: nat): nat
    requires pos <= |t|
  {
    Newlines(t, pos) + 1
  }

  /** A matched pair of braces on different lines. */
  ghost predicate MultiLine(t: string, p: nat, q: nat) {
    p < q < |t| && Pair(t, p, q) && LineOf(t, p) < LineOf(t, q)
  }

  function Stack(t: string, i: nat): (s: seq<nat>)
    requires i <= |t|
    ensures forall j :: 0 <= j < |s| ==> s[j] < i
  {
    Brackets.StackAt(t, '{', '}', i)
  }

  /** What looking at position `j` does to the map: the first pop of a line's brace decides. */
  function Look(t: string, j: nat, folds: map<nat, nat>): map<nat, nat>
    requires j < |t|
  {
    var s := Stack(t, j);
    if t[j] == '}' && s != [] then
      var o, idx := LineOf(t, s[|s| - 1]), LineOf(t, j);
      if idx - o >= 1 && o !in folds then folds[o := idx] else folds
    else folds
  }

  /** The fold map when the scan is about to look at position `i`. */
  function FoldsAt(t: string, i: nat): map<nat, nat>
    requires i <= |t|
  {
    if i == 0 then map[] else Look(t, i - 1, FoldsAt(t, i - 1))
  }

  /** `(p, q)` is the multi-line pair opened on line `header` that is closed first, on line `close`. */
  ghost predicate FoldOf(t: string, i: nat, header: nat, close: nat, p: nat, q: nat) {
    && MultiLine(t, p, q) && q < i && LineOf(t, p) == header && LineOf(t, q) == close
    && forall r: nat, s: nat :: MultiLine(t, r, s) && s < i && LineOf(t, r) == header ==> q <= s
  }

  /** What the map holds after the positions before `i`. */
  ghost predicate Faithful(t: string, i: nat, m: map<nat, nat>) {
    && (forall h :: h in m ==> exists p: nat, q: nat :: FoldOf(t, i, h, m[h], p, q))
    && (forall p: nat, q: nat :: MultiLine(t, p, q) && q < i ==> LineOf(t, p) in m)
  }

  lemma {:induction false} FoldsMeaning(t: string, i: nat)
    requires i <= |t|
    ensures Faithful(t, i, FoldsAt(t, i))
  {
    if i > 0 {
      hide Look, Faithful;
      FoldsMeaning(t, i - 1);
      LookKeeps(t, i - 1, FoldsAt(t, i - 1));
    }
  }

  lemma LookKeeps(t: string, j: nat, m: map<nat, nat>)
    requires j < |t| && Faithful(t, j, m)
    ensures Faithful(t, j + 1, Look(t, j, m))
  {
    LookAdds(t, j, m);
    hide Look, LineOf, Pair;
    var m', i := Look(t, j, m), j + 1;
    forall h | h in m'
      ensures exists p: nat, q: nat :: FoldOf(t, i, h, m'[h], p, q)
    {
      if h in m {
        var p: nat, q: nat :| FoldOf(t, j, h, m[h], p, q);
        assert FoldOf(t, i, h, m'[h], p, q);
      } else {
        var p: nat :| MultiLine(t, p, j) && LineOf(t, p) == h;
        assert FoldOf(t, i, h, m'[h], p, j);
      }
    }
  }

  /** One look adds at most one entry, for the pair it closes. */
  lemma LookAdds(t: string, j: nat, m: map<nat, nat>)
    requires j < |t|
    ensures var m' := Look(t, j, m);
            && (forall h :: h in m ==> h in m' && m'[h] == m[h])
            && (forall h :: h in m' && h !in m ==>
                  m'[h] == LineOf(t, j) && exists p: nat :: MultiLine(t, p, j) && LineOf(t, p) == h)
            && (forall p: nat :: MultiLine(t, p, j) ==> LineOf(t, p) in m')
  {
    hide Stack, LineOf;
    if t[j] == '}' {
      forall p: nat
        ensures Stack(t, j) != [] && Stack(t, j)[|Stack(t, j)| - 1] == p <==> Pair(t, p, j)
      {
        PopsPair(t, j, p);
      }
    }
  }

  lemma PopsPair(t: string, j: nat, p: nat)
    requires j < |t| && t[j] == '}'
    ensures Stack(t, j) != [] && Stack(t, j)[|Stack(t, j)| - 1] == p <==> Pair(t, p, j)
  {
    Brackets.StackPopsMatch(t, '{', '}', p, j);
  }

  /** Every entry is a real pair, every line that opens a multi-line pair is a key, and two folds are
      nested or follow one another. */
  lemma FoldsLaminar(t: string)
    ensures var m := FoldsAt(t, |t|);
            && (forall h :: h in m ==> h < m[h] && exists p: nat, q: nat :: MultiLine(t, p, q) && LineOf(t, p) == h && LineOf(t, q) == m[h])
            && (forall p: nat, q: nat :: MultiLine(t, p, q) ==> LineOf(t, p) in m)
            && (forall g, h :: g in m && h in m && g < h ==> m[g] <= h || m[h] <= m[g])
  {
    FoldsMeaning(t, |t|);
    hide FoldsAt, LineOf, Pair;
    var m := FoldsAt(t, |t|);
    forall h | h in m
      ensures h < m[h] && exists p: nat, q: nat :: MultiLine(t, p, q) && LineOf(t, p) == h && LineOf(t, q) == m[h]
    {
      var p: nat, q: nat :| FoldOf(t, |t|, h, m[h], p, q);
    }
    forall g, h | g in m && h in m && g < h
      ensures m[g] <= h || m[h] <= m[g]
    {
      var p: nat, q: nat :| FoldOf(t, |t|, g, m[g], p, q);
      var r: nat, s: nat :| FoldOf(t, |t|, h, m[h], r, s);
      Laminar(t, p, q, r, s);
    }
  }

  lemma Laminar(t: string, p: nat, q: nat, r: nat, s: nat)
    requires Pair(t, p, q) && Pair(t, r, s) && LineOf(t, p) < LineOf(t, r)
    ensures LineOf(t, q) <= LineOf(t, r) || LineOf(t, s) <= LineOf(t, q)
  {
    if r <= p { NewlinesGrow(t, r, p); }
    Brackets.NeverCross(t, '{', '}', p, q, r, s);
    if q < r { NewlinesGrow(t, q, r); } else { NewlinesGrow(t, s, q); }
  }

  lemma {:induction false} NewlinesGrow(t: string, a: nat, b: nat)
    requires a <= b <= |t|
    ensures Newlines(t, a) <= Newlines(t, b)
    decreases b - a
  {
    if a < b { NewlinesGrow(t, a, b - 1); }
  }

  // ---------------------------------------------------------------- folding and unfolding

  predicate Under(header: nat, close: nat, l: nat) {
    header < l < close
  }

  /** The lines a fold hides: all after its header and before the line that closes it. */
  function Range(header: nat, close: nat): set<nat> {
    set l: nat | l < close && Under(header, close, l)
  }

  /** The lines hidden by the folds in `folded`. */
  function Cover(cache: map<nat, nat>, folded: set<nat>): set<nat> {
    set h, l | h in folded && h in cache && l in Range(h, cache[h]) :: l
  }

  datatype Folding = Folding(folded: set<nat>, hidden: set<nat>)

  function Toggled(cache: map<nat, nat>, f: Folding, line: nat): Folding {
    if line !in cache then f
    else if line in f.folded then Folding(f.folded - {line}, f.hidden - Range(line, cache[line]))
    else Folding(f.folded + {line}, f.hidden + Range(line, cache[line]))
  }

  function AfterToggles(cache: map<nat, nat>, f: Folding, lines: seq<nat>): Folding
    decreases |lines|
  {
    if lines == [] then f else AfterToggles(cache, Toggled(cache, f, lines[0]), lines[1..])
  }

  /** Only folded headers hide anything. */
  ghost predicate Tidy(cache: map<nat, nat>, f: Folding) {
    f.folded <= cache.Keys && f.hidden <= Cover(cache, f.folded)
  }

  lemma ToggleKeepsTidy(cache: map<nat, nat>, f: Folding, line: nat)
    requires Tidy(cache, f)
    ensures Tidy(cache, Toggled(cache, f, line))
  {
    var g := Toggled(cache, f, line);
    forall l | l in g.hidden
      ensures l in Cover(cache, g.folded)
    {
      if l in f.hidden {
        var h :| h in f.folded && h in cache && l in Range(h, cache[h]);
        assert h in g.folded;
      } else {
        assert line in g.folded && l in Range(line, cache[line]);
      }
    }
  }

  /** Toggling a line twice leaves the folds as they were, and the hidden lines too exactly when its
      range was hidden throughout if it was folded, and visible throughout if not. */
  lemma ToggleTwice(cache: map<nat, nat>, f: Folding, line: nat)
    requires line in cache
    ensures var g := Toggled(cache, Toggled(cache, f, line), line);
            var range := Range(line, cache[line]);
            && g.folded == f.folded
            && (g.hidden == f.hidden <==> if line in f.folded then range <= f.hidden else range !! f.hidden)
  {
    var range := Range(line, cache[line]);
    if line in f.folded {
      assert (f.hidden - range) + range == f.hidden + range;
      assert f.hidden + range == f.hidden ==> range <= f.hidden;
    } else {
      assert (f.hidden + range) - range == f.hidden - range;
      forall l | l in range && f.hidden - range == f.hidden
        ensures l !in f.hidden
      {
        assert l !in f.hidden - range;
      }
    }
  }

  /** However the folds of an unchanged text are toggled, what is hidden stays inside them. */
  lemma {:induction false} TogglesKeepTidy(cache: map<nat, nat>, f: Folding, lines: seq<nat>)
    requires Tidy(cache, f)
    ensures Tidy(cache, AfterToggles(cache, f, lines))
    decreases |lines|
  {
    if lines != [] {
      ToggleKeepsTidy(cache, f, lines[0]);
      TogglesKeepTidy(cache, Toggled(cache, f, lines[0]), lines[1..]);
    }
  }

  lemma {:induction false} TogglesNext(cache: map<nat, nat>, f: Folding, lines: seq<nat>, i: nat)
    requires i < |lines|
    ensures AfterToggles(cache, f, lines[..i + 1]) == Toggled(cache, AfterToggles(cache, f, lines[..i]), lines[i])
    decreases i
  {
    hide Toggled;
    if i > 0 {
      TogglesNext(cache, Toggled(cache, f, lines[0]), lines[1..], i - 1);
      assert lines[..i + 1][1..] == lines[1..][..i] && lines[..i][1..] == lines[1..][..i - 1];
    } else {
      assert lines[..1][1..] == [] && lines[..0] == [];
    }
  }

  function LinesOf(t: string, s: seq<nat>): seq<nat>
    requires forall k :: 0 <= k < |s| ==> s[k] <= |t|
  {
    seq(|s|, k requires 0 <= k < |s| => LineOf(t, s[k]))
  }

  class FoldView {
    var foldsCache: map<nat, nat>
    var folded: set<nat>
    var hidden: set<nat>  // the lines under the "fold" tag

    constructor ()
      ensures foldsCache == map[] && folded == {} && hidden == {}
    {
      foldsCache, folded, hidden := map[], {}, {};
    }

    function State(): Folding
      reads this
    {
      Folding(folded, hidden)
    }

    method UpdateFoldsCache(text: string)
      modifies this
      ensures foldsCache == FoldsAt(text, |text|)
      ensures folded == old(folded) * foldsCache.Keys && hidden == old(hidden)
    {
      hide Stack, FoldsAt, LineOf, Look, Split, Join, Offset;
      var lines := Split(text);
      JoinSplit(text);
      var stack: seq<nat> := [];
      var folds: map<nat, nat> := map[];
      ghost var pos := 0;
      ScanStarts(text, lines);
      for idx := 1 to |lines| + 1
        invariant Scanned(text, pos, stack, folds)
        invariant pos == if idx <= |lines| then Offset(lines, idx - 1) else |text|
        invariant old(folded) == folded && old(hidden) == hidden
      {
        var line := lines[idx - 1];
        for col := 0 to |line|
          invariant Scanned(text, pos, stack, folds) && pos == Offset(lines, idx - 1) + col
          invariant old(folded) == folded && old(hidden) == hidden
        {
          var ch := line[col];
          InLine(text, lines, idx - 1, col);
          ScanStep(text, pos, stack, folds, idx);
          if ch == '{' {
            stack := stack + [idx];
          } else if ch == '}' {
            if stack != [] {
              var o := stack[|stack| - 1];
              stack := stack[..|stack| - 1];
              if idx - o >= 1 && o !in folds { folds := folds[o := idx]; }
            }
          }
          pos := pos + 1;
        }
        InLine(text, lines, idx - 1, |line|);
        if idx < |lines| {
          OffsetNext(lines, idx - 1);
          ScanStep(text, pos, stack, folds, idx);
          pos := pos + 1;
        }
      }
      ScanEnds(text, pos, stack, folds);
      foldsCache := folds;
      folded := set h | h in folded && h in folds;
    }

    method ToggleFold(line: nat)
      modifies this`folded, this`hidden
      ensures State() == Toggled(foldsCache, old(State()), line)
      ensures line in folded <==> if line in foldsCache then line !in old(folded) else line in old(folded)
      ensures forall h :: h != line ==> (h in folded <==> h in old(folded))
      ensures forall l :: l in hidden <==>
                if line in foldsCache && line < l < foldsCache[line] then line !in old(folded) else l in old(hidden)
    {
      if line !in foldsCache { return; }
      var close := foldsCache[line];
      if line in folded {
        hidden := hidden - Range(line, close);
        folded := folded - {line};
      } else {
        hidden := hidden + Range(line, close);
        folded := folded + {line};
      }
    }

    /** Afterwards nothing is folded, and hidden are only the lines that were and that no folded header
        covers. */
    method UnfoldAll()
      requires folded <= foldsCache.Keys
      modifies this`folded, this`hidden
      ensures folded == {}
      ensures forall l :: l in hidden <==>
                l in old(hidden) && !exists h :: h in old(folded) && Under(h, foldsCache[h], l)
      ensures Tidy(foldsCache, old(State())) ==> hidden == {}
    {
      var headers := folded;
      while headers != {}
        invariant folded == headers <= old(folded)
        invariant hidden == old(hidden) - Cover(foldsCache, old(folded) - headers)
        decreases headers
      {
        var header :| header in headers;
        ghost var todo := headers;
        ghost var was := hidden;
        ToggleFold(header);
        headers := headers - {header};
        CoverAdds(foldsCache, old(folded) - todo, header);
        assert old(folded) - headers == (old(folded) - todo) + {header};
      }
      assert old(folded) - {} == old(folded);
      forall l
        ensures l in Cover(foldsCache, old(folded)) <==> exists h :: h in old(folded) && Under(h, foldsCache[h], l)
      {
        InCover(foldsCache, old(folded), l);
      }
    }

    /** A run of toggles on an unchanged text, and then everything unfolded: nothing is left hidden. */
    method ToggleThenUnfold(lines: seq<nat>)
      requires Tidy(foldsCache, State())
      modifies this`folded, this`hidden
      ensures folded == {} && hidden == {}
    {
      for i := 0 to |lines|
        invariant State() == AfterToggles(foldsCache, old(State()), lines[..i])
      {
        ToggleFold(lines[i]);
        TogglesNext(foldsCache, old(State()), lines, i);
      }
      assert lines[..|lines|] == lines;
      TogglesKeepTidy(foldsCache, old(State()), lines);
      UnfoldAll();
    }
  }

  lemma InCover(cache: map<nat, nat>, folded: set<nat>, l: nat)
    requires folded <= cache.Keys
    ensures l in Cover(cache, folded) <==> exists h :: h in folded && Under(h, cache[h], l)
  {
    if exists h :: h in folded && Under(h, cache[h], l) {
      var h :| h in folded && Under(h, cache[h], l);
      assert l in Range(h, cache[h]);
    }
  }

  lemma CoverAdds(cache: map<nat, nat>, done: set<nat>, header: nat)
    requires header in cache
    ensures Cover(cache, done + {header}) == Cover(cache, done) + Range(header, cache[header])
  {
  }

  /** The scan has processed the positions before `pos`; its stack holds line numbers. */
  ghost predicate Scanned(t: string, pos: nat, stack: seq<nat>, folds: map<nat, nat>) {
    pos <= |t| && stack == LinesOf(t, Stack(t, pos)) && folds == FoldsAt(t, pos)
  }

  lemma ScanStarts(t: string, lines: seq<string>)
    ensures Scanned(t, 0, [], map[]) && Offset(lines, 0) == 0
  {
  }

  lemma ScanEnds(t: string, pos: nat, stack: seq<nat>, folds: map<nat, nat>)
    requires Scanned(t, pos, stack, folds) && pos == |t|
    ensures folds == FoldsAt(t, |t|)
  {
  }

  lemma InLine(t: string, lines: seq<string>, k: nat, c: nat)
    requires |lines| >= 1 && Join(lines) == t && forall m :: 0 <= m < |lines| ==> OneLine(lines[m])
    requires k < |lines| && c <= |lines[k]|
    ensures var p := Offset(lines, k) + c;
            && p <= |t| && LineOf(t, p) == k + 1
            && (c < |lines[k]| ==> p < |t| && t[p] == lines[k][c])
            && (c == |lines[k]| ==> if k + 1 < |lines| then p < |t| && t[p] == '\n' else p == |t|)
  {
    JoinAt(lines, k, c);
    LineColOf(lines, k, c);
  }

  /** One character of the scan. */
  lemma ScanStep(t: string, pos: nat, stack: seq<nat>, folds: map<nat, nat>, idx: nat)
    requires pos < |t| && Scanned(t, pos, stack, folds) && idx == LineOf(t, pos)
    ensures t[pos] == '{' ==> Scanned(t, pos + 1, stack + [idx], folds)
    ensures t[pos] == '}' && stack == [] ==> Scanned(t, pos + 1, stack, folds)
    ensures t[pos] == '}' && stack != [] ==>
              var o := stack[|stack| - 1];
              Scanned(t, pos + 1, stack[..|stack| - 1], if idx - o >= 1 && o !in folds then folds[o := idx] else folds)
    ensures t[pos] != '{' && t[pos] != '}' ==> Scanned(t, pos + 1, stack, folds)
  {
    StackStep(t, pos);
    assert FoldsAt(t, pos + 1) == Look(t, pos, folds);
    hide LineOf, FoldsAt, Stack;
    var s, s' := Stack(t, pos), Stack(t, pos + 1);
    assert |stack| == |s|;
    if t[pos] == '{' {
      assert LinesOf(t, s') == stack + [idx];
    } else if t[pos] == '}' && stack != [] {
      assert LinesOf(t, s') == stack[..|stack| - 1];
    }
  }

  lemma StackStep(t: string, pos: nat)
    requires pos < |t|
    ensures var s := Stack(t, pos);
            Stack(t, pos + 1) == if t[pos] == '{' then s + [pos]
                                 else if t[pos] == '}' && s != [] then s[..|s| - 1] else s
  {
  }

  // ---------------------------------------------------------------- folds and edits

  /** The state after the map has been refreshed for an edited text. */
  function Refreshed(f: Folding, now: map<nat, nat>): Folding {
    Folding(f.folded * now.Keys, f.hidden)
  }

  /** A pair of braces of the text hides line `l` once its line is folded. */
  ghost predicate HidesLine(t: string, header: nat, l: nat) {
    exists close: nat, p: nat, q: nat :: FoldOf(t, |t|, header, close, p, q) && Under(header, close, l)
  }

  /** After any edit, refreshing the map leaves only folded headers hiding lines exactly when every hidden
      line lies inside the first-closed pair that the edited text has on some folded header. */
  lemma RefreshKeepsTidy(f: Folding, edited: string)
    ensures var now := FoldsAt(edited, |edited|);
            Tidy(now, Refreshed(f, now)) <==>
            forall l :: l in f.hidden ==> exists h :: h in f.folded && HidesLine(edited, h, l)
  {
    hide FoldsAt, FoldOf;
    var now := FoldsAt(edited, |edited|);
    var g := Refreshed(f, now);
    forall h, l
      ensures HidesLine(edited, h, l) <==> h in now && Under(h, now[h], l)
    {
      MapHides(edited, h, l);
    }
    if Tidy(now, g) {
      forall l | l in f.hidden
        ensures exists h :: h in f.folded && HidesLine(edited, h, l)
      {
        var h :| h in g.folded && h in now && l in Range(h, now[h]);
        assert h in f.folded && HidesLine(edited, h, l);
      }
    }
    if forall l :: l in f.hidden ==> exists h :: h in f.folded && HidesLine(edited, h, l) {
      forall l | l in f.hidden
        ensures l in Cover(now, g.folded)
      {
        var h :| h in f.folded && HidesLine(edited, h, l);
        assert h in g.folded && l in Range(h, now[h]);
      }
    }
  }

  lemma MapHides(t: string, h: nat, l: nat)
    ensures var m := FoldsAt(t, |t|); HidesLine(t, h, l) <==> h in m && Under(h, m[h], l)
  {
    hide FoldsAt, LineOf, Pair;
    FoldsMeaning(t, |t|);
    var m := FoldsAt(t, |t|);
    if h in m {
      var p: nat, q: nat :| FoldOf(t, |t|, h, m[h], p, q);
      assert Under(h, m[h], l) ==> HidesLine(t, h, l);
    }
    if HidesLine(t, h, l) {
      var close: nat, p: nat, q: nat :| FoldOf(t, |t|, h, close, p, q) && Under(h, close, l);
      var r: nat, s: nat :| FoldOf(t, |t|, h, m[h], r, s);
    }
  }

  /** In particular when every folded line still has a fold, and one that closes no earlier. */
  lemma LongerFoldsKeepTidy(cache: map<nat, nat>, f: Folding, now: map<nat, nat>)
    requires Tidy(cache, f) && forall h :: h in f.folded ==> h in now && cache[h] <= now[h]
    ensures Tidy(now, Refreshed(f, now))
  {
    var g := Refreshed(f, now);
    forall l | l in f.hidden
      ensures l in Cover(now, g.folded)
    {
      var h :| h in f.folded && h in cache && l in Range(h, cache[h]);
      assert h in g.folded && l in Range(h, now[h]);
    }
  }

  /** Otherwise lines are stranded: a fold is closed, its closing brace deleted, and everything unfolded. */
  method StrandALine() returns (v: FoldView)
    ensures fresh(v) && v.folded == {} && v.hidden == {2}
  {
    hide FoldsAt, Toggled, Cover;
    v := new FoldView();
    var text, edited := "{\na\n}", "{\na\n";
    v.UpdateFoldsCache(text);
    OneFold(text, edited);
    v.ToggleFold(1);
    v.UpdateFoldsCache(edited);
    v.UnfoldAll();
  }

  lemma {:induction false} NothingClosed(t: string, i: nat)
    requires i <= |t| && forall k :: 0 <= k < i ==> t[k] != '}'
    ensures FoldsAt(t, i) == map[]
  {
    if i > 0 { NothingClosed(t, i - 1); }
  }

  lemma OneFold(t: string, u: string)
    requires t == "{\na\n}" && u == "{\na\n"
    ensures FoldsAt(t, |t|) == map[1 := 3] && FoldsAt(u, |u|) == map[]
  {
    hide FoldsAt, Stack, LineOf;
    NothingClosed(u, 4);
    NothingClosed(t, 4);
    OneOpen(t);
    ThreeLines(t);
    assert Look(t, 4, map[]) == map[1 := 3];
    LastLook(t);
  }

  lemma OneOpen(t: string)
    requires t == "{\na\n}"
    ensures Stack(t, 4) == [0]
  {
    assert Stack(t, 0) == [];
    hide Stack;
    StackStep(t, 0);
    StackStep(t, 1);
    StackStep(t, 2);
    StackStep(t, 3);
  }

  lemma ThreeLines(t: string)
    requires t == "{\na\n}"
    ensures LineOf(t, 0) == 1 && LineOf(t, 4) == 3
  {
    assert Newlines(t, 1) == 0;
    assert Newlines(t, 2) == 1;
    assert Newlines(t, 3) == 1;
  }

  lemma LastLook(t: string)
    requires |t| > 0
    ensures FoldsAt(t, |t|) == Look(t, |t| - 1, FoldsAt(t, |t| - 1))
  {
  }
}
