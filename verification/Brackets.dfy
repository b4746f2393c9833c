/** The bracket searches of clite_ide/editor.py: forwards and backwards in `_find_match`, backwards in
    `_find_matching_open_brace`, and the stack of `_update_folds_cache`. */
module Brackets {
  import opened Wrappers

  /** Brackets opened less brackets closed in `t[a..b]`. */
  function Depth(t: string, o: char, c: char, a: nat, b: nat): int
    requires a <= b <= |t|
  {
    if a == b then 0
    else Depth(t, o, c, a, b - 1) + (if t[b - 1] == o then 1 else if t[b - 1] == c then -1 else 0)
  }

  lemma {:induction false} DepthSplits(t: string, o: char, c: char, a: nat, m: nat, b: nat)
    requires a <= m <= b <= |t|
    ensures Depth(t, o, c, a, b) == Depth(t, o, c, a, m) + Depth(t, o, c, m, b)
    decreases b - m
  {
    if m < b { DepthSplits(t, o, c, a, m, b - 1); }
  }

  /** The bracket opened at `p` is still open everywhere in `(p, q]`. */
  ghost predicate OpenUntil(t: string, o: char, c: char, p: nat, q: nat)
    requires q <= |t|
  {
    forall k :: p < k <= q ==> Depth(t, o, c, p, k) >= 1
  }

  /** What matching means: `q` is the first place where the bracket opened at `p` is closed again. */
  ghost predicate Matched(t: string, o: char, c: char, p: nat, q: nat) {
    && p < q < |t| && t[p] == o && t[q] == c
    && OpenUntil(t, o, c, p, q) && Depth(t, o, c, p, q + 1) == 0
  }

  /** Scanning back from `e`, nowhere in `(p, e)` have more brackets been opened than closed. */
  ghost predicate ClosedFrom(t: string, o: char, c: char, p: int, e: nat)
    requires -1 <= p && e <= |t|
  {
    forall k :: p < k < e ==> Depth(t, o, c, k, e) <= -1
  }

  /** Matching seen from the closing bracket. */
  lemma SeenFromTheEnd(t: string, o: char, c: char, p: nat, q: nat)
    requires p < q < |t| && t[p] == o && t[q] == c && o != c
    ensures Matched(t, o, c, p, q)
            <==> Depth(t, o, c, p, q + 1) == 0 && ClosedFrom(t, o, c, p, q + 1)
  {
    forall k | p < k <= q
      ensures Depth(t, o, c, p, q + 1) == Depth(t, o, c, p, k) + Depth(t, o, c, k, q + 1)
    {
      DepthSplits(t, o, c, p, k, q + 1);
    }
    if Depth(t, o, c, p, q + 1) == 0 && ClosedFrom(t, o, c, p, q + 1) {
      forall k | p < k <= q
        ensures Depth(t, o, c, p, k) >= 1
      {
        assert Depth(t, o, c, k, q + 1) <= -1;
      }
    }
    if Matched(t, o, c, p, q) {
      var e := q + 1;
      forall k | p < k < e
        ensures Depth(t, o, c, k, e) <= -1
      {
        assert Depth(t, o, c, p, k) >= 1;
      }
    }
  }

  lemma NotOpenPast(t: string, o: char, c: char, p: nat, q: nat, r: nat)
    requires Matched(t, o, c, p, q) && q < r < |t|
    ensures !OpenUntil(t, o, c, p, r)
  {
    assert Depth(t, o, c, p, q + 1) == 0 && p < q + 1 <= r;
  }

  lemma NotClosedBefore(t: string, o: char, c: char, p: nat, q: nat, r: nat)
    requires o != c && Matched(t, o, c, p, q) && r < p
    ensures !Matched(t, o, c, r, q)
  {
    assert Depth(t, o, c, p, q + 1) == 0;
    if t[r] == o { SeenFromTheEnd(t, o, c, r, q); }
  }

  lemma PartnerUnique(t: string, o: char, c: char, p: nat, q: nat, r: nat)
    requires o != c
    ensures Matched(t, o, c, p, q) && Matched(t, o, c, p, r) ==> q == r
    ensures Matched(t, o, c, q, p) && Matched(t, o, c, r, p) ==> q == r
  {
    if Matched(t, o, c, p, q) && q < r < |t| { NotOpenPast(t, o, c, p, q, r); }
    if Matched(t, o, c, p, r) && r < q < |t| { NotOpenPast(t, o, c, p, r, q); }
    if Matched(t, o, c, q, p) && r < q { NotClosedBefore(t, o, c, q, p, r); }
    if Matched(t, o, c, r, p) && q < r { NotClosedBefore(t, o, c, r, p, q); }
  }

  lemma ClosedInside(t: string, o: char, c: char, p: nat, q: nat, r: nat, s: nat)
    requires o != c && Matched(t, o, c, p, q) && p < r < q < s < |t|
    ensures !OpenUntil(t, o, c, r, s)
  {
    SeenFromTheEnd(t, o, c, p, q);
    assert Depth(t, o, c, r, q + 1) <= -1;
  }

  /** Two matched pairs are disjoint or nested, never interlaced. */
  lemma NeverCross(t: string, o: char, c: char, p: nat, q: nat, r: nat, s: nat)
    requires o != c && Matched(t, o, c, p, q) && Matched(t, o, c, r, s) && p < r
    ensures q < r || s < q
  {
    PartnerUnique(t, o, c, q, p, r);
    if r < q < s { ClosedInside(t, o, c, p, q, r, s); }
  }

  /** `_find_match`: forwards from an opening bracket, backwards from anything else. */
  method FindMatch(text: string, pos: nat, target: char) returns (r: Option<nat>)
    requires pos < |text| ==> text[pos] != target
    ensures pos >= |text| ==> r.None?
    ensures pos < |text| && text[pos] in "([{" ==>
              forall q: nat :: r == Some(q) <==> Matched(text, text[pos], target, pos, q)
    ensures pos < |text| && text[pos] !in "([{" ==>
              forall p: nat :: r == Some(p) <==> Matched(text, target, text[pos], p, pos)
  {
    if pos >= |text| { return None; }
    var openCh := text[pos];
    var depth := 0;
    if openCh in "([{" {
      var i := pos;
      while i < |text|
        invariant pos <= i <= |text| && depth == Depth(text, openCh, target, pos, i)
        invariant OpenUntil(text, openCh, target, pos, i)
      {
        if text[i] == openCh {
          depth := depth + 1;
        } else if text[i] == target {
          depth := depth - 1;
          if depth == 0 {
            assert Matched(text, openCh, target, pos, i);
            forall q: nat | Matched(text, openCh, target, pos, q)
              ensures q == i
            {
              PartnerUnique(text, openCh, target, pos, q, i);
            }
            return Some(i);
          }
        }
        i := i + 1;
      }
    } else {
      r := SearchBack(text, pos, target);
    }
    if openCh in "([{" { r := None; }
  }

  /** The backward loop, shared with `_find_matching_open_brace`. */
  method SearchBack(text: string, pos: nat, target: char) returns (r: Option<nat>)
    requires pos < |text| && text[pos] != target
    ensures forall p: nat :: r == Some(p) <==> Matched(text, target, text[pos], p, pos)
  {
    var close := text[pos];
    var depth := 0;
    var i := pos + 1;
    while i > 0
      invariant 0 <= i <= pos + 1 && depth == -Depth(text, target, close, i, pos + 1)
      invariant ClosedFrom(text, target, close, i - 1, pos + 1)
    {
      DepthSplits(text, target, close, i - 1, i, pos + 1);
      assert Depth(text, target, close, i - 1, i) == Depth(text, target, close, i - 1, i - 1)
             + (if text[i - 1] == target then 1 else if text[i - 1] == close then -1 else 0);
      i := i - 1;
      if text[i] == close {
        depth := depth + 1;
      } else if text[i] == target {
        depth := depth - 1;
        if depth == 0 {
          SeenFromTheEnd(text, target, close, i, pos);
          forall p: nat | Matched(text, target, close, p, pos)
            ensures p == i
          {
            PartnerUnique(text, target, close, pos, p, i);
          }
          return Some(i);
        }
      }
    }
    forall p: nat
      ensures !Matched(text, target, close, p, pos)
    {
      if p < pos && text[p] == target { SeenFromTheEnd(text, target, close, p, pos); }
    }
    r := None;
  }

  /** `_find_matching_open_brace`, called on a closing brace. */
  method FindMatchingOpenBrace(text: string, pos: nat) returns (r: Option<nat>)
    requires pos < |text| ==> text[pos] == '}'
    ensures pos >= |text| ==> r.None?
    ensures pos < |text| ==> forall p: nat :: r == Some(p) <==> Matched(text, '{', '}', p, pos)
  {
    if pos >= |text| { return None; }
    r := SearchBack(text, pos, '{');
  }

  // ---------------------------------------------------------------- the stack

  /** Where the brackets on the stack were opened when the scan is about to look at position `i`. */
  function StackAt(t: string, o: char, c: char, i: nat): (s: seq<nat>)
    requires i <= |t|
    ensures forall j :: 0 <= j < |s| ==> s[j] < i
  {
    if i == 0 then []
    else
      var s := StackAt(t, o, c, i - 1);
      if t[i - 1] == o then s + [i - 1]
      else if t[i - 1] == c && s != [] then s[..|s| - 1]
      else s
  }

  /** `s` holds brackets still open at `i`, each as deep as the number of those above it. */
  ghost predicate HoldsOpen(t: string, o: char, c: char, i: nat, s: seq<nat>)
    requires i <= |t|
  {
    forall j :: 0 <= j < |s| ==>
      s[j] < i && t[s[j]] == o && OpenUntil(t, o, c, s[j], i) && Depth(t, o, c, s[j], i) == |s| - j
  }

  ghost predicate MissesNone(t: string, o: char, c: char, i: nat, s: seq<nat>)
    requires i <= |t|
  {
    forall p: nat :: p < i && t[p] == o && OpenUntil(t, o, c, p, i) ==> p in s
  }

  /** The stack holds exactly the brackets that are still open, innermost last. */
  lemma {:induction false} StackHoldsOpen(t: string, o: char, c: char, i: nat)
    requires i <= |t| && o != c
    ensures HoldsOpen(t, o, c, i, StackAt(t, o, c, i)) && MissesNone(t, o, c, i, StackAt(t, o, c, i))
  {
    if i > 0 {
      StackHoldsOpen(t, o, c, i - 1);
      StillOpen(t, o, c, i, StackAt(t, o, c, i - 1), StackAt(t, o, c, i));
      StillAll(t, o, c, i, StackAt(t, o, c, i - 1), StackAt(t, o, c, i));
    }
  }

  ghost predicate Pass(t: string, o: char, c: char, i: nat, s: seq<nat>, s': seq<nat>) {
    && 0 < i <= |t| && o != c
    && s' == if t[i - 1] == o then s + [i - 1] else if t[i - 1] == c && s != [] then s[..|s| - 1] else s
  }

  lemma StillOpen(t: string, o: char, c: char, i: nat, s: seq<nat>, s': seq<nat>)
    requires Pass(t, o, c, i, s, s') && HoldsOpen(t, o, c, i - 1, s)
    ensures HoldsOpen(t, o, c, i, s')
  {
    forall j | 0 <= j < |s'|
      ensures s'[j] < i && t[s'[j]] == o && OpenUntil(t, o, c, s'[j], i) && Depth(t, o, c, s'[j], i) == |s'| - j
    {
      if j < |s| {
        assert s'[j] == s[j] && OpenUntil(t, o, c, s[j], i - 1);
        assert Depth(t, o, c, s[j], i) >= 1;
        forall k | s[j] < k <= i
          ensures Depth(t, o, c, s[j], k) >= 1
        {
          assert k <= i - 1 || k == i;
        }
      } else {
        assert Depth(t, o, c, i - 1, i - 1) == 0;
      }
    }
  }

  lemma StillAll(t: string, o: char, c: char, i: nat, s: seq<nat>, s': seq<nat>)
    requires Pass(t, o, c, i, s, s') && HoldsOpen(t, o, c, i - 1, s) && MissesNone(t, o, c, i - 1, s)
    ensures MissesNone(t, o, c, i, s')
  {
    forall p: nat | p < i && t[p] == o && OpenUntil(t, o, c, p, i)
      ensures p in s'
    {
      if p < i - 1 {
        assert OpenUntil(t, o, c, p, i - 1) && p in s;
        var j :| 0 <= j < |s| && s[j] == p;
        assert Depth(t, o, c, p, i) >= 1;
        assert s'[j] == p;
      } else {
        assert s'[|s'| - 1] == p;
      }
    }
  }

  /** The stack pops `p` at `q` exactly when the two searches find each other from there. */
  lemma StackPopsMatch(t: string, o: char, c: char, p: nat, q: nat)
    requires q < |t| && t[q] == c && o != c
    ensures var s := StackAt(t, o, c, q);
            (s != [] && s[|s| - 1] == p) <==> Matched(t, o, c, p, q)
  {
    StackHoldsOpen(t, o, c, q);
    var s := StackAt(t, o, c, q);
    if Matched(t, o, c, p, q) {
      assert Depth(t, o, c, p, q + 1) == Depth(t, o, c, p, q) - 1;
      var j :| 0 <= j < |s| && s[j] == p;
    }
    if s != [] && s[|s| - 1] == p {
      assert Depth(t, o, c, p, q + 1) == Depth(t, o, c, p, q) - 1;
    }
  }
}
