/** The output pane of clite_ide/terminal.py: buffered writes, flushed in batches into a text that is
    cut back to its last lines. */
module Terminal {
  import opened Wrappers
  import Lines

  const MAX_TERMINAL_LINES: nat := 5000

  /** The number of newlines. */
  function Breaks(s: string): nat {
    if s == "" then 0 else (if s[0] == '\n' then 1 else 0) + Breaks(s[1..])
  }

  /** delete("1.0", "{k+1}.0"): the text without its first `k` lines. */
  function DropLines(k: nat, s: string): string {
    if k == 0 || s == "" then s else DropLines(if s[0] == '\n' then k - 1 else k, s[1..])
  }

  /** The text cut back to its last `n` lines. */
  function LastLines(n: nat, s: string): string
    requires n > 0
  {
    if Breaks(s) + 1 > n then DropLines(Breaks(s) + 1 - n, s) else s
  }

  // ---------------------------------------------------------------- what cutting back means

  lemma {:induction false} DropSplits(k: nat, s: string)
    requires k <= Breaks(s)
    ensures |Lines.Split(s)| == Breaks(s) + 1
    ensures Lines.Split(DropLines(k, s)) == Lines.Split(s)[k..]
  {
    if s != "" {
      DropSplits(if k == 0 then 0 else if s[0] == '\n' then k - 1 else if k <= Breaks(s[1..]) then k else 0, s[1..]);
    }
  }

  /** Exactly the last `n` lines are kept, or all when there are fewer. */
  lemma LastLinesMeaning(n: nat, s: string)
    requires n > 0
    ensures var ls := Lines.Split(s);
            Lines.Split(LastLines(n, s)) == if |ls| > n then ls[|ls| - n..] else ls
  {
    DropSplits(if Breaks(s) + 1 > n then Breaks(s) + 1 - n else 0, s);
  }

  lemma {:induction false} BreaksConcat(a: string, b: string)
    ensures Breaks(a + b) == Breaks(a) + Breaks(b)
  {
    if a == "" {
      assert a + b == b;
    } else {
      assert (a + b)[1..] == a[1..] + b;
      BreaksConcat(a[1..], b);
    }
  }

  /** Dropping lines that all lie in the first part leaves the second part alone. */
  lemma {:induction false} DropConcat(k: nat, a: string, b: string)
    requires k <= Breaks(a)
    ensures DropLines(k, a + b) == DropLines(k, a) + b
    ensures Breaks(DropLines(k, a)) == Breaks(a) - k
  {
    if k > 0 {
      assert (a + b)[1..] == a[1..] + b;
      DropConcat(if a[0] == '\n' then k - 1 else k, a[1..], b);
    }
  }

  lemma {:induction false} DropTwice(j: nat, k: nat, s: string)
    ensures DropLines(j, DropLines(k, s)) == DropLines(k + j, s)
  {
    if k > 0 && s != "" {
      DropTwice(j, if s[0] == '\n' then k - 1 else k, s[1..]);
    }
  }

  /** Cutting back early does not show: what was cut would have been cut later. */
  lemma LastLinesAbsorbs(n: nat, a: string, b: string)
    requires n > 0
    ensures LastLines(n, LastLines(n, a) + b) == LastLines(n, a + b)
  {
    if Breaks(a) + 1 > n {
      var k := Breaks(a) + 1 - n;
      DropConcat(k, a, b);
      BreaksConcat(a, b);
      BreaksConcat(DropLines(k, a), b);
      DropTwice(Breaks(b), k, a + b);
    }
  }

  // ---------------------------------------------------------------- schedules

  /** An insertion into the pane, cut back afterwards or not: a flush, or a line written at once. */
  datatype Insertion = Insertion(chunk: string, trimmed: bool)

  function Pane(n: nat, es: seq<Insertion>): string
    requires n > 0
  {
    if es == [] then ""
    else
      var e := es[|es| - 1];
      var s := Pane(n, es[..|es| - 1]) + e.chunk;
      if e.trimmed then LastLines(n, s) else s
  }

  function Total(es: seq<Insertion>): string {
    if es == [] then "" else Total(es[..|es| - 1]) + es[|es| - 1].chunk
  }

  /** Up to the last cut, only the text inserted matters, not how it was batched or when it was cut. */
  lemma {:induction false} ScheduleIrrelevant(n: nat, es: seq<Insertion>)
    requires n > 0
    ensures LastLines(n, Pane(n, es)) == LastLines(n, Total(es))
    ensures es != [] && es[|es| - 1].trimmed ==> Pane(n, es) == LastLines(n, Total(es))
  {
    if es != [] {
      var rest, e := es[..|es| - 1], es[|es| - 1];
      ScheduleIrrelevant(n, rest);
      LastLinesAbsorbs(n, Pane(n, rest), e.chunk);
      LastLinesAbsorbs(n, Total(rest), e.chunk);
      LastLinesAbsorbs(n, Pane(n, rest) + e.chunk, "");
      assert Pane(n, rest) + e.chunk + "" == Pane(n, rest) + e.chunk;
      assert LastLines(n, Pane(n, rest) + e.chunk) + "" == LastLines(n, Pane(n, rest) + e.chunk);
    }
  }

  // ---------------------------------------------------------------- the widget

  class Terminal {
    var text: string
    var pendingText: string
    var flushId: Option<nat>
    var timers: set<nat>        // flushes the Tk loop has scheduled, by id
    ghost var inserted: string  // everything put into the pane since the last clear
    ghost var written: string   // everything ever passed to Write
    ghost var flushed: string   // the part of it that has reached the pane

    /** Unflushed text always has a flush scheduled; nothing written is lost or doubled; and the pane
        differs from what was inserted only by lines that would be cut anyway. */
    ghost predicate Valid()
      reads this
    {
      && (flushId.Some? ==> flushId.value in timers)
      && (pendingText != "" ==> flushId.Some?)
      && written == flushed + pendingText
      && LastLines(MAX_TERMINAL_LINES, text) == LastLines(MAX_TERMINAL_LINES, inserted)
    }

    constructor ()
      ensures Valid() && text == pendingText == inserted == written == flushed == "" && timers == {}
    {
      text, pendingText, flushId, timers := "", "", None, {};
      inserted, written, flushed := "", "", "";
    }

    method Clear()
      requires Valid()
      modifies this`text, this`inserted
      ensures Valid() && text == inserted == ""
    {
      text := "";
      inserted := "";
    }

    /** `newId` is the id `after` would return. */
    method Write(data: string, newId: nat)
      requires Valid() && newId !in timers
      modifies this`pendingText, this`flushId, this`timers, this`written
      ensures Valid() && pendingText == old(pendingText) + data && written == old(written) + data
      ensures old(flushId) == None ==> flushId == Some(newId) && timers == old(timers) + {newId}
      ensures old(flushId) != None ==> flushId == old(flushId) && timers == old(timers)
    {
      pendingText := pendingText + data;
      written := written + data;
      if flushId == None {
        timers := timers + {newId};
        flushId := Some(newId);
      }
    }

    /** A scheduled flush comes due. */
    method TimerFires(id: nat)
      requires Valid() && id in timers
      modifies this
      ensures Valid() && timers == old(timers) - {id}
      ensures pendingText == "" && flushId == None
      ensures flushed == old(flushed) + old(pendingText) && inserted == old(inserted) + old(pendingText)
      ensures old(pendingText) != "" ==> text == LastLines(MAX_TERMINAL_LINES, inserted)
    {
      timers := timers - {id};
      Flush();
    }

    /** Run by a timer, or directly when a program ends. */
    method Flush()
      requires written == flushed + pendingText
      requires LastLines(MAX_TERMINAL_LINES, text) == LastLines(MAX_TERMINAL_LINES, inserted)
      modifies this`text, this`pendingText, this`flushId, this`inserted, this`flushed
      ensures Valid() && pendingText == "" && flushId == None
      ensures flushed == old(flushed) + old(pendingText) && inserted == old(inserted) + old(pendingText)
      ensures old(pendingText) != "" ==> text == LastLines(MAX_TERMINAL_LINES, inserted)
      ensures old(pendingText) == "" ==> text == old(text)
    {
      flushId := None;
      var data := pendingText;
      assert data == "" ==> flushed + data == flushed && inserted + data == inserted;
      if data == "" { return; }
      pendingText := "";
      LastLinesAbsorbs(MAX_TERMINAL_LINES, text, data);
      LastLinesAbsorbs(MAX_TERMINAL_LINES, inserted, data);
      text := text + data;
      inserted, flushed := inserted + data, flushed + data;
      TrimBuffer();
      LastLinesAbsorbs(MAX_TERMINAL_LINES, inserted, "");
      assert inserted + "" == inserted && text + "" == text;
      assert flushed + "" == flushed;
    }

    method TrimBuffer()
      modifies this`text
      ensures text == LastLines(MAX_TERMINAL_LINES, old(text)) && |Lines.Split(text)| <= 5000
    {
      LastLinesMeaning(MAX_TERMINAL_LINES, text);
      var nlines := Breaks(text) + 1;
      if nlines > MAX_TERMINAL_LINES {
        var excess := nlines - MAX_TERMINAL_LINES;
        text := DropLines(excess, text);
      }
    }

    /** Inserted at once, ahead of text still pending, and not cut back. */
    method WriteLine(data: string)
      requires Valid()
      modifies this`text, this`inserted
      ensures Valid() && text == old(text) + data + "\n" && inserted == old(inserted) + data + "\n"
    {
      LastLinesAbsorbs(MAX_TERMINAL_LINES, text, data + "\n");
      LastLinesAbsorbs(MAX_TERMINAL_LINES, inserted, data + "\n");
      assert text + (data + "\n") == text + data + "\n" && inserted + (data + "\n") == inserted + data + "\n";
      text := text + data + "\n";
      inserted := inserted + data + "\n";
    }
  }
}
