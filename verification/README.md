# A verified model of C-Lite

C-Lite is a small C/C++ IDE for Windows written in Python (Tk), with a Turbo C style `graphics.h`
runtime in C and a set of graphics examples. This project models its algorithmic core in Dafny and
proves what that core is for.

- **The editor** (`clite_ide/editor.py`, `clite_ide/lexer.py`). Two hand-written C scanners, one for
  highlighting and one for "is the cursor in a string or comment?": `Lexer`, `Coverage`, `Scanner`. Re-highlighting
  a window of lines against highlighting the whole text: `Highlight`. Positions as offsets and as
  line/column pairs: `Lines`. Three bracket matchers: `Brackets`. Code folding: `Folds`.
  Replace-all: `Replace`.
- **Running and building** (`clite_ide/runner.py`, `clite_ide/app.py`). The runner is a protocol
  between the UI thread, a launch thread and a wait thread; `Runner` is that protocol as a state
  machine whose steps are the single accesses to shared state, with an inductive invariant over all
  interleavings. `Build` is the incremental build check: the search of the include graph, and what a
  skipped build means over whole histories of edits, builds and settings changes.
- **The output pane** (`clite_ide/terminal.py`): `Terminal`.
- **Graphics** (`runtime/bgilite.c`, `examples/graphics/`). Saving, restoring and XOR-drawing sprites:
  `Sprite`. Line, circle and clipping loops: `Bresenham`, `Circle`, `Clip`.
- **The icon packer** (`packaging/make_icon.py`). The bitmap codec and the .ico container: `Icon`.
  Bilinear scaling: `Scale`.

Loops and mutable objects of the program are methods and classes here, each proved against a
specification function or predicate; the lemmas say what those specifications mean.

Several things the program does not guarantee are results too. Each comes with an input or a run on
which it fails and, where one is known, the exact condition under which it holds:

- the two scanners differ on a text (`Scanner.HashMatters`) exactly when a preprocessor line hides a
  quote or a comment opener (`Scanner.ScannersAgree`);
- tokens of a window differ from those of the text (`Highlight.StraddlingMatters`) exactly when a token
  straddles its start (`Highlight.WindowRefinesText`);
- an edit can strand hidden lines (`Folds.StrandALine`) exactly when a hidden line no longer lies inside
  the pair of a folded line (`Folds.RefreshKeepsTidy`);
- a skipped build is out of date (`Build.DeletionGoesUnnoticed`, `Build.EditDuringBuildGoesUnnoticed`,
  `Build.SameNameSharesExe`) exactly when the executable was built from other sources, or an input was
  deleted, or edited while the build ran (`Build.SkippedBuildIsCurrent`); it
  was made with old settings (`Build.ChangeDuringBuildGoesUnnoticed`, `Build.OtherBuildHidesChange`,
  `Build.RestartHidesChange`) exactly when they differed between the start of its build and the last
  recording (`Build.SettingsCurrent`);
- a stop is lost (`Runner.StopInBetweenIsLost`) exactly when it finds no process although the launch
  thread has read the flag and the child lives (`Runner.StopOutcome`); a stop whose kill fails leaves
  the run in a state in which every later one is (`Runner.FailedKillForsakes`,
  `Runner.NothingKillsForsaken`);
- truncation draws a pixel of a line that misses the window (`Clip.TruncationDrawsTooMuch`) and loses a
  visible line (`Clip.TruncationLosesALine`); the loop goes the way of exact arithmetic exactly when no
  quotient leaves a remainder (`Clip.ExactTrail`);
- a replacement that contains its needle keeps the loop going for ever (`Replace.ContainedNeverEnds`)
  exactly when there is a match to begin with (`Replace.ContainedStops`); of the replacements no longer
  than the needle only those equal to it, case aside, do (`Replace.NoLongerStops`);
- a row of the icon mask is longer than the format's exactly when the icon is eight pixels wide or more
  (`Icon.MaskRowLength`);
- scaling can take a channel out of the range of its source pixels (`Scale.BorderLeavesNeighbours`)
  exactly where the negative weights add up to 1/508 or more (`Scale.RangeKept`), which is only on the
  top and left border.

`dafny verify dfyconfig.toml` checks the whole project.

## Model

| member | source | states |
|---|---|---|
| Runner.InvInitial | clite_ide/runner.py:14-20 | a new runner satisfies the invariant: lock free, no process, no timer |
| Runner.InvStep | clite_ide/runner.py:25-159 | every step of any thread, child exit and timer expiry keeps the invariant that ties the lock, `process`, `_timer_id`, the scheduled timers, the live children and the kills to the one run in progress |
| Runner.BackgroundFrame | clite_ide/runner.py:47-122 | a launch or wait thread that can still move belongs to the run that holds the lock, moves only that run, and releases the lock exactly when it ends |
| Runner.BackgroundChild | clite_ide/runner.py:47-122 | background steps keep `process` and the live children those of the current run |
| Runner.BackgroundTimer | clite_ide/runner.py:78-117 | background steps keep `_timer_id` and the scheduled timeout that of the current run |
| Runner.UiLock | clite_ide/runner.py:31-45 | steps of the UI thread keep the lock held by exactly the run in progress, and every kill so far one of the child its origin is entitled to: that of the run that armed the timeout, or of the last run started before the stop |
| Runner.UiChild | clite_ide/runner.py:138-159 | steps of the UI thread, kill included, keep `process` and the live children those of the current run |
| Runner.UiTimer | clite_ide/runner.py:81-87 | steps of the UI thread keep the timer the current run's |
| Runner.UiSelf | clite_ide/runner.py:31-45 | a callback in progress always acts for the current run, and run() never gets past the check for a previous program |
| Runner.InvAlways | clite_ide/runner.py:25-159 | the invariant holds in every state of every interleaving |
| Runner.LockDiscipline | clite_ide/runner.py:31-35 | in every reachable state the lock is held iff a run lies between acquire and release, there is at most one such run, releases match acquires, and with the lock free nothing of a past run is left in `process`, `_timer_id` or the timer queue |
| Runner.ProcessIsOwnChild | clite_ide/runner.py:37-39 | a set `process` is the active run's child, at most one child is alive (terminate failures aside), and the stop-previous branch of run() is never entered |
| Runner.KillsAreDeserved | clite_ide/runner.py:138-159 | in every reachable state every kill ever issued comes from a user stop and hits the child of the last run started before it, or from a timeout and hits the child of the run that armed it |
| Runner.DoomedStep | clite_ide/runner.py:66-72 | once the stop flag is up before the launch thread reads it, no step of anyone rescues the run |
| Runner.EarlyStopWorks | clite_ide/runner.py:133-136 | a stop that comes before the launch thread reads the flag keeps that run's child from ever becoming `process`, in every continuation |
| Runner.FlagAlways | clite_ide/runner.py:41 | in every interleaving, from the launch of a run to the next one the stop flag is up only if a stop was called since |
| Runner.OnlyStoppedRunsStop | clite_ide/runner.py:41-72 | in every interleaving a launched child is terminated for the flag only if stop was called after its run took the lock |
| Runner.StopProceeds | clite_ide/runner.py:138-159 | a step of a stop in progress: with a process found at the test it ends in a kill of that run's child, or finds it gone; a kill that takes leaves no live child |
| Runner.StopWaits | clite_ide/runner.py:47-117 | whatever other threads do meanwhile, the process the stop goes for is the run's child, or that child is gone |
| Runner.StopOutcome | clite_ide/runner.py:133-159 | for every interleaving: a stop called while a run is active is lost (no kill issued, child alive, run not doomed) iff at its test there is no process although the launch thread has read the flag and the child lives; it issues at most one kill, of that child |
| Runner.TimeoutArms | clite_ide/runner.py:79-87 | with a run_timeout configured the launch thread arms a timer for its run |
| Runner.TimerStays | clite_ide/runner.py:86-109 | an armed timer stays until it fires or its own run cancels it |
| Runner.TimeoutProceeds | clite_ide/runner.py:81-85 | a step of a timeout in progress: with a process found at its test it ends in a kill of that run's child, or finds it gone; a kill that takes leaves no live child |
| Runner.TimeoutOutcome | clite_ide/runner.py:81-87 | for every interleaving: a timeout kills the child of the run that armed it or finds it gone, unless, and only if, it finds no process while the child lives |
| Runner.StopInBetweenIsLost | clite_ide/runner.py:66-74 | a run in which a stop falls between the reading of the flag and the setting of `process`: it is lost, and the child is published alive |
| Runner.ToWindow | clite_ide/runner.py:66-74 | that window is reached from a new runner |
| Runner.ForsakenStep | clite_ide/runner.py:138-159 | with `process` cleared while the child runs on, no step of anyone issues a kill or sets it again |
| Runner.NothingKillsForsaken | clite_ide/runner.py:158 | after a kill that failed, `process` is cleared all the same: as long as the child lives no later stop and no timeout does anything, in every continuation |
| Runner.FailedKillForsakes | clite_ide/runner.py:143-158 | a run that comes to that |
| Runner.NeverWedged | clite_ide/runner.py:63-117 | from every state of the invariant there is a continuation that frees the lock |
| Runner.RankFalls | clite_ide/runner.py:25-122 | while the lock is held no step of anyone takes the run further from its release, and every step of its own threads takes it nearer |
| Runner.RunsAreShort | clite_ide/runner.py:25-122 | for every interleaving: a run makes at most nineteen steps of its own before it releases the lock |
| Build.App.CollectHeaders | clite_ide/app.py:799-821 | ends on every include graph, cycles included, and returns exactly the files reached by one or more include edges, each once |
| Build.App.NeedsCompile | clite_ide/app.py:779-797 | asks for a build iff there is no executable, or a source or (transitively) included file is newer, or recorded settings differ |
| Build.OneEdge | clite_ide/app.py:814-820 | an include target of a source or of a reached file is reached |
| Build.ClosedHoldsAll | clite_ide/app.py:799-821 | a set closed under include edges from the sources holds everything reachable |
| Build.SearchPops | clite_ide/app.py:808 | taking a file off the queue keeps the search invariant, that file being the one under scan |
| Build.SearchFinds | clite_ide/app.py:815-820 | recording a new include target keeps the search invariant |
| Build.SearchCloses | clite_ide/app.py:807-820 | a scanned file all of whose targets are found is done |
| Build.SearchEnds | clite_ide/app.py:807-821 | with the queue empty the result is exactly the reachable files, without repetition |
| Build.InvHolds | clite_ide/app.py:911-913 | every write, deletion, settings change, restart, build start, executable written and build end keeps: a file not stamped after a build's start is the file that build read, for every executable |
| Build.InvAlways | clite_ide/app.py:779-841 | that invariant holds throughout every history |
| Build.ChainSurvives | clite_ide/app.py:779-821 | when a build of the same sources is skipped and no input was deleted, or edited while the build ran, every include chain the executable was built from is still one |
| Build.InputUnchanged | clite_ide/app.py:782-793 | an input the check let pass is as the build read it iff it was not deleted and not edited while the build ran |
| Build.ChainBack | clite_ide/app.py:799-821 | with equal include lines in all the files reached, no include chain has been added |
| Build.SkippedBuildIsCurrent | clite_ide/app.py:927-941 | over every history: when a build is skipped, the executable was made from these sources and every source and transitive local header is as the compiler read it, iff it was built from these sources and none of the inputs was deleted since, or edited while the build ran |
| Build.SkippedBuildHasSameInputs | clite_ide/app.py:927-941 | and in that case a build would look at exactly the same files |
| Build.DatedAlways | clite_ide/app.py:823-841 | settings kept with an executable or a record are those of the time they were read or recorded |
| Build.SettingsCurrent | clite_ide/app.py:823-841 | over every history: when a build is skipped, the executable was compiled with the current settings iff they were the same at the start of its build and at the last recording in this session (now, when there is none) |
| Build.SteadySettings | clite_ide/app.py:823-841 | so it is when nothing changed them in between |
| Build.SettingsNoticed | clite_ide/app.py:823-833 | a settings change makes the next check ask for a build iff settings were recorded in this session |
| Build.RecordStep | clite_ide/app.py:911-913 | a successful end records, a restart forgets, and nothing else, a failed build included, touches the record |
| Build.RecordMeaning | clite_ide/app.py:911-913 | over every history: settings are recorded iff a build has ended with success since the last restart, and they are those at the end of the last such build |
| Build.DeletionGoesUnnoticed | clite_ide/app.py:788-793 | a history in which a header is deleted after the build and the build is still skipped |
| Build.EditDuringBuildGoesUnnoticed | clite_ide/app.py:782-787 | a history in which a source edited during the build is never rebuilt |
| Build.SameNameSharesExe | clite_ide/app.py:770-777 | a history in which the program built from one source is run for another source of the same base name, no file having been touched |
| Build.ChangeDuringBuildGoesUnnoticed | clite_ide/app.py:911-913 | a history in which flags changed while the build ran are recorded as those of the build, and the build is skipped from then on |
| Build.OtherBuildHidesChange | clite_ide/app.py:835-841 | a history in which building another program after a change of flags makes the first one's build be skipped: there is one record for all |
| Build.RestartHidesChange | clite_ide/app.py:829-832 | a history in which a restart makes a change of flags go unnoticed |
| Lexer.RunEnd | clite_ide/lexer.py:44-47 | the longest run of a character class, which never swallows a quote, slash, `#` or newline |
| Lexer.BlockEnd | clite_ide/lexer.py:62-67 | just past the first `*/`, or the end of the text when there is none |
| Lexer.LineEnd | clite_ide/lexer.py:69-74 | the first newline, or the end of the text |
| Lexer.QuoteEndMeaning | clite_ide/lexer.py:76-88 | a literal ends past the first quote preceded by an even number of backslashes, and ends one beyond the text only when no such quote exists |
| Lexer.Next | clite_ide/lexer.py:59-139 | every pass of the scanner moves forward, and only an open literal may end one beyond the text |
| Lexer.Colorize | clite_ide/lexer.py:50-141 | the loop terminates and returns the token list of the specification |
| Lexer.ScanQuoted | clite_ide/lexer.py:77-85 | the quote loop stops where the specification says |
| Lexer.ScanLine | clite_ide/lexer.py:104-107 | the preprocessor loop stops at the end of the line |
| Lexer.ScanWord | clite_ide/lexer.py:119-137 | the identifier loops find the whole word and its kind, a function when only blanks separate it from a parenthesis |
| Lexer.TokensOrdered | clite_ide/lexer.py:50-141 | on every text tokens are non-empty, in order, disjoint and inside the text, but for an open literal that ends one beyond it |
| Lexer.OpenersCovered | clite_ide/lexer.py:62-110 | every quote, `#` and comment opener of the text lies in some token |
| Lexer.TokensMeaning | clite_ide/lexer.py:50-141 | every token is what its kind says: comments end at their first terminator, literals at their first unescaped quote, words are whole and in the list of their kind and no earlier one, functions are followed by a parenthesis, numbers have a number's shape |
| Lexer.LiteralMeaning | clite_ide/lexer.py:76-102 | the shape of string and character literals, closed or not |
| Lexer.NumberMeaning | clite_ide/lexer.py:44-47 | what the number pattern accepts is hexadecimal, binary, or digits with fraction, exponent and suffix |
| Lexer.WordMeaning | clite_ide/lexer.py:119-137 | a word token is a maximal identifier whose list decides its kind |
| Coverage.Stops | clite_ide/lexer.py:59-139 | the scanner stops at every place where a word or number can start outside comments, literals, preprocessor lines and numbers |
| Coverage.WordIsToken | clite_ide/lexer.py:119-137 | there every whole word of a list is a token of the first list that has it, and every other word followed by blanks and a parenthesis is a function token |
| Coverage.NumberIsToken | clite_ide/lexer.py:112-117 | there every number is a token in its full length |
| Coverage.NumberIsLongest | clite_ide/lexer.py:44-47 | the number pattern matches the first alternative that fits, every part as long as it gets |
| Coverage.NumbersAreLongest | clite_ide/lexer.py:112-117 | and no number token is anything else |
| Coverage.Classes | clite_ide/lexer.py:44-47 | the characters of each class of the patterns |
| Coverage.OneOfEach | clite_ide/lexer.py:50-141 | the tokens of a text with a comment of each sort, both literals and a preprocessor line |
| Scanner.PosInStringOrComment | clite_ide/editor.py:435-490 | the loop terminates and returns the verdict of the specification |
| Scanner.Agreement | clite_ide/editor.py:435-490 | as long as no preprocessor line hides anything, the cursor test holds iff the position is in a comment, string or character token, or exactly at the end of one that is not a block comment |
| Scanner.Disagreement | clite_ide/editor.py:435-490 | where a preprocessor line hides a quote or a comment opener, the two scanners disagree at the first such place |
| Scanner.HashesIgnored | clite_ide/editor.py:435-490 | the cursor test does not depend on which characters are `#` |
| Scanner.ScannersAgree | clite_ide/editor.py:435-490 | for every text: the two scanners agree at every position iff no preprocessor token holds a quote or a comment opener after its `#` |
| Scanner.TestsBlankedText | clite_ide/editor.py:435-490 | for every text: the cursor test is the token test on the text with its `#` blanked out |
| Scanner.HashMatters | clite_ide/editor.py:435-490 | a text on which the two scanners differ |
| Lines.JoinSplit | clite_ide/editor.py:609-610 | joining the lines of a text gives the text back |
| Lines.JoinAt | clite_ide/editor.py:609-611 | where each character of each line is found in the text |
| Lines.JoinSlice | clite_ide/editor.py:608-611 | joining some consecutive lines cuts exactly the text between their ends |
| Lines.LineColOf | clite_ide/editor.py:622-629 | the offset of column c of line k has line k and column c |
| Lines.PositionRoundTrip | clite_ide/editor.py:622-629 | offset to line and column and back is the identity, offsets past the end counting as the end; the index is always a real one |
| Lines.IndexRoundTrip | clite_ide/editor.py:752-754 | line and column to offset and back is the identity |
| Highlight.NextInWindow | clite_ide/lexer.py:59-139 | one pass of the scanner over a window of lines does what the pass over the whole text does, unless its token is cut off by the window's end |
| Highlight.TokensInWindow | clite_ide/editor.py:613-620 | from any common position the window's tokens are the text's, shifted; only the last may be cut off |
| Highlight.StopsAtLineStart | clite_ide/editor.py:585-590 | if no token straddles the start of a line the scanner of the whole text stops there |
| Highlight.WindowAgrees | clite_ide/editor.py:583-613 | if no token straddles the window's start: full tokens = those before it, then those the window's tokens stand for |
| Highlight.WindowRefinesText | clite_ide/editor.py:583-613 | tokenizing a window of lines agrees in that way with tokenizing the whole text iff no token of the text straddles the window's start |
| Highlight.StraddlingMatters | clite_ide/editor.py:583-613 | a comment over two lines whose second line, tokenized alone, is a string |
| Highlight.Region | clite_ide/editor.py:596-611 | the tokenized region is a slice of the text that starts and ends at line boundaries |
| Highlight.RegionLines | clite_ide/editor.py:596-611 | a line lies in the region iff it is at most 80 lines from the cursor's |
| Highlight.Retag | clite_ide/editor.py:582-620 | tags every token of the region at its place in the whole text |
| Highlight.RetagRefinesFull | clite_ide/editor.py:582-620 | the tags added are those that highlighting everything would add to the same tokens, in kind, start and (but for the last) end; what is not tagged lies outside the region |
| Highlight.SyntaxView.Highlight | clite_ide/editor.py:596-620 | the tags left afterwards are the old ones outside the region and, beside them, exactly those of the region's tokens; every character of the lines within 80 of the cursor's has those of the region's tokens alone |
| Highlight.WindowColours | clite_ide/editor.py:613-620 | inside the region its tokens tag the characters that the tokens of the whole text do, and outside none that those do not |
| Highlight.HighlightIsFull | clite_ide/editor.py:582-620 | if the tags outside the region were right and no token straddles its start, the tags left are those of highlighting everything |
| Highlight.BeforeKept | clite_ide/editor.py:583-620 | an edit of lines whose surrounding newlines lie in no token leaves the tags of highlighting everything as they are in front of it |
| Highlight.BehindMoves | clite_ide/editor.py:583-620 | and behind it, moved with the text |
| Highlight.EditThenHighlight | clite_ide/editor.py:582-620 | if the tags were those of highlighting everything, lines inside the region are edited and the newlines around the region lie in no token before or after, then highlighting the region leaves the tags of highlighting everything |
| Brackets.FindMatch | clite_ide/editor.py:756-781 | finds q iff q is the partner of the bracket at the position, from either side; nothing when it has none or the position is the end of the text |
| Brackets.SearchBack | clite_ide/editor.py:772-780 | the backward loop returns p iff the bracket opened at p is closed here |
| Brackets.FindMatchingOpenBrace | clite_ide/editor.py:396-415 | the brace search of the indenter returns the very same partner |
| Brackets.SeenFromTheEnd | clite_ide/editor.py:772-780 | counting forwards from the opening bracket and backwards from the closing one define the same pairs |
| Brackets.PartnerUnique | clite_ide/editor.py:756-781 | a bracket has at most one partner |
| Brackets.NeverCross | clite_ide/editor.py:756-781 | matched pairs are nested or disjoint |
| Brackets.StackHoldsOpen | clite_ide/editor.py:656-664 | the stack holds exactly the brackets still open, innermost last |
| Brackets.StackPopsMatch | clite_ide/editor.py:662-664 | the stack scan pops p at q iff p and q are partners for the two searches |
| Folds.FoldsMeaning | clite_ide/editor.py:653-667 | each entry is the first-closed multi-line pair of its line, and every line that opens one has an entry |
| Folds.LookAdds | clite_ide/editor.py:661-666 | a closing brace adds at most the entry of the pair it closes and changes no other |
| Folds.LookKeeps | clite_ide/editor.py:661-666 | that keeps the meaning of the map |
| Folds.FoldsLaminar | clite_ide/editor.py:653-667 | every entry is a real pair on different lines, every line opening one is a key, and folds are nested or follow one another |
| Folds.Laminar | clite_ide/editor.py:653-667 | the line ranges of two brace pairs never overlap in part |
| Folds.FoldView.UpdateFoldsCache | clite_ide/editor.py:653-668 | the scan by lines computes that map; folded headers without an entry are forgotten, the fold tag is untouched |
| Folds.FoldView.ToggleFold | clite_ide/editor.py:670-683 | line by line: exactly the lines between header and close become hidden, or visible if the header was folded; no other line and no other header is touched |
| Folds.FoldView.UnfoldAll | clite_ide/editor.py:726-728 | nothing is folded afterwards; a line is still hidden iff it was and no folded header covers it, so none is when only folded headers hid lines before |
| Folds.ToggleKeepsTidy | clite_ide/editor.py:670-683 | one toggle keeps the hidden lines inside the union of folded ranges, nested folds included |
| Folds.ToggleTwice | clite_ide/editor.py:670-683 | toggling twice restores the hidden lines iff the range was hidden throughout if folded, visible throughout if not |
| Folds.TogglesKeepTidy | clite_ide/editor.py:670-683 | so does any run of toggles while the text is unchanged |
| Folds.FoldView.ToggleThenUnfold | clite_ide/editor.py:670-728 | any run of toggles on an unchanged text, then unfolding everything: no line is left hidden |
| Folds.ScanStep | clite_ide/editor.py:658-666 | the stack of line numbers follows the stack of brace positions, character by character |
| Folds.RefreshKeepsTidy | clite_ide/editor.py:667-668 | for every edited text: after the map is refreshed only folded headers hide lines iff every hidden line lies inside the first-closed brace pair that the text has on some folded line |
| Folds.LongerFoldsKeepTidy | clite_ide/editor.py:667-668 | so it is when every folded line keeps a fold that closes no earlier |
| Folds.StrandALine | clite_ide/editor.py:653-728 | folding, deleting the closing brace and unfolding everything leaves line 2 hidden with nothing folded |
| Replace.Search | clite_ide/editor.py:867-871 | the first case-insensitive match that starts between two positions, or none |
| Replace.Find | clite_ide/editor.py:867-873 | the search wraps: it fails only when the needle occurs nowhere |
| Replace.SubstituteKeeps | clite_ide/editor.py:874-876 | one replacement leaves the text before and after the match in place and the cursor before what it put there |
| Replace.SubstituteCounts | clite_ide/editor.py:874-876 | what one replacement does to the number of occurrences of every folded character |
| Replace.ShorterShrinks | clite_ide/editor.py:861-879 | a shorter replacement meets the termination condition |
| Replace.DisjointShrinks | clite_ide/editor.py:861-879 | so does one that shares no folded character with the needle |
| Replace.ShrinksStops | clite_ide/editor.py:861-879 | the loop stops on every text, from every cursor, when some folded character is more frequent in the needle than in the replacement |
| Replace.RoundsCount | clite_ide/editor.py:865-877 | every round uses up one of each such character |
| Replace.TextWidget.ReplaceAll | clite_ide/editor.py:861-879 | whenever the loop stops: it leaves no case-insensitive occurrence and did the rounds and nothing else; the count is bounded by the number of any character more frequent in the needle; an empty needle changes nothing |
| Replace.FinishesAs | clite_ide/editor.py:865-877 | from half-way through, the loop ends with the finished part followed by the usual replacement of the rest |
| Replace.ReplacesAll | clite_ide/editor.py:861-879 | from the start of the text, with a non-empty replacement that shares no character with the needle, case aside: the result is the text with the matches from the left, none overlapping the one before, replaced |
| Replace.ContainedNeverEnds | clite_ide/editor.py:865-877 | when the replacement contains the needle and there is a match, the loop runs for ever |
| Replace.ContainedStops | clite_ide/editor.py:865-877 | with a replacement that contains the needle the loop stops iff there is no match |
| Replace.NoLongerStops | clite_ide/editor.py:861-879 | for every replacement no longer than the needle: the loop stops iff the two differ, case aside, or there is no match |
| Replace.SameLengthStops | clite_ide/editor.py:865-877 | with pieces of one length the text, read as a number, goes one way round after round, so the loop stops |
| Replace.SubstituteLowers | clite_ide/editor.py:874-876 | what one replacement does to that number |
| Replace.ContainedStays | clite_ide/editor.py:874-876 | each round then leaves a match behind |
| Replace.ContainedDoesNotShrink | clite_ide/editor.py:861-879 | the two conditions exclude each other |
| Terminal.Terminal.Clear | clite_ide/terminal.py:63-66 | empties the pane, not the pending text |
| Terminal.Terminal.Write | clite_ide/terminal.py:68-73 | appends to the pending text, and schedules a flush iff none is registered |
| Terminal.Terminal.TimerFires | clite_ide/terminal.py:73-85 | a scheduled flush moves all pending text into the pane, once |
| Terminal.Terminal.Flush | clite_ide/terminal.py:75-85 | after a flush of any text the pane is the last 5000 lines of everything inserted since the last clear; written text is flushed or pending, never lost or doubled |
| Terminal.Terminal.TrimBuffer | clite_ide/terminal.py:87-92 | keeps the last 5000 lines |
| Terminal.Terminal.WriteLine | clite_ide/terminal.py:94-98 | inserts at once, ahead of pending text, and keeps the invariant |
| Terminal.DropSplits | clite_ide/terminal.py:87-92 | deleting up to the start of a line drops exactly the lines before it |
| Terminal.LastLinesMeaning | clite_ide/terminal.py:87-92 | trimming keeps exactly the last lines of the split text |
| Terminal.LastLinesAbsorbs | clite_ide/terminal.py:81-92 | trimming before an insertion does not show once it is trimmed again |
| Terminal.ScheduleIrrelevant | clite_ide/terminal.py:68-98 | for every sequence of insertions the pane after a trim depends only on the text inserted, not on batching or on when it was trimmed |
| Sprite.Nearest | runtime/bgilite.c:107-120 | the first of the nearest palette entries |
| Sprite.BgiIndex | runtime/bgilite.c:107-120 | the min-search loop finds it |
| Sprite.DistanceMeaning | runtime/bgilite.c:112-117 | the distance of two colours is the sum of the squared differences of their channels |
| Sprite.PaletteMeaning | runtime/bgilite.c:61-78 | the sixteen colours: mixtures of blue, green and red at two thirds, the same a third brighter, and brown |
| Sprite.IndexOfPalette | runtime/bgilite.c:61-120 | colour index to RGB and back is the identity on the 16 colours |
| Sprite.Bitwise | runtime/bgilite.c:820-822 | the model's xor, or and and act bit by bit |
| Sprite.XorTwice | runtime/bgilite.c:820 | xor with the same operand is its own inverse |
| Sprite.XorBelow | runtime/bgilite.c:820 | xor of n-bit numbers has n bits, so 4-bit images stay in the palette |
| Sprite.CombineMeaning | runtime/bgilite.c:816-825 | what each of the five operations makes of every bit |
| Sprite.CellInside | runtime/bgilite.c:799-802 | each pixel of the rectangle has its cell inside the buffer |
| Sprite.CellsApart | runtime/bgilite.c:799-802 | different pixels have different cells, in scan order |
| Sprite.ImageFits | runtime/bgilite.c:780-786 | for sides 1 to 65535 `imagesize` returns four bytes more than the 4 + w*h written, 32-bit wrap included |
| Sprite.HeaderRoundTrip | runtime/bgilite.c:795-798 | sides below 65536 survive the two header bytes |
| Sprite.Device.PutPixel | runtime/bgilite.c:482-487 | changes the one pixel at the viewport position, if it is on the device |
| Sprite.Device.GetPixel | runtime/bgilite.c:489-493 | the palette index nearest to the pixel; white outside the device |
| Sprite.Device.GetImage | runtime/bgilite.c:788-803 | writes the sides and, for each pixel of the rectangle, its index in its cell; stays inside the buffer |
| Sprite.Device.PutImage | runtime/bgilite.c:805-829 | combines each pixel of the rectangle with its cell by the operation, reading the old screen, and leaves every other pixel alone |
| Sprite.CopyRestores | runtime/bgilite.c:788-829 | copying back a palette pixel that was got from the same place changes nothing |
| Sprite.XorTwiceRestores | runtime/bgilite.c:819-826 | drawing a 4-bit image twice with XOR_PUT restores a palette pixel; once leaves it in the palette |
| Sprite.SaveThenRestore | runtime/bgilite.c:788-829 | getimage then COPY_PUT at the same place is the identity on a palette screen, off-screen parts included |
| Sprite.DrawThenErase | runtime/bgilite.c:805-829 | XOR_PUT of a 4-bit image twice is the identity on a palette screen |
| Icon.Le32RoundTrip | packaging/make_icon.py:110-111 | a packed 32-bit field is read back |
| Icon.LittleEndian | packaging/make_icon.py:183 | packed fields have their low byte first |
| Icon.BmpIconBytes | packaging/make_icon.py:160-184 | the loops build header, bottom-up colour plane and mask, and fail only when a header field does not fit |
| Icon.PackRow | packaging/make_icon.py:169-182 | the bit loop packs a row into bytes and padding |
| Icon.MaskBit | packaging/make_icon.py:171-178 | pixel x of a row has bit 7 - x mod 8 of byte x / 8, clear iff its alpha is 128 or more |
| Icon.AndRowMeaning | packaging/make_icon.py:166 | the padding aims at the least multiple of four bytes with a bit for every pixel |
| Icon.MaskRowLength | packaging/make_icon.py:177-182 | a mask row has the length the format asks for iff it is less than eight pixels wide |
| Icon.PlaneAt | packaging/make_icon.py:161-165 | where each pixel is stored in the colour plane |
| Icon.MaskAt | packaging/make_icon.py:168-182 | the mask rows are stored from the bottom up |
| Icon.HeaderLayout | packaging/make_icon.py:183-184 | every field of the header: its size, width, doubled height, one plane, 32 bits, no compression, data size, zeros |
| Icon.MaskBitAt | packaging/make_icon.py:160-184 | where the mask bit of each pixel is in the file, and that it is clear iff its alpha is 128 or more |
| Icon.DecodeEncoded | packaging/make_icon.py:108-184 | decoding an encoded image gives its width, height and every pixel |
| Icon.EncodableSizes | packaging/make_icon.py:183-184 | encoding succeeds iff width, doubled height and data size fit their fields |
| Icon.FileIsIco | packaging/make_icon.py:186-204 | in the file each directory entry has one plane, 32 bits and no palette, and its offset and size select exactly its blob; blobs are contiguous and the last ends the file |
| Icon.DimMeans | packaging/make_icon.py:191-201 | sides up to 256 are read back from the directory, 0 standing for 256, and the bitmaps come before the PNGs |
| Icon.WriteIco | packaging/make_icon.py:186-204 | writes such a file iff every count, dimension, size and offset fits its field, and fails otherwise |
| Scale.IndicesInside | packaging/make_icon.py:126-134 | source indices are always valid; the offset is a proper fraction, negative exactly on the top/left border |
| Scale.FallsBetween | packaging/make_icon.py:126-134 | the two source indices and the offset name the place of the target pixel |
| Scale.RampsKept | packaging/make_icon.py:126-141 | linear interpolation: where the target pixel falls between source pixels, a linear ramp is reproduced exactly |
| Scale.RoundMeaning | packaging/make_icon.py:142 | rounding goes to the nearest integer, from half-way to the even one |
| Scale.WeightsSumToOne | packaging/make_icon.py:136-139 | the four weights sum to 1, border included |
| Scale.Separable | packaging/make_icon.py:136-141 | the four-term sum is a blend of two blends |
| Scale.BlendBetween | packaging/make_icon.py:136-141 | with a proper fraction a blend stays between its ends |
| Scale.BlendOvershoots | packaging/make_icon.py:127-134 | with a negative offset it leaves them exactly when they differ |
| Scale.RangeKept | packaging/make_icon.py:126-142 | for all sizes and every target pixel: whatever the image, each channel stays in the range of its four source pixels iff the negative weights, known from the sizes alone, add up to less than 1/508 |
| Scale.WithinRange | packaging/make_icon.py:135-142 | below that bound rounding brings every channel back into the range |
| Scale.WorstLeaves | packaging/make_icon.py:135-142 | at or above it an image of 1 and 255 has a channel of 0 |
| Scale.Gather | packaging/make_icon.py:135-141 | the nested loops add up the four corners with their weights, channel by channel |
| Scale.ScalePixel | packaging/make_icon.py:126-142 | the loop body computes the clamped, rounded sample of each channel |
| Scale.ScaleImage | packaging/make_icon.py:122-143 | the loops fill the whole target, each channel of each pixel with its sample, and never index outside the source |
| Scale.SameSizeIsIdentity | packaging/make_icon.py:122-143 | scaling to the same size changes no channel |
| Scale.ConstantStaysConstant | packaging/make_icon.py:122-143 | a constant channel stays constant at every size, border included |
| Scale.StaysBetweenNeighbours | packaging/make_icon.py:122-143 | so away from the top/left border each channel lies between the least and greatest of its four neighbours |
| Scale.TopBorderOvershoots | packaging/make_icon.py:126-141 | on the top border the weighted sum lies strictly beyond the first row's value, away from the second row's, whenever the two differ |
| Scale.LeftBorderOvershoots | packaging/make_icon.py:126-141 | on the left border, strictly beyond the first column's |
| Scale.BorderLeavesNeighbours | packaging/make_icon.py:126-142 | a channel of 75 made from 100 and 200 |
| Bresenham.DrawLine | examples/graphics/bresenham_line.c:18-38 | for all endpoints the loop terminates and plots exactly the max(dx, dy) + 1 pixels of the closed form |
| Bresenham.StepKeepsTrack | examples/graphics/bresenham_line.c:28-36 | each pass steps the longer axis and keeps the deviation within half a pixel |
| Bresenham.Arrival | examples/graphics/bresenham_line.c:26-27 | both coordinates arrive exactly when the longer axis is used up |
| Bresenham.OnIdealLine | examples/graphics/bresenham_line.c:18-38 | the loop state determines the pixel: it is the rounded ideal line |
| Bresenham.NearestPixel | examples/graphics/bresenham_line.c:18-38 | every plotted pixel is within half a pixel of the ideal line, half-way only on the side of the start, and no other pixel of its column (or row) is nearer |
| Bresenham.Connected | examples/graphics/bresenham_line.c:18-38 | the plot starts and ends at the endpoints and moves, at most one in each axis and never backwards, at every step |
| Bresenham.ReverseAgrees | examples/graphics/bresenham_line.c:18-38 | drawing from the other end visits the same pixel iff the ideal line does not pass half-way between two there |
| Circle.DrawCircle | examples/graphics/midpoint_circle.c:18-39 | for every centre and radius the loop terminates and the plotted set is exactly the nearest pixels of one octant and their mirror images |
| Circle.PassKeeps | examples/graphics/midpoint_circle.c:31-37 | each pass keeps p = (x+1)^2 + y^2 - y - r^2 and y nearest to the true circle |
| Circle.OctantEnds | examples/graphics/midpoint_circle.c:22 | when the loop stops no pixel of the octant is left |
| Circle.NearestUnique | examples/graphics/midpoint_circle.c:22-37 | a column has at most one nearest pixel |
| Circle.NearestMeaning | examples/graphics/midpoint_circle.c:22-37 | a plotted pixel of the octant is one strictly within half a pixel of the true circle's height over its column |
| Circle.EightfoldSymmetry | examples/graphics/midpoint_circle.c:23-30 | the plotted set is closed under the eight symmetries and lies within the midpoint error bound |
| Circle.NoGap | examples/graphics/midpoint_circle.c:31-37 | neighbouring columns have touching pixels |
| Clip.ComputeCode | examples/graphics/line_clipping.c:16-24 | each outcode bit is set iff the point lies beyond its edge; zero iff it is in the window |
| Clip.Progress | examples/graphics/line_clipping.c:56-64 | clipping an end loses outcode bits, or gives it a bit the other end has, so that the next test rejects |
| Clip.AtMostFour | examples/graphics/line_clipping.c:32-66 | the work left never exceeds four |
| Clip.CrossIsCut | examples/graphics/line_clipping.c:42-54 | with exact division the new end is the point of the segment on the edge |
| Clip.CutKeeps | examples/graphics/line_clipping.c:39-64 | an exact clip keeps every point on the inner side and adds none |
| Clip.Convex | examples/graphics/line_clipping.c:36-37 | a segment with both ends beyond an edge is entirely beyond it, and one with both ends inside entirely inside |
| Clip.ProgressR | examples/graphics/line_clipping.c:32-66 | the exact loop terminates |
| Clip.ExactlyTheVisiblePart | examples/graphics/line_clipping.c:26-72 | with exact division what is drawn is precisely the part of the segment in the window, and nothing is drawn iff that part is empty |
| Clip.TDivBetween | examples/graphics/line_clipping.c:43-52 | C's truncating quotient of the intersection stays between 0 and the extent, for every sign |
| Clip.CrossInBox | examples/graphics/line_clipping.c:42-54 | the truncated intersection lies on its edge and in the box of the two ends |
| Clip.EdgeOf | examples/graphics/line_clipping.c:39-54 | the ends lie on different sides of the chosen edge, so the divisor is not zero |
| Clip.WhichCut | examples/graphics/line_clipping.c:39-64 | the first end is moved as long as it is outside, then the second; the cut is at the top if the end lies above, else at the bottom if below, else right, else left |
| Clip.ProgressZ | examples/graphics/line_clipping.c:32-66 | the integer loop terminates |
| Clip.Trail | examples/graphics/line_clipping.c:26-66 | the run of segments starts at the input and ends at a decided one |
| Clip.Intersect | examples/graphics/line_clipping.c:42-54 | the if-chain computes the intersection with the chosen edge and never divides by zero |
| Clip.ClipLine | examples/graphics/line_clipping.c:26-72 | the program's loop terminates and draws the end of that run, or nothing |
| Clip.ClippedUnfolds | examples/graphics/line_clipping.c:32-37 | a segment inside the window is drawn unchanged; one with both ends beyond an edge is not drawn |
| Clip.FewClips | examples/graphics/line_clipping.c:32-66 | at most four clips, whatever the input |
| Clip.TrailInBox | examples/graphics/line_clipping.c:38-65 | all intermediate ends stay in the bounding box of the input |
| Clip.DrawnInside | examples/graphics/line_clipping.c:68-71 | whatever is drawn has both ends in the window and in that box |
| Clip.EndInsideIsDrawn | examples/graphics/line_clipping.c:26-72 | a line with an end in the window is always drawn, and that end is kept |
| Clip.TDivNear | examples/graphics/line_clipping.c:43-52 | C's quotient is less than one away from the exact one, for every sign |
| Clip.TDivToward | examples/graphics/line_clipping.c:43-52 | C's quotient lies between zero and the exact one, for every sign |
| Clip.CrossIsNear | examples/graphics/line_clipping.c:42-54 | every intersection the program computes is less than one unit from the exact one in each coordinate, on the side of the first end |
| Clip.ExactCross | examples/graphics/line_clipping.c:42-54 | the truncated intersection is the exact one iff its quotient leaves no remainder |
| Clip.ExactPass | examples/graphics/line_clipping.c:38-65 | so is a whole pass of the loop |
| Clip.ExactTrail | examples/graphics/line_clipping.c:26-66 | for every input the loop goes through the segments of the exact loop iff no quotient on its way leaves a remainder |
| Clip.EvenClipIsExact | examples/graphics/line_clipping.c:26-72 | in that case it draws exactly the visible part |
| Clip.TruncationDrawsTooMuch | examples/graphics/line_clipping.c:42-54 | the line (520,361)-(521,359) misses the window, yet the program draws the pixel (520,360) |
| Clip.TruncationLosesALine | examples/graphics/line_clipping.c:42-54 | the line (97,408)-(141,-139) meets the window, and the program draws nothing |

## Left out

- Build.App.NeedsCompile: `App`'s constructor, `BuildSettingsChanged` and `RecordBuildSettings` have no row of their own; what the one record means is stated by `Build.SettingsCurrent`.
- Replace.TextWidget.ReplaceAll: is about the inputs on which the loop stops. Whether it does is decided by `Replace.NoLongerStops`, `Replace.ShrinksStops` and `Replace.ContainedStops`, except for a replacement longer than the needle that has at least as many of every folded character and does not contain it. Tk's own final newline and overlap rules of `search` at the stop index are not modelled: a match counts by where it starts.
- Highlight.HighlightIsFull: when a token of the whole text straddles the region's start the tokens disagree (`Highlight.WindowRefinesText`), though the tags may by chance come out the same; how Tk moves tags with an edit is a hypothesis of `Highlight.EditThenHighlight`; the tag "syn" and the unused `region_start_char` (line 608) are left out. Highlight.RetagRefinesFull is about the tags added only.
- Clip.EvenClipIsExact: one direction only; a division with a remainder may still happen to draw the visible part. The exact condition is given for the intersections, the passes and the whole way of the loop (`Clip.ExactTrail`).
- Clip.ClipLine: integers are unbounded, so overflow of the 32-bit products is not modelled; the same holds of Bresenham.DrawLine and Circle.DrawCircle, whose `delay` and text output are left out too.
- Folds.FoldView.UnfoldAll: headers are taken in an arbitrary order, as from a Python set; the gutter's copy of the fold tag, redrawing and `fold_all` are left out, and so is how Tk moves the tag when the text under it is edited.
- Brackets.FindMatch: works on offsets; the conversion of its result to line and column is `Lines`' subject.
- Scanner.PosInStringOrComment: the loops for the two quote characters are one method, and `find` is its specification, not Tk or Python code.
- Lexer.Colorize: the word lists and Python's character classes are a parameter, of which it is assumed that quotes, slash, `#` and newline are in no class, that letters are alphanumeric, and that no digit is a letter or the underscore; the number pattern is written out as a function.
- Runner.InvStep: the runner is a state value with steps, not a class, because the interleaving of its threads is the subject. Posting to the UI queue always succeeds, Popen raises only OSError, process ids are not reused, and each access to a shared field is atomic. The application's "running" flag, output reading, stdin and messages are left out; so is fairness: `Runner.NeverWedged` says that the lock can be freed, `Runner.RunsAreShort` bounds the steps that takes, and `Runner.StopOutcome` speaks of stops that return.
- Build.App.CollectHeaders: the include pattern is abstracted to the list of quoted names of a text and path arithmetic to a resolver; a file that exists can be opened. In histories executables are not themselves inputs, a build reads files and settings at its start, one build runs at a time and the program is not restarted meanwhile.
- Terminal.Terminal.Clear: tags, styles and the widget's enabled state are left out; pending text survives a clear, as in the program.
- Sprite.Device.GetImage: a null buffer, drawing before initgraph and the GDI clip region are left out; pixels outside the bitmap read as white, GetPixel's CLR_INVALID.
- Sprite.Device.PutImage: the colour wheel for colours above 15 is a parameter; with NOT_PUT or such colours no restoring property holds and none is stated.
- Icon.DecodeEncoded: decoding is stated for slices with offsets that are not negative; a header with a negative width or height gives empty rows.
- Icon.WriteIco: the two dictionaries are given as sorted items, and writing the bytes to disk is left out.
- Scale.ScaleImage: exact numbers instead of floating point; only rounding of the final channel is modelled.
- PNG encoding, reading icons from executables, vendored headers, Tk layout, dialogs, GDI drawing, the console library, the updater and the compiler-output parser are not part of this model.
- The ellipse and DDA examples use floating point and are not part of this model.
