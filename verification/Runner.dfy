/** The process runner of clite_ide/runner.py as an interleaving of its three kinds of thread.

    Every access to shared state is a step of its own. Callbacks on the UI thread (run, stop, a timer
    that fires) follow one another and never interleave among themselves; the launch thread and then
    the wait thread of a run interleave with them and with everything else. Runs are numbered in the
    order in which they acquire the lock, and a child, a timer and a thread carry their run's number. */
module Runner {
  import opened Wrappers

  /** Where the background part of a run is: the launch thread up to `Ready`, then the wait thread. */
  datatype Phase =
    | Starting     // lock acquired, still inside run()
    | Spawning     // before Popen
    | SpawnFailed  // Popen raised, before the release
    | Spawned      // child exists, before _stop_requested is read
    | StopSeen     // _stop_requested was set, before terminate
    | Terminated   // before the release
    | Publishing   // _stop_requested was clear, before process is set
    | Published    // before the timeout setting is looked at
    | TimerSet     // root.after has returned, before _timer_id is set
    | Ready        // before the wait thread starts
    | Waiting      // in proc.wait
    | Reaped       // before process is cleared
    | Cleared      // before _timer_id is tested
    | Cancelling   // before after_cancel
    | Cancelled    // before _timer_id is cleared
    | Finishing    // before the release
    | Done

  /** Who called _do_stop: the user, when `runs` runs had been started; the timeout of a run; or run(). */
  datatype Origin = ByStop(runs: nat) | ByTimeout(armedBy: nat) | ByRun(starting: nat)

  datatype Ui =
    | Idle
    | RunCheck(k: nat)      // is_running: `self.process is not None`
    | RunPoll(k: nat)       // is_running: `self.process.poll()`
    | RunReset(k: nat)      // before _stop_requested is cleared
    | RunLaunch(k: nat)     // before the launch thread starts
    | TimeoutCheck(j: nat)  // _timeout_kill: `self.process`
    | TimeoutPoll(j: nat)   // _timeout_kill: `self.process.poll()`
    | StopCheck(o: Origin)  // _do_stop: `not self.process`
    | StopTake(o: Origin)   // _do_stop: `proc = self.process`
    | StopKill(o: Origin, proc: Option<nat>)
    | StopClear(o: Origin)  // before process is cleared

  datatype Kill = Kill(origin: Origin, victim: nat)

  datatype State = State(
    lock: bool,
    process: Option<nat>,
    stopRequested: bool,
    timerId: Option<nat>,
    pending: set<nat>,   // timers the Tk loop will still fire
    alive: set<nat>,     // children that have not exited
    strays: set<nat>,    // children that proc.terminate failed on
    ui: Ui,
    runs: seq<Phase>,
    kills: seq<Kill>,    // every kill issued by _do_stop, in order
    acquires: nat,
    releases: nat)

  const Initial := State(false, None, false, None, {}, {}, {}, Idle, [], [], 0, 0)

  datatype Action =
    | CallRun | CallStop | Fire(j: nat)  // the UI thread starts a callback
    | UiStep(killed: bool)               // and carries it on; `killed`: the child died of it
    | Background(k: nat, ok: bool)       // next step of run k's launch or wait thread
    | ChildExits(k: nat)

  predicate Enabled(s: State, a: Action) {
    match a
    case CallRun => s.ui == Idle
    case CallStop => s.ui == Idle
    case Fire(j) => s.ui == Idle && j in s.pending
    case UiStep(_) => s.ui != Idle
    case Background(k, _) =>
      && k < |s.runs| && s.runs[k] != Starting && s.runs[k] != Done
      && (s.runs[k] == Waiting ==> k !in s.alive)
    case ChildExits(k) => k in s.alive
  }

  function Apply(s: State, a: Action): State
    requires Enabled(s, a)
  {
    match a
    case CallRun =>
      if s.lock then s  // refused: "A program is already running"
      else s.(lock := true, acquires := s.acquires + 1, runs := s.runs + [Starting], ui := RunCheck(|s.runs|))
    case CallStop => s.(stopRequested := true, ui := StopCheck(ByStop(|s.runs|)))
    case Fire(j) => s.(pending := s.pending - {j}, ui := TimeoutCheck(j))
    case UiStep(killed) => UiNext(s, killed)
    case Background(k, ok) => BackgroundNext(s, k, ok)
    case ChildExits(k) => s.(alive := s.alive - {k})
  }

  /** Where the UI thread goes when _do_stop returns. */
  function AfterStop(o: Origin): Ui {
    if o.ByRun? then RunReset(o.starting) else Idle
  }

  function UiNext(s: State, killed: bool): State
    requires s.ui != Idle
  {
    match s.ui
    case RunCheck(k) => s.(ui := if s.process.None? then RunReset(k) else RunPoll(k))
    case RunPoll(k) =>
      s.(ui := if s.process.Some? && s.process.value in s.alive then StopCheck(ByRun(k)) else RunReset(k))
    case RunReset(k) => s.(stopRequested := false, ui := RunLaunch(k))
    case RunLaunch(k) => if k < |s.runs| then s.(runs := s.runs[k := Spawning], ui := Idle) else s
    case TimeoutCheck(j) => s.(ui := if s.process.None? then Idle else TimeoutPoll(j))
    case TimeoutPoll(j) =>
      // process may have become None since the check: the callback then ends with an exception
      s.(ui := if s.process.Some? && s.process.value in s.alive then StopCheck(ByTimeout(j)) else Idle)
    case StopCheck(o) => s.(ui := if s.process.None? then AfterStop(o) else StopTake(o))
    case StopTake(o) => s.(ui := StopKill(o, s.process))
    case StopKill(o, proc) =>
      // a None taken here raises inside the try block and is swallowed
      if proc.Some? && proc.value in s.alive then
        s.(kills := s.kills + [Kill(o, proc.value)],
           alive := if killed then s.alive - {proc.value} else s.alive,
           ui := StopClear(o))
      else s.(ui := StopClear(o))
    case StopClear(o) => s.(process := None, ui := AfterStop(o))
  }

  /** A step of the launch or wait thread: what it does, and where the thread is then. */
  function BackgroundNext(s: State, k: nat, ok: bool): State
    requires k < |s.runs|
  {
    Effect(s, k, ok).(runs := s.runs[k := NextPhase(s, k, ok)])
  }

  function Effect(s: State, k: nat, ok: bool): State
    requires k < |s.runs|
  {
    match s.runs[k]
    case Spawning => if ok then s.(alive := s.alive + {k}) else s
    case StopSeen => if ok then s.(alive := s.alive - {k}) else s.(strays := s.strays + {k})
    case Publishing => s.(process := Some(k))
    case Published => if ok then s.(pending := s.pending + {k}) else s
    case TimerSet => s.(timerId := Some(k))
    case Reaped => s.(process := None)
    case Cancelling => if s.timerId.Some? then s.(pending := s.pending - {s.timerId.value}) else s
    case Cancelled => s.(timerId := None)
    case SpawnFailed | Terminated | Finishing => s.(lock := false, releases := s.releases + 1)
    case _ => s
  }

  /** `ok`: Popen succeeds; terminate does not raise; a positive run_timeout is configured. */
  function NextPhase(s: State, k: nat, ok: bool): Phase
    requires k < |s.runs|
  {
    match s.runs[k]
    case Starting => Starting
    case Spawning => if ok then Spawned else SpawnFailed
    case Spawned => if s.stopRequested then StopSeen else Publishing
    case StopSeen => Terminated
    case Publishing => Published
    case Published => if ok then TimerSet else Ready
    case TimerSet => Ready
    case Ready => Waiting
    case Waiting => Reaped
    case Reaped => Cleared
    case Cleared => if s.timerId.Some? then Cancelling else Finishing
    case Cancelling => Cancelled
    case Cancelled => Finishing
    case SpawnFailed | Terminated | Finishing | Done => Done
  }

  // ---------------------------------------------------------------- the invariant

  ghost predicate InRun(u: Ui) {
    u.RunCheck? || u.RunReset? || u.RunLaunch?
  }

  ghost predicate HasChild(p: Phase) {
    p.Published? || p.TimerSet? || p.Ready? || p.Waiting? || p.Reaped?
  }

  ghost predicate HasTimerId(p: Phase) {
    p.Ready? || p.Waiting? || p.Reaped? || p.Cleared? || p.Cancelling? || p.Cancelled?
  }

  ghost predicate MayFire(p: Phase) {
    p.TimerSet? || p.Ready? || p.Waiting? || p.Reaped? || p.Cleared? || p.Cancelling?
  }

  ghost predicate MayLive(p: Phase) {
    p.Spawned? || p.StopSeen? || p.Publishing? || p.Published? || p.TimerSet? || p.Ready? || p.Waiting?
  }

  /** The phase of the run that acquired the lock last. */
  function Last(s: State): Phase {
    if s.runs == [] then Done else s.runs[|s.runs| - 1]
  }

  ghost predicate Current(s: State, k: nat) {
    k == |s.runs| - 1
  }

  ghost predicate LockInv(s: State) {
    && (forall k :: 0 <= k < |s.runs| - 1 ==> s.runs[k] == Done)
    && (s.lock <==> Last(s) != Done)
    && s.acquires == |s.runs| && s.releases == s.acquires - (if s.lock then 1 else 0)
  }

  ghost predicate ChildInv(s: State) {
    && (s.process.Some? ==> Current(s, s.process.value) && HasChild(Last(s)))
    && (forall k :: k in s.alive && k !in s.strays ==> Current(s, k) && MayLive(Last(s)))
    && (forall k :: k in s.strays ==> k < |s.runs| && (Current(s, k) ==> Last(s) == Terminated || Last(s) == Done))
  }

  ghost predicate TimerInv(s: State) {
    && (s.timerId.Some? ==> Current(s, s.timerId.value) && HasTimerId(Last(s)))
    && (forall k :: k in s.pending ==>
          Current(s, k) && MayFire(Last(s)) && (Last(s) == TimerSet || s.timerId == Some(k)))
    && (Last(s) == Cancelling ==> s.timerId.Some?)
  }

  ghost predicate OriginInv(s: State, o: Origin) {
    match o
    case ByStop(n) => n == |s.runs|
    case ByTimeout(j) => Current(s, j)
    case ByRun(_) => false
  }

  ghost predicate UiInv(s: State) {
    UiRunInv(s) && UiStopInv(s)
  }

  ghost predicate UiRunInv(s: State) {
    && (InRun(s.ui) <==> Last(s) == Starting)
    && (InRun(s.ui) ==> Current(s, s.ui.k))
    && !s.ui.RunPoll?
  }

  ghost predicate UiStopInv(s: State) {
    && (s.ui.TimeoutCheck? || s.ui.TimeoutPoll? ==> Current(s, s.ui.j))
    && (s.ui.StopCheck? || s.ui.StopTake? || s.ui.StopKill? || s.ui.StopClear? ==> OriginInv(s, s.ui.o))
    && (s.ui.StopKill? && s.ui.proc.Some? ==> Current(s, s.ui.proc.value))
  }

  /** The victim is the child of the run that armed the timeout, or of the last one started before the
      user asked for the stop. */
  ghost predicate Deserved(d: Kill) {
    match d.origin
    case ByStop(n) => d.victim == n - 1
    case ByTimeout(j) => d.victim == j
    case ByRun(_) => false
  }

  ghost predicate KillInv(s: State) {
    forall i :: 0 <= i < |s.kills| ==> Deserved(s.kills[i])
  }

  ghost predicate Inv(s: State) {
    LockInv(s) && ChildInv(s) && TimerInv(s) && UiInv(s) && KillInv(s)
  }

  lemma InvInitial()
    ensures Inv(Initial)
  {
  }

  // A background step belongs to the current run and changes nothing of the UI thread.

  lemma BackgroundFrame(s: State, k: nat, ok: bool)
    requires Inv(s) && Enabled(s, Background(k, ok))
    ensures var s' := BackgroundNext(s, k, ok);
            && Current(s, k) && Last(s) == s.runs[k] && s.lock
            && |s'.runs| == |s.runs| && Last(s') == NextPhase(s, k, ok) && s'.runs == s.runs[k := Last(s')]
            && Last(s') != Starting && s'.ui == s.ui && s'.kills == s.kills && s'.acquires == s.acquires
            && s'.lock == (Last(s') != Done) && s'.releases == s.releases + (if s'.lock then 0 else 1)
  {
    hide ChildInv, TimerInv, UiInv, KillInv;
    assert Current(s, k) && Last(s) == s.runs[k];
  }

  lemma BackgroundLockAndUi(s: State, k: nat, ok: bool)
    requires Inv(s) && Enabled(s, Background(k, ok))
    ensures var s' := BackgroundNext(s, k, ok); LockInv(s') && UiInv(s') && KillInv(s')
  {
    BackgroundFrame(s, k, ok);
    hide BackgroundNext, ChildInv, TimerInv;
  }

  lemma BackgroundChild(s: State, k: nat, ok: bool)
    requires Inv(s) && Enabled(s, Background(k, ok))
    ensures var s' := BackgroundNext(s, k, ok); ChildInv(s')
  {
    BackgroundFrame(s, k, ok);
    ChildEffect(s, k, ok);
    hide TimerInv, KillInv, LockInv, UiInv, Effect, NextPhase, HasChild, MayLive;
  }

  /** Which steps touch `process` and the children, and where the run can go from there. */
  lemma ChildEffect(s: State, k: nat, ok: bool)
    requires Inv(s) && Enabled(s, Background(k, ok))
    ensures var s' := Effect(s, k, ok);
            var p, p' := s.runs[k], NextPhase(s, k, ok);
            && s'.process == (if p.Publishing? then Some(k) else if p.Reaped? then None else s.process)
            && s'.alive == (if p'.Spawned? then s.alive + {k} else if p.StopSeen? && ok then s.alive - {k} else s.alive)
            && s'.strays == (if p.StopSeen? && !ok then s.strays + {k} else s.strays)
            && (HasChild(p') <==> p.Publishing? || (HasChild(p) && !p.Reaped?))
            && (MayLive(p') <==> p'.Spawned? || (MayLive(p) && !p.StopSeen? && !p.Waiting?))
            && (p.StopSeen? ==> p'.Terminated?) && (p.Terminated? ==> p'.Done?)
            && (p.Waiting? ==> k !in s.alive) && !p'.Spawning? && s'.stopRequested == s.stopRequested
  {
    hide Inv;
  }

  lemma BackgroundTimer(s: State, k: nat, ok: bool)
    requires Inv(s) && Enabled(s, Background(k, ok))
    ensures var s' := BackgroundNext(s, k, ok); TimerInv(s')
  {
    BackgroundFrame(s, k, ok);
    TimerEffect(s, k, ok);
    hide ChildInv, KillInv, LockInv, UiInv, Effect, NextPhase, HasTimerId, MayFire;
  }

  /** Which steps touch the timer. */
  lemma TimerEffect(s: State, k: nat, ok: bool)
    requires Inv(s) && Enabled(s, Background(k, ok))
    ensures var s' := Effect(s, k, ok);
            var p, p' := s.runs[k], NextPhase(s, k, ok);
            && s'.timerId == (if p.TimerSet? then Some(k) else if p.Cancelled? then None else s.timerId)
            && s'.pending == (if p'.TimerSet? then s.pending + {k}
                              else if p.Cancelling? && s.timerId.Some? then s.pending - {s.timerId.value} else s.pending)
            && (HasTimerId(p') <==> p.TimerSet? || (p.Published? && !p'.TimerSet?)
                                    || (HasTimerId(p) && !p.Cancelled? && !p'.Finishing?))
            && (MayFire(p') <==> (p.Published? || (MayFire(p) && !p.Cancelling? && !p'.Finishing?)))
            && (p'.TimerSet? ==> p.Published?) && (p'.Cancelling? ==> s.timerId.Some?)
            && (p'.Finishing? <==> p.Cancelled? || (p.Cleared? && s.timerId.None?))
            && !HasTimerId(Published) && !MayFire(Published) && HasTimerId(Cancelling)
  {
    hide Inv;
  }

  // A step of the UI thread moves no run but the one it is starting.

  lemma UiLock(s: State, killed: bool)
    requires Inv(s) && s.ui != Idle
    ensures var s' := UiNext(s, killed); LockInv(s') && KillInv(s')
  {
    UiFrame(s, killed);
    hide TimerInv, ChildInv;
  }

  lemma UiChild(s: State, killed: bool)
    requires Inv(s) && s.ui != Idle
    ensures var s' := UiNext(s, killed); ChildInv(s')
  {
    hide TimerInv, KillInv, LockInv, Last;
    UiFrame(s, killed);
  }

  lemma UiTimer(s: State, killed: bool)
    requires Inv(s) && s.ui != Idle
    ensures var s' := UiNext(s, killed); TimerInv(s')
  {
    UiFrame(s, killed);
    hide ChildInv, KillInv;
  }

  lemma UiSelf(s: State, killed: bool)
    requires Inv(s) && s.ui != Idle
    ensures var s' := UiNext(s, killed); UiInv(s')
  {
    UiRun(s, killed);
    UiStop(s, killed);
    hide UiNext, Inv;
  }

  lemma UiRun(s: State, killed: bool)
    requires Inv(s) && s.ui != Idle
    ensures UiRunInv(UiNext(s, killed))
  {
    UiFrame(s, killed);
    hide TimerInv, KillInv, LockInv, Last;
  }

  lemma UiStop(s: State, killed: bool)
    requires Inv(s) && s.ui != Idle
    ensures UiStopInv(UiNext(s, killed))
  {
    UiFrame(s, killed);
    hide TimerInv, KillInv, LockInv, HasChild, MayLive, Last;
  }

  lemma UiFrame(s: State, killed: bool)
    requires Inv(s) && s.ui != Idle
    ensures var s' := UiNext(s, killed);
            |s'.runs| == |s.runs| && Last(s') == if s.ui.RunLaunch? then Spawning else Last(s)
  {
    hide TimerInv, KillInv, LockInv, ChildInv;
  }

  lemma InvStep(s: State, a: Action)
    requires Inv(s) && Enabled(s, a)
    ensures Inv(Apply(s, a))
  {
    hide UiNext, BackgroundNext;
    match a
    case CallRun =>
      RunKeeps(s);
    case CallStop =>
      hide TimerInv, ChildInv, KillInv;
    case Fire(j) =>
      hide ChildInv, KillInv;
    case UiStep(killed) =>
      UiLock(s, killed);
      UiChild(s, killed);
      UiTimer(s, killed);
      UiSelf(s, killed);
    case Background(k, ok) =>
      BackgroundLockAndUi(s, k, ok);
      BackgroundChild(s, k, ok);
      BackgroundTimer(s, k, ok);
    case ChildExits(k) =>
      hide TimerInv, KillInv;
  }

  lemma RunKeeps(s: State)
    requires Inv(s) && s.ui == Idle
    ensures Inv(Apply(s, CallRun))
  {
  }

  // ---------------------------------------------------------------- whole interleavings

  ghost predicate Step(s: State, s': State) {
    exists a :: Enabled(s, a) && s' == Apply(s, a)
  }

  /** A finite interleaving from the freshly created runner. */
  ghost predicate Behavior(tr: seq<State>) {
    && |tr| > 0 && tr[0] == Initial
    && forall i :: 0 <= i < |tr| - 1 ==> Step(tr[i], tr[i + 1])
  }

  lemma {:induction false} InvAlways(tr: seq<State>, i: nat)
    requires Behavior(tr) && i < |tr|
    ensures Inv(tr[i])
  {
    if i == 0 {
      InvInitial();
    } else {
      InvAlways(tr, i - 1);
      assert Step(tr[i - 1], tr[i - 1 + 1]);
      var a :| Enabled(tr[i - 1], a) && tr[i] == Apply(tr[i - 1], a);
      InvStep(tr[i - 1], a);
    }
  }

  /** A run lies between its acquire and its release. */
  ghost predicate Active(s: State, k: nat) {
    k < |s.runs| && s.runs[k] != Done
  }

  /** The lock is held iff exactly one run is active; it is released once per acquire; with the lock
      free nothing of a finished run is left behind in `process`, `_timer_id` or the Tk timers. */
  lemma LockDiscipline(tr: seq<State>, i: nat)
    requires Behavior(tr) && i < |tr|
    ensures var s := tr[i];
            && (s.lock <==> exists k :: Active(s, k))
            && (forall k, l :: Active(s, k) && Active(s, l) ==> k == l)
            && s.acquires == s.releases + (if s.lock then 1 else 0)
            && (!s.lock ==> s.process.None? && s.timerId.None? && s.pending == {})
  {
    InvAlways(tr, i);
    var s := tr[i];
    if s.lock { assert Active(s, |s.runs| - 1); }
  }

  /** `process` is the child of the active run; any other child still alive is one whose terminate
      failed; the branch of run() that stops a previous program is never entered. */
  lemma ProcessIsOwnChild(tr: seq<State>, i: nat)
    requires Behavior(tr) && i < |tr|
    ensures var s := tr[i];
            && (s.process.Some? ==> Active(s, s.process.value) && HasChild(s.runs[s.process.value]))
            && (forall k, l :: k in s.alive - s.strays && l in s.alive - s.strays ==> k == l)
            && !s.ui.RunPoll?
            && (s.ui.StopCheck? || s.ui.StopTake? || s.ui.StopKill? || s.ui.StopClear? ==> !s.ui.o.ByRun?)
  {
    InvAlways(tr, i);
  }

  /** A timeout only ever kills the child of the run that armed it, a stop that of the run in progress
      when it was asked for. */
  lemma KillsAreDeserved(tr: seq<State>, i: nat, k: nat)
    requires Behavior(tr) && i < |tr| && k < |tr[i].kills|
    ensures Deserved(tr[i].kills[k])
  {
    InvAlways(tr, i);
  }

  // ---------------------------------------------------------------- which stops take effect

  /** Run `k` has been stopped for good, or will find the flag set when it looks. */
  ghost predicate Doomed(s: State, k: nat) {
    k < |s.runs| &&
    match s.runs[k]
    case SpawnFailed | StopSeen | Terminated | Done => true
    case Spawning | Spawned => s.stopRequested
    case _ => false
  }

  lemma DoomedStep(s: State, a: Action, k: nat)
    requires Inv(s) && Enabled(s, a) && Doomed(s, k)
    ensures Doomed(Apply(s, a), k)
  {
    hide ChildInv, TimerInv, KillInv;
    match a
    case UiStep(killed) =>
      hide BackgroundNext;
    case Background(b, ok) =>
      hide UiNext, UiInv;
      assert Last(s) == s.runs[b];
    case _ =>
      hide UiNext, BackgroundNext;
  }

  /** A stop requested before the launch thread reads the flag keeps the child from being published,
      whatever happens afterwards. */
  lemma {:induction false} EarlyStopWorks(tr: seq<State>, i: nat, j: nat, k: nat)
    requires Behavior(tr) && i <= j < |tr| && Doomed(tr[i], k)
    ensures Doomed(tr[j], k) && tr[j].process != Some(k)
    decreases j
  {
    hide Apply, Enabled, Inv, Doomed;
    if i < j {
      EarlyStopWorks(tr, i, j - 1, k);
      InvAlways(tr, j - 1);
      assert Step(tr[j - 1], tr[j - 1 + 1]);
      var a :| Enabled(tr[j - 1], a) && tr[j] == Apply(tr[j - 1], a);
      DoomedStep(tr[j - 1], a, k);
    }
    InvAlways(tr, j);
    DoomedNotPublished(tr[j], k);
  }

  lemma DoomedNotPublished(s: State, k: nat)
    requires Inv(s) && Doomed(s, k)
    ensures s.process != Some(k)
  {
  }

  // ---------------------------------------------------------------- only stopped runs are stopped

  /** A stop was called before position `i`, when run `k` was the last one started. */
  ghost predicate StopCalled(tr: seq<State>, i: nat, k: nat) {
    exists j: nat :: StopAt(tr, j, k) && j < i
  }

  ghost predicate StopAt(tr: seq<State>, j: nat, k: nat) {
    j + 1 < |tr| && |tr[j].runs| == k + 1 && tr[j].ui == Idle && tr[j + 1] == Apply(tr[j], CallStop)
  }

  /** Between the launch of a run and the next one the flag is up only if a stop was called since. */
  ghost predicate FlagInv(tr: seq<State>, i: nat)
    requires i < |tr|
  {
    var s := tr[i];
    && (s.ui.RunLaunch? ==> !s.stopRequested)
    && (s.runs != [] && !Last(s).Starting? && s.stopRequested ==> StopCalled(tr, i, |s.runs| - 1))
  }

  lemma {:induction false} FlagAlways(tr: seq<State>, i: nat)
    requires Behavior(tr) && i < |tr|
    ensures FlagInv(tr, i)
  {
    hide FlagInv, Inv, Apply, Enabled;
    if i == 0 {
      FlagInitially(tr);
    } else {
      FlagAlways(tr, i - 1);
      InvAlways(tr, i - 1);
      assert Step(tr[i - 1], tr[i - 1 + 1]);
      var a :| Enabled(tr[i - 1], a) && tr[i] == Apply(tr[i - 1], a);
      FlagStep(tr, i - 1, i, a);
    }
  }

  lemma FlagInitially(tr: seq<State>)
    requires |tr| > 0 && tr[0] == Initial
    ensures FlagInv(tr, 0)
  {
  }

  lemma FlagStep(tr: seq<State>, h: nat, i: nat, a: Action)
    requires i == h + 1 < |tr| && Inv(tr[h]) && Enabled(tr[h], a) && tr[i] == Apply(tr[h], a) && FlagInv(tr, h)
    ensures FlagInv(tr, i)
  {
    FlagMoves(tr[h], a);
    var k := |tr[h].runs| - 1;
    if a.CallStop? && k >= 0 {
      assert StopAt(tr, h, k);
      assert StopCalled(tr, i, k);
    } else if k >= 0 && StopCalled(tr, h, k) {
      StopCalledLater(tr, h, i, k);
    }
    hide Apply, Enabled, Inv, Last, StopCalled;
  }

  lemma StopCalledLater(tr: seq<State>, h: nat, i: nat, k: nat)
    requires h <= i && StopCalled(tr, h, k)
    ensures StopCalled(tr, i, k)
  {
    var j: nat :| StopAt(tr, j, k) && j < h;
    assert StopAt(tr, j, k) && j < i;
  }

  /** What a step does to the flag. */
  lemma FlagMoves(s: State, a: Action)
    requires Inv(s) && Enabled(s, a)
    ensures var s' := Apply(s, a);
            && (a.CallStop? ==> s.ui == Idle && s'.runs == s.runs)
            && (s'.stopRequested ==> s.stopRequested || a.CallStop?)
            && (s'.ui.RunLaunch? ==> s.ui.RunLaunch? || !s'.stopRequested)
            && (s'.ui.RunLaunch? && s.ui.RunLaunch? ==> s'.stopRequested == s.stopRequested)
            && (s'.runs != [] && !Last(s').Starting? ==>
                  |s'.runs| == |s.runs| && (!Last(s).Starting? || s.ui.RunLaunch?))
  {
    hide UiNext, BackgroundNext;
    match a
    case UiStep(killed) =>
      UiFlag(s, killed);
      hide Inv;
    case Background(k, ok) =>
      BackgroundFrame(s, k, ok);
      ChildEffect(s, k, ok);
      BackgroundFlag(s, k, ok);
      hide Inv, Enabled;
    case _ =>
  }

  lemma BackgroundFlag(s: State, k: nat, ok: bool)
    requires k < |s.runs|
    ensures BackgroundNext(s, k, ok).stopRequested == s.stopRequested && BackgroundNext(s, k, ok).ui == s.ui
  {
  }

  lemma UiFlag(s: State, killed: bool)
    requires Inv(s) && s.ui != Idle
    ensures var s' := UiNext(s, killed);
            && s'.stopRequested == (s.stopRequested && !s.ui.RunReset?)
            && (s'.ui.RunLaunch? <==> s.ui.RunReset?) && |s'.runs| == |s.runs|
            && (!Last(s').Starting? ==> !Last(s).Starting? || s.ui.RunLaunch?)
  {
    UiFrame(s, killed);
    hide TimerInv, KillInv, ChildInv, LockInv;
  }

  /** A launched child is terminated only if stop was called after its run took the lock. */
  lemma OnlyStoppedRunsStop(tr: seq<State>, i: nat, k: nat)
    requires Behavior(tr) && i + 1 < |tr| && k < |tr[i].runs| == |tr[i + 1].runs|
    requires tr[i].runs[k] == Spawned && tr[i + 1].runs[k] == StopSeen
    ensures StopCalled(tr, i, k)
  {
    FlagAlways(tr, i);
    InvAlways(tr, i);
    var s := tr[i];
    assert Step(s, tr[i + 1]);
    var a :| Enabled(s, a) && tr[i + 1] == Apply(s, a);
    FlagRead(s, a, k);
  }

  lemma FlagRead(s: State, a: Action, k: nat)
    requires Inv(s) && Enabled(s, a) && k < |s.runs| == |Apply(s, a).runs|
    requires s.runs[k] == Spawned && Apply(s, a).runs[k] == StopSeen
    ensures s.stopRequested && k == |s.runs| - 1 && Last(s) == Spawned
  {
    hide TimerInv, KillInv, ChildInv;
  }

  // ---------------------------------------------------------------- what a stop does

  /** The child of run `k` has come and gone. */
  ghost predicate Exited(s: State, k: nat) {
    k < |s.runs| && !s.runs[k].Starting? && !s.runs[k].Spawning? && k !in s.alive
  }

  ghost predicate InStop(u: Ui, o: Origin) {
    (u.StopCheck? || u.StopTake? || u.StopKill? || u.StopClear?) && u.o == o
  }

  /** A stop, from the call at `a` over the test of `process` at `c` to the return at `b`, other threads
      interleaving as they like. */
  ghost predicate StopCall(tr: seq<State>, a: nat, c: nat, b: nat) {
    && a < c < b < |tr| && tr[a].ui == Idle && tr[a + 1] == Apply(tr[a], CallStop)
    && (forall j :: a < j <= c ==> tr[j].ui.StopCheck?) && !tr[c + 1].ui.StopCheck?
    && (forall j :: c < j < b ==> tr[j].ui != Idle) && tr[b].ui == Idle
  }

  /** The stop changed nothing for run `k`: its child lives on and may be published, and no kill was issued. */
  ghost predicate Lost(before: State, after: State, k: nat) {
    after.kills == before.kills && !Doomed(after, k) && !Exited(after, k)
  }

  /** Where a stop stands that was called with `kills` issued and run `k` the last one started. */
  ghost predicate Stopping(s: State, k: nat, kills: seq<Kill>) {
    var o := ByStop(k + 1);
    && Current(s, k) && !s.runs[k].Starting? && InStop(s.ui, o)
    && match s.ui
       case StopCheck(_) => s.kills == kills && s.stopRequested
       case StopTake(_) => s.kills == kills && !s.runs[k].Spawning? && (s.process == Some(k) || Exited(s, k))
       case StopKill(_, proc) => s.kills == kills && !s.runs[k].Spawning? && (proc == Some(k) || Exited(s, k))
       case StopClear(_) => s.kills == kills + [Kill(o, k)] || (s.kills == kills && Exited(s, k))
       case _ => false
  }

  /** Where it ends up: it killed the child, or found it gone. */
  ghost predicate Stopped(s: State, k: nat, kills: seq<Kill>) {
    s.kills == kills + [Kill(ByStop(k + 1), k)] || (s.kills == kills && Exited(s, k))
  }

  /** A step of the stop itself. */
  lemma StopProceeds(s: State, k: nat, kills: seq<Kill>, killed: bool)
    requires Inv(s) && Stopping(s, k, kills)
    ensures var s' := UiNext(s, killed);
            && (s'.ui == Idle || Stopping(s', k, kills))
            && (s'.ui == Idle && !s.ui.StopCheck? ==> Stopped(s', k, kills))
            && (s.ui.StopCheck? && s.process.None? ==> s' == s.(ui := Idle))
            && (s.ui.StopCheck? && s.process.Some? ==> s'.ui.StopTake? && s.process == Some(k))
            && !s'.ui.StopCheck? && (s.ui.StopKill? && killed ==> k !in s'.alive)
  {
    hide TimerInv, KillInv, LockInv;
  }

  /** A step of another thread meanwhile. */
  lemma StopWaits(s: State, a: Action, k: nat, kills: seq<Kill>)
    requires Inv(s) && Stopping(s, k, kills) && Enabled(s, a) && !a.UiStep?
    ensures Stopping(Apply(s, a), k, kills) && Apply(s, a).ui == s.ui
  {
    hide UiNext;
    match a
    case Background(j, ok) =>
      BackgroundFrame(s, j, ok);
      ChildEffect(s, j, ok);
      hide TimerInv, KillInv, UiInv, LockInv, Effect, NextPhase, Enabled, MayLive;
    case ChildExits(_) =>
      hide BackgroundNext, Inv;
  }

  /** What is known of a stop while it lasts. */
  lemma {:induction false} StopLasts(tr: seq<State>, a: nat, c: nat, b: nat, j: nat)
    requires Behavior(tr) && StopCall(tr, a, c, b) && a < j < b && tr[a].runs != [] && Last(tr[a]) != Done
    ensures Stopping(tr[j], |tr[a].runs| - 1, tr[a].kills)
    ensures j > c ==> !tr[j].ui.StopCheck?
  {
    hide Inv, Apply, Stopping, UiNext, BackgroundNext, Enabled;
    if j == a + 1 {
      InvAlways(tr, a);
      StopBegins(tr[a]);
    } else {
      StopLasts(tr, a, c, b, j - 1);
      StopStep(tr, j - 1, |tr[a].runs| - 1, tr[a].kills);
      assert tr[j].ui != Idle;
    }
  }

  lemma StopBegins(s: State)
    requires Inv(s) && s.ui == Idle && s.runs != [] && Last(s) != Done
    ensures Stopping(Apply(s, CallStop), |s.runs| - 1, s.kills)
  {
  }

  lemma StopStep(tr: seq<State>, i: nat, k: nat, kills: seq<Kill>)
    requires Behavior(tr) && i < |tr| - 1 && Stopping(tr[i], k, kills)
    ensures tr[i + 1].ui == Idle || Stopping(tr[i + 1], k, kills)
    ensures tr[i + 1].ui == Idle && !tr[i].ui.StopCheck? ==> Stopped(tr[i + 1], k, kills)
    ensures !tr[i].ui.StopCheck? ==> !tr[i + 1].ui.StopCheck?
    ensures tr[i].ui.StopCheck? && !tr[i + 1].ui.StopCheck? ==>
              if tr[i].process.Some? then tr[i + 1].ui.StopTake? && tr[i].process == Some(k)
              else tr[i + 1] == tr[i].(ui := Idle)
  {
    hide Inv, Stopping, Stopped;
    InvAlways(tr, i);
    assert Step(tr[i], tr[i + 1]);
    var a :| Enabled(tr[i], a) && tr[i + 1] == Apply(tr[i], a);
    StoppingMeans(tr[i], k, kills);
    hide UiNext, BackgroundNext;
    if a.UiStep? {
      StopProceeds(tr[i], k, kills, a.killed);
    } else {
      StopWaits(tr[i], a, k, kills);
    }
  }

  lemma StoppingMeans(s: State, k: nat, kills: seq<Kill>)
    requires Stopping(s, k, kills)
    ensures s.ui != Idle
  {
  }

  /** A stop called while run `k` is active is lost exactly when it finds no `process` although the
      launch thread has already read the flag and the child lives. */
  lemma StopOutcome(tr: seq<State>, a: nat, c: nat, b: nat)
    requires Behavior(tr) && StopCall(tr, a, c, b) && tr[a].runs != [] && Last(tr[a]) != Done
    ensures var k := |tr[a].runs| - 1;
            && (Lost(tr[a], tr[b], k) <==> tr[c].process.None? && !Doomed(tr[c], k) && !Exited(tr[c], k))
            && (tr[b].kills == tr[a].kills || tr[b].kills == tr[a].kills + [Kill(ByStop(k + 1), k)])
  {
    hide Behavior, Inv, Doomed, Exited;
    var k := |tr[a].runs| - 1;
    StopLasts(tr, a, c, b, c);
    StopStep(tr, c, k, tr[a].kills);
    if tr[c].process.Some? {
      assert c + 1 != b;
      StopLasts(tr, a, c, b, b - 1);
      StopStep(tr, b - 1, k, tr[a].kills);
    } else {
      assert tr[c + 1].ui == Idle && c + 1 == b;
      SameRun(tr[c], k);
    }
  }

  lemma SameRun(s: State, k: nat)
    ensures Doomed(s.(ui := Idle), k) == Doomed(s, k) && Exited(s.(ui := Idle), k) == Exited(s, k)
  {
  }

  // ---------------------------------------------------------------- what a timeout does

  /** With a run_timeout configured the launch thread arms the timer of its run, whose child is published. */
  lemma TimeoutArms(s: State, k: nat)
    requires Inv(s) && Enabled(s, Background(k, true)) && s.runs[k] == Published
    ensures var s' := Apply(s, Background(k, true));
            k in s'.pending && s'.runs[k] == TimerSet && s'.process == s.process
  {
    hide Inv;
  }

  /** An armed timer stays until it fires or its own run cancels it. */
  lemma TimerStays(s: State, a: Action, k: nat)
    requires Inv(s) && Enabled(s, a) && k in s.pending && k < |s.runs|
    ensures k in Apply(s, a).pending || a == Fire(k) || (a.Background? && a.k == k && s.runs[k] == Cancelling)
  {
    match a
    case UiStep(killed) =>
      UiPending(s, killed);
      hide Inv, UiNext;
    case Background(j, ok) =>
      BackgroundFrame(s, j, ok);
      TimerEffect(s, j, ok);
      hide UiNext, Effect, NextPhase, Enabled, LockInv, ChildInv, UiInv, KillInv, HasTimerId, MayFire;
    case _ =>
      hide Inv, UiNext, BackgroundNext;
  }

  lemma UiPending(s: State, killed: bool)
    requires s.ui != Idle
    ensures UiNext(s, killed).pending == s.pending
  {
  }

  /** `process` is the child of run `k`, or that child is gone. */
  ghost predicate OnTarget(process: Option<nat>, s: State, k: nat) {
    process == Some(k) || Exited(s, k)
  }

  /** Where the timeout of run `k` stands that fired with `kills` issued. */
  ghost predicate TimingOut(s: State, k: nat, kills: seq<Kill>) {
    var o := ByTimeout(k);
    && Current(s, k) && !s.runs[k].Starting? && !s.runs[k].Spawning?
    && match s.ui
       case TimeoutCheck(j) => j == k && s.kills == kills
       case TimeoutPoll(j) => j == k && s.kills == kills && OnTarget(s.process, s, k)
       case StopCheck(p) => p == o && s.kills == kills && OnTarget(s.process, s, k)
       case StopTake(p) => p == o && s.kills == kills && OnTarget(s.process, s, k)
       case StopKill(p, proc) => p == o && s.kills == kills && OnTarget(proc, s, k)
       case StopClear(p) => p == o && TimedOut(s, k, kills)
       case _ => false
  }

  ghost predicate TimedOut(s: State, k: nat, kills: seq<Kill>) {
    s.kills == kills + [Kill(ByTimeout(k), k)] || (s.kills == kills && Exited(s, k))
  }

  lemma TimeoutProceeds(s: State, k: nat, kills: seq<Kill>, killed: bool)
    requires Inv(s) && TimingOut(s, k, kills)
    ensures var s' := UiNext(s, killed);
            && (s'.ui == Idle || TimingOut(s', k, kills)) && !s'.ui.TimeoutCheck?
            && (s'.ui == Idle && !s.ui.TimeoutCheck? ==> TimedOut(s', k, kills))
            && (s.ui.TimeoutCheck? ==> if s.process.None? then s' == s.(ui := Idle) else s'.ui.TimeoutPoll?)
            && (s.ui.StopKill? && killed ==> k !in s'.alive)
  {
    hide TimerInv, KillInv, LockInv;
  }

  lemma TimeoutWaits(s: State, a: Action, k: nat, kills: seq<Kill>)
    requires Inv(s) && TimingOut(s, k, kills) && Enabled(s, a) && !a.UiStep?
    ensures TimingOut(Apply(s, a), k, kills) && Apply(s, a).ui == s.ui
  {
    hide UiNext;
    match a
    case Background(j, ok) =>
      BackgroundFrame(s, j, ok);
      ChildEffect(s, j, ok);
      hide TimerInv, KillInv, UiInv, LockInv, Effect, NextPhase, Enabled, MayLive;
    case ChildExits(_) =>
      hide BackgroundNext, Inv;
  }

  /** A timeout of run `k`, from its firing at `a` over the test of `process` at `c` to the return at `b`. */
  ghost predicate FireCall(tr: seq<State>, k: nat, a: nat, c: nat, b: nat) {
    && a < c < b < |tr| && tr[a].ui == Idle && k in tr[a].pending && tr[a + 1] == Apply(tr[a], Fire(k))
    && (forall j :: a < j <= c ==> tr[j].ui.TimeoutCheck?) && !tr[c + 1].ui.TimeoutCheck?
    && (forall j :: c < j < b ==> tr[j].ui != Idle) && tr[b].ui == Idle
  }

  lemma FireBegins(s: State, k: nat)
    requires Inv(s) && s.ui == Idle && k in s.pending
    ensures TimingOut(Apply(s, Fire(k)), k, s.kills)
  {
    hide ChildInv, KillInv, LockInv, UiInv;
  }

  lemma FireStep(tr: seq<State>, i: nat, k: nat, kills: seq<Kill>)
    requires Behavior(tr) && i < |tr| - 1 && TimingOut(tr[i], k, kills)
    ensures tr[i + 1].ui == Idle || TimingOut(tr[i + 1], k, kills)
    ensures tr[i + 1].ui == Idle && !tr[i].ui.TimeoutCheck? ==> TimedOut(tr[i + 1], k, kills)
    ensures !tr[i].ui.TimeoutCheck? ==> !tr[i + 1].ui.TimeoutCheck?
    ensures tr[i].ui.TimeoutCheck? && !tr[i + 1].ui.TimeoutCheck? ==>
              if tr[i].process.None? then tr[i + 1] == tr[i].(ui := Idle) else tr[i + 1].ui.TimeoutPoll?
  {
    hide Inv, TimingOut, TimedOut;
    InvAlways(tr, i);
    assert Step(tr[i], tr[i + 1]);
    var a :| Enabled(tr[i], a) && tr[i + 1] == Apply(tr[i], a);
    assert tr[i].ui != Idle by { TimingOutMeans(tr[i], k, kills); }
    hide UiNext, BackgroundNext;
    if a.UiStep? {
      TimeoutProceeds(tr[i], k, kills, a.killed);
    } else {
      TimeoutWaits(tr[i], a, k, kills);
    }
  }

  lemma TimingOutMeans(s: State, k: nat, kills: seq<Kill>)
    requires TimingOut(s, k, kills)
    ensures s.ui != Idle && (s.ui.TimeoutCheck? ==> s.kills == kills)
  {
  }

  lemma {:induction false} FireLasts(tr: seq<State>, k: nat, a: nat, c: nat, b: nat, j: nat)
    requires Behavior(tr) && FireCall(tr, k, a, c, b) && a < j < b
    ensures TimingOut(tr[j], k, tr[a].kills)
    ensures j > c ==> !tr[j].ui.TimeoutCheck?
  {
    hide Inv, Apply, TimingOut, UiNext, BackgroundNext, Enabled;
    if j == a + 1 {
      InvAlways(tr, a);
      FireBegins(tr[a], k);
    } else {
      FireLasts(tr, k, a, c, b, j - 1);
      FireStep(tr, j - 1, k, tr[a].kills);
      assert tr[j].ui != Idle;
    }
  }

  /** A timeout kills the child of its run, or finds it gone, unless it finds no `process` while the child
      lives: then, and only then, it does nothing. */
  lemma TimeoutOutcome(tr: seq<State>, k: nat, a: nat, c: nat, b: nat)
    requires Behavior(tr) && FireCall(tr, k, a, c, b)
    ensures tr[b].kills == tr[a].kills && !Exited(tr[b], k) <==> tr[c].process.None? && !Exited(tr[c], k)
    ensures tr[b].kills == tr[a].kills || tr[b].kills == tr[a].kills + [Kill(ByTimeout(k), k)]
  {
    hide Behavior, Inv, Exited, TimingOut;
    FireLasts(tr, k, a, c, b, c);
    FireStep(tr, c, k, tr[a].kills);
    TimingOutMeans(tr[c], k, tr[a].kills);
    if tr[c].process.Some? {
      assert c + 1 != b;
      FireLasts(tr, k, a, c, b, b - 1);
      FireStep(tr, b - 1, k, tr[a].kills);
    } else {
      assert tr[c + 1].ui == Idle && c + 1 == b;
      SameRun(tr[c], k);
    }
  }

  /** A lost stop: it falls between the reading of the flag and the setting of `process`, and the child
      is then published alive. */
  lemma StopInBetweenIsLost() returns (tr: seq<State>)
    ensures Behavior(tr) && StopCall(tr, 6, 7, 8) && Lost(tr[6], tr[8], 0)
    ensures |tr| == 10 && tr[9].process == Some(0) && 0 in tr[9].alive && tr[9].kills == []
  {
    var s6 := Initial.(lock := true, acquires := 1, runs := [Publishing], alive := {0});
    var head := ToWindow();
    var s7 := Apply(s6, CallStop);
    var s8 := Apply(s7, UiStep(false));
    var s9 := Apply(s8, Background(0, true));
    tr := head + [s7, s8, s9];
    assert Step(s6, s7) && Step(s7, s8) && Step(s8, s9);
    assert tr[6] == s6 && tr[7] == s7 && tr[8] == s8 && tr[9] == s9;
  }

  /** The way to that window. */
  lemma ToWindow() returns (tr: seq<State>)
    ensures Behavior(tr) && |tr| == 7
    ensures tr[6] == Initial.(lock := true, acquires := 1, runs := [Publishing], alive := {0})
  {
    var s1 := Apply(Initial, CallRun);
    var s2 := Apply(s1, UiStep(false));
    var s3 := Apply(s2, UiStep(false));
    var s4 := Apply(s3, UiStep(false));
    var s5 := Apply(s4, Background(0, true));
    var s6 := Apply(s5, Background(0, true));
    tr := [Initial, s1, s2, s3, s4, s5, s6];
    assert Step(Initial, s1) && Step(s1, s2) && Step(s2, s3) && Step(s3, s4) && Step(s4, s5) && Step(s5, s6);
  }

  // ---------------------------------------------------------------- a kill that fails

  /** Run `k` goes on with a live child and without `process`, and nobody is about to kill it. */
  ghost predicate Forsaken(s: State, k: nat) {
    && Current(s, k) && s.process.None? && k in s.alive
    && (s.runs[k].Published? || s.runs[k].TimerSet? || s.runs[k].Ready? || s.runs[k].Waiting?)
    && (s.ui.StopKill? ==> s.ui.proc.None?)
  }

  lemma ForsakenStep(s: State, a: Action, k: nat)
    requires Inv(s) && Enabled(s, a) && Forsaken(s, k)
    ensures var s' := Apply(s, a);
            s'.kills == s.kills && (k in s'.alive ==> Forsaken(s', k))
  {
    hide TimerInv, KillInv;
    if a.Background? { assert Last(s) == s.runs[a.k]; }
  }

  /** Once a kill has not killed and `process` is cleared all the same, no stop and no timeout does
      anything more: as long as the child lives it stays so, whatever happens. */
  lemma {:induction false} NothingKillsForsaken(tr: seq<State>, i: nat, j: nat, k: nat)
    requires Behavior(tr) && i <= j < |tr| && Forsaken(tr[i], k)
    requires forall m :: i <= m <= j ==> k in tr[m].alive
    ensures tr[j].kills == tr[i].kills && Forsaken(tr[j], k)
    decreases j
  {
    hide Apply, Enabled, Inv, Forsaken;
    if i < j {
      NothingKillsForsaken(tr, i, j - 1, k);
      InvAlways(tr, j - 1);
      assert Step(tr[j - 1], tr[j - 1 + 1]);
      var a :| Enabled(tr[j - 1], a) && tr[j] == Apply(tr[j - 1], a);
      ForsakenStep(tr[j - 1], a, k);
    }
  }

  /** A run comes to that by a stop whose kill fails. */
  lemma FailedKillForsakes() returns (tr: seq<State>)
    ensures Behavior(tr) && |tr| == 13 && tr[12].kills == [Kill(ByStop(1), 0)] && Forsaken(tr[12], 0)
  {
    tr := ToWindow();
    var published := Initial.(lock := true, acquires := 1, runs := [Published], process := Some(0), alive := {0});
    var stopping := published.(stopRequested := true);
    var o := ByStop(1);
    var killed := stopping.(kills := [Kill(o, 0)]);
    tr := Onward(tr, Background(0, true), published);
    tr := Onward(tr, CallStop, stopping.(ui := StopCheck(o)));
    tr := Onward(tr, UiStep(false), stopping.(ui := StopTake(o)));
    tr := Onward(tr, UiStep(false), stopping.(ui := StopKill(o, Some(0))));
    tr := Onward(tr, UiStep(false), killed.(ui := StopClear(o)));
    tr := Onward(tr, UiStep(false), killed.(ui := Idle, process := None));
  }

  /** One more step at the end of a behaviour. */
  ghost function Onward(tr: seq<State>, a: Action, s: State): (r: seq<State>)
    requires Behavior(tr) && Enabled(tr[|tr| - 1], a) && s == Apply(tr[|tr| - 1], a)
    ensures Behavior(r) && r == tr + [s]
  {
    assert Step(tr[|tr| - 1], s);
    tr + [s]
  }

  // ---------------------------------------------------------------- the lock is never wedged

  ghost predicate Possible(s: State, acts: seq<Action>)
    decreases |acts|
  {
    acts == [] || (Enabled(s, acts[0]) && Possible(Apply(s, acts[0]), acts[1..]))
  }

  ghost function After(s: State, acts: seq<Action>): State
    requires Possible(s, acts)
    decreases |acts|
  {
    if acts == [] then s else After(Apply(s, acts[0]), acts[1..])
  }

  /** Steps left on the longest way to the release. */
  ghost function Rank(s: State): nat {
    match Last(s)
    case Starting => 16 + (match s.ui case RunCheck(_) => 3 case RunReset(_) => 2 case RunLaunch(_) => 1 case _ => 0)
    case p => PhaseRank(p, |s.runs| - 1 in s.alive)
  }

  ghost function PhaseRank(p: Phase, alive: bool): nat {
    match p
    case Starting => 16
    case Spawning => 15
    case Spawned => 14
    case Publishing => 13
    case Published => 12
    case TimerSet => 11
    case Ready => 10
    case Waiting => if alive then 9 else 8
    case Reaped => 7
    case Cleared => 6
    case Cancelling => 5
    case Cancelled => 4
    case Finishing => 3
    case StopSeen => 3
    case SpawnFailed => 2
    case Terminated => 2
    case Done => 0
  }

  /** From every reachable state the lock can be released again. */
  lemma {:induction false} NeverWedged(s: State) returns (acts: seq<Action>)
    requires Inv(s)
    ensures Possible(s, acts) && !After(s, acts).lock
    decreases Rank(s)
  {
    if !s.lock {
      acts := [];
    } else {
      var a := TowardsRelease(s);
      InvStep(s, a);
      var rest := NeverWedged(Apply(s, a));
      acts := [a] + rest;
      assert acts[1..] == rest;
    }
  }

  lemma TowardsRelease(s: State) returns (a: Action)
    requires Inv(s) && s.lock
    ensures Enabled(s, a) && Rank(Apply(s, a)) < Rank(s)
  {
    var k := |s.runs| - 1;
    if Last(s) == Starting {
      a := UiStep(false);
    } else if Last(s) == Waiting && k in s.alive {
      a := ChildExits(k);
    } else {
      a := Background(k, true);
    }
  }

  /** A step of the launch or wait thread, or of run(). */
  ghost predicate Advances(s: State, a: Action) {
    a.Background? || (a.UiStep? && InRun(s.ui))
  }

  /** While the lock is held no step takes the run further from its release, and every one of its own
      steps takes it nearer, however Popen, terminate and the settings turn out. */
  lemma RankFalls(s: State, a: Action)
    requires Inv(s) && Enabled(s, a) && s.lock
    ensures Rank(Apply(s, a)) <= Rank(s)
    ensures Advances(s, a) ==> Rank(Apply(s, a)) < Rank(s)
  {
    hide UiNext, BackgroundNext, PhaseRank;
    match a
    case CallRun =>
    case CallStop =>
      hide Inv;
    case Fire(_) =>
      hide Inv;
    case UiStep(killed) =>
      UiFalls(s, killed);
      hide Inv;
    case Background(k, ok) =>
      BackgroundFrame(s, k, ok);
      PhaseFalls(s, k, ok, k in BackgroundNext(s, k, ok).alive);
      hide Inv, NextPhase, Effect;
    case ChildExits(k) =>
      ExitFalls(Last(s));
      hide Inv;
  }

  lemma ExitFalls(p: Phase)
    ensures PhaseRank(p, false) <= PhaseRank(p, true)
  {
  }

  lemma PhaseFalls(s: State, k: nat, ok: bool, alive: bool)
    requires Enabled(s, Background(k, ok))
    ensures PhaseRank(NextPhase(s, k, ok), alive) < PhaseRank(s.runs[k], k in s.alive)
    ensures !NextPhase(s, k, ok).Starting?
  {
  }

  lemma UiFalls(s: State, killed: bool)
    requires Inv(s) && s.ui != Idle && s.lock
    ensures Rank(UiNext(s, killed)) <= Rank(s) && (InRun(s.ui) ==> Rank(UiNext(s, killed)) < Rank(s))
  {
    UiFrame(s, killed);
    ExitFalls(Last(s));
    UiKills(s, killed);
    hide BackgroundNext, TimerInv, KillInv, ChildInv, LockInv, Last;
    if s.ui.RunLaunch? { assert PhaseRank(Spawning, false) == PhaseRank(Spawning, true) == 15; }
    hide PhaseRank;
  }

  lemma UiKills(s: State, killed: bool)
    requires s.ui != Idle
    ensures UiNext(s, killed).alive <= s.alive
  {
  }

  /** The lock is held before each of the steps. */
  ghost predicate LockedThroughout(s: State, acts: seq<Action>)
    requires Possible(s, acts)
    decreases |acts|
  {
    acts == [] || (s.lock && LockedThroughout(Apply(s, acts[0]), acts[1..]))
  }

  /** How many of the steps are the run's own. */
  ghost function OwnSteps(s: State, acts: seq<Action>): nat
    requires Possible(s, acts)
    decreases |acts|
  {
    if acts == [] then 0
    else (if Advances(s, acts[0]) then 1 else 0) + OwnSteps(Apply(s, acts[0]), acts[1..])
  }

  /** So a run releases the lock after at most nineteen steps of its own, however the others interleave. */
  lemma {:induction false} RunsAreShort(s: State, acts: seq<Action>)
    requires Inv(s) && Possible(s, acts) && LockedThroughout(s, acts)
    ensures OwnSteps(s, acts) + Rank(After(s, acts)) <= Rank(s) <= 19
    decreases |acts|
  {
    hide Inv, Enabled, Apply, Rank, Advances;
    RankBounded(s);
    if acts != [] {
      var s' := Apply(s, acts[0]);
      InvStep(s, acts[0]);
      RankFalls(s, acts[0]);
      RunsAreShort(s', acts[1..]);
    }
  }

  lemma RankBounded(s: State)
    ensures Rank(s) <= 19
  {
  }
}
