/** The incremental build check of clite_ide/app.py: `_collect_headers`, `_needs_compile` and the
    build settings, and what skipping a rebuild means over a whole history of edits and builds. */
module Build {
  import opened Wrappers

  type Path = string

  /** A text as the include scanner sees it: the quoted names of its include lines in order, and
      everything else. */
  datatype Content = Content(includes: seq<string>, rest: string)

  datatype File = File(content: Content, mtime: int)

  type Files = map<Path, File>

  /** Where an include written in a file points: normpath(join(dirname(file), name)). */
  type Resolver = (Path, string) -> Path

  datatype Settings = Settings(compilerPath: string, extraFlags: string)

  // ---------------------------------------------------------------- the include graph

  /** The include targets of `p`, none when `p` cannot be opened. */
  function Targets(r: Resolver, files: Files, p: Path): seq<Path> {
    if p in files then seq(|files[p].content.includes|, i requires 0 <= i < |files[p].content.includes| =>
                             r(p, files[p].content.includes[i]))
    else []
  }

  /** `c` follows include edges from a source file, one edge at least. */
  ghost predicate IsChain(r: Resolver, files: Files, sources: seq<Path>, c: seq<Path>) {
    && |c| >= 2 && c[0] in sources
    && forall i :: 0 < i < |c| ==> c[i] in Targets(r, files, c[i - 1])
  }

  ghost predicate Included(r: Resolver, files: Files, sources: seq<Path>, p: Path) {
    exists c :: IsChain(r, files, sources, c) && c[|c| - 1] == p
  }

  ghost function AllTargets(r: Resolver, files: Files): set<Path> {
    set p, q | p in files && q in Targets(r, files, p) :: q
  }

  lemma OneEdge(r: Resolver, files: Files, sources: seq<Path>, p: Path, q: Path)
    requires p in sources || Included(r, files, sources, p)
    requires q in Targets(r, files, p)
    ensures Included(r, files, sources, q)
  {
    if p in sources {
      assert IsChain(r, files, sources, [p, q]);
    } else {
      var c :| IsChain(r, files, sources, c) && c[|c| - 1] == p;
      assert IsChain(r, files, sources, c + [q]);
    }
  }

  lemma {:induction false} ClosedHoldsAll(r: Resolver, files: Files, sources: seq<Path>, s: set<Path>, c: seq<Path>)
    requires IsChain(r, files, sources, c)
    requires forall p, q :: (p in sources || p in s) && q in Targets(r, files, p) ==> q in s
    ensures c[|c| - 1] in s
  {
    if |c| > 2 {
      ClosedHoldsAll(r, files, sources, s, c[..|c| - 1]);
    }
    assert c[|c| - 2] in sources || c[|c| - 2] in s;
  }

  ghost predicate Distinct(s: seq<Path>) {
    forall i, j :: 0 <= i < j < |s| ==> s[i] != s[j]
  }

  /** What `_collect_headers` still has to do: everything found is queued, done or the file `open`
      that is being scanned, and a file that is done has all its targets found. */
  ghost predicate Searching(r: Resolver, files: Files, sources: seq<Path>, visited: set<Path>,
                            result: seq<Path>, queue: seq<Path>, done: set<Path>, open: set<Path>) {
    && Distinct(result) && (forall p :: p in result <==> p in visited)
    && (forall p :: p in visited ==> Included(r, files, sources, p))
    && (forall p :: p in queue || p in open ==> p in sources || p in visited)
    && (forall p :: p in sources || p in visited ==> p in queue || p in done || p in open)
    && (forall p, q :: p in done && q in Targets(r, files, p) ==> q in visited)
    && visited <= AllTargets(r, files)
  }

  lemma SearchStarts(r: Resolver, files: Files, sources: seq<Path>)
    ensures Searching(r, files, sources, {}, [], sources, {}, {})
  {
  }

  lemma SearchEnds(r: Resolver, files: Files, sources: seq<Path>, visited: set<Path>,
                   result: seq<Path>, done: set<Path>)
    requires Searching(r, files, sources, visited, result, [], done, {})
    ensures Distinct(result)
    ensures forall p :: p in result <==> Included(r, files, sources, p)
  {
    forall p | Included(r, files, sources, p)
      ensures p in visited
    {
      var c :| IsChain(r, files, sources, c) && c[|c| - 1] == p;
      ClosedHoldsAll(r, files, sources, visited, c);
    }
  }

  lemma SearchPops(r: Resolver, files: Files, sources: seq<Path>, visited: set<Path>,
                   result: seq<Path>, queue: seq<Path>, done: set<Path>)
    requires |queue| > 0 && Searching(r, files, sources, visited, result, queue, done, {})
    ensures Searching(r, files, sources, visited, result, queue[1..], done, {queue[0]})
  {
    assert queue == [queue[0]] + queue[1..];
  }

  lemma SearchFinds(r: Resolver, files: Files, sources: seq<Path>, visited: set<Path>,
                    result: seq<Path>, queue: seq<Path>, done: set<Path>, src: Path, inc: Path)
    requires Searching(r, files, sources, visited, result, queue, done, {src})
    requires inc in Targets(r, files, src) && inc !in visited
    ensures inc in AllTargets(r, files)
    ensures Searching(r, files, sources, visited + {inc}, result + [inc], queue + [inc], done, {src})
  {
    OneEdge(r, files, sources, src, inc);
    assert src in files;
  }

  lemma TargetsInOrder(r: Resolver, files: Files, p: Path)
    ensures p !in files ==> Targets(r, files, p) == []
    ensures p in files ==>
              && |Targets(r, files, p)| == |files[p].content.includes|
              && forall i :: 0 <= i < |files[p].content.includes| ==>
                   Targets(r, files, p)[i] == r(p, files[p].content.includes[i])
  {
  }

  lemma SearchCloses(r: Resolver, files: Files, sources: seq<Path>, visited: set<Path>,
                     result: seq<Path>, queue: seq<Path>, done: set<Path>, src: Path)
    requires Searching(r, files, sources, visited, result, queue, done, {src})
    requires forall q :: q in Targets(r, files, src) ==> q in visited
    ensures Searching(r, files, sources, visited, result, queue, done + {src}, {})
  {
  }

  class App {
    const resolve: Resolver
    var settings: Settings
    var lastBuildSettings: Option<Settings>

    constructor (resolve: Resolver, settings: Settings)
      ensures this.resolve == resolve && this.settings == settings && lastBuildSettings == None
    {
      this.resolve := resolve;
      this.settings := settings;
      lastBuildSettings := None;
    }

    /** The queue search over the include graph: it ends on cyclic includes and lists every file
        reached by one include edge or more, once. */
    method CollectHeaders(files: Files, sources: seq<Path>) returns (result: seq<Path>)
      ensures Distinct(result)
      ensures forall p :: p in result <==> Included(resolve, files, sources, p)
    {
      hide Searching, Targets, AllTargets, Included, Distinct;
      var visited: set<Path> := {};
      result := [];
      var queue := sources;
      ghost var done: set<Path> := {};
      SearchStarts(resolve, files, sources);
      while |queue| > 0
        invariant Searching(resolve, files, sources, visited, result, queue, done, {})
        decreases AllTargets(resolve, files) - visited, |queue|
      {
        SearchPops(resolve, files, sources, visited, result, queue, done);
        var src := queue[0];
        queue := queue[1..];
        ghost var targets := Targets(resolve, files, src);
        ghost var before, rest := visited, queue;
        TargetsInOrder(resolve, files, src);
        if src in files {
          var names := files[src].content.includes;
          var i := 0;
          while i < |names|
            invariant 0 <= i <= |names| == |targets|
            invariant Searching(resolve, files, sources, visited, result, queue, done, {src})
            invariant forall k :: 0 <= k < i ==> targets[k] in visited
            invariant before <= visited && (visited == before ==> queue == rest)
          {
            var inc := resolve(src, names[i]);
            assert inc == targets[i];
            if inc !in visited {
              SearchFinds(resolve, files, sources, visited, result, queue, done, src, inc);
              visited := visited + {inc};
              result := result + [inc];
              queue := queue + [inc];
            }
            i := i + 1;
          }
        }
        SearchCloses(resolve, files, sources, visited, result, queue, done, src);
        done := done + {src};
      }
      SearchEnds(resolve, files, sources, visited, result, done);
    }

    /** True iff settings were recorded in this session and differ from the current ones. */
    method BuildSettingsChanged() returns (changed: bool)
      ensures changed <==> lastBuildSettings.Some? && lastBuildSettings.value != settings
    {
      changed := lastBuildSettings != None && lastBuildSettings != Some(settings);
    }

    method RecordBuildSettings()
      modifies this`lastBuildSettings
      ensures lastBuildSettings == Some(settings)
    {
      lastBuildSettings := Some(settings);
    }

    /** `exeMtime` is the stamp of the executable, None when there is no such file. */
    method NeedsCompile(files: Files, exeMtime: Option<int>, sources: seq<Path>) returns (needed: bool)
      ensures needed <==> Stale(resolve, files, exeMtime, sources, settings, lastBuildSettings)
    {
      if exeMtime == None { return true; }
      var i := 0;
      while i < |sources|
        invariant 0 <= i <= |sources|
        invariant forall k :: 0 <= k < i ==> !NewerThan(files, sources[k], exeMtime.value)
      {
        if sources[i] in files && files[sources[i]].mtime > exeMtime.value {
          assert IsInput(resolve, files, sources, sources[i]) && NewerThan(files, sources[i], exeMtime.value);
          return true;
        }
        i := i + 1;
      }
      var headers := CollectHeaders(files, sources);
      i := 0;
      while i < |headers|
        invariant 0 <= i <= |headers|
        invariant forall k :: 0 <= k < i ==> !NewerThan(files, headers[k], exeMtime.value)
      {
        if headers[i] in files && files[headers[i]].mtime > exeMtime.value {
          assert IsInput(resolve, files, sources, headers[i]) && NewerThan(files, headers[i], exeMtime.value);
          return true;
        }
        i := i + 1;
      }
      forall p | IsInput(resolve, files, sources, p)
        ensures !NewerThan(files, p, exeMtime.value)
      {
        assert p in sources || p in headers;
      }
      needed := BuildSettingsChanged();
    }
  }

  // ---------------------------------------------------------------- what the check decides

  predicate NewerThan(files: Files, p: Path, stamp: int) {
    p in files && files[p].mtime > stamp
  }

  /** A file the compiler looks at: a source, or a local header included directly or not. */
  ghost predicate IsInput(r: Resolver, files: Files, sources: seq<Path>, p: Path) {
    p in sources || Included(r, files, sources, p)
  }

  ghost predicate Stale(r: Resolver, files: Files, exeMtime: Option<int>, sources: seq<Path>,
                        settings: Settings, last: Option<Settings>) {
    || exeMtime.None?
    || (exists p :: IsInput(r, files, sources, p) && NewerThan(files, p, exeMtime.value))
    || (last.Some? && last.value != settings)
  }

  // ---------------------------------------------------------------- histories of edits and builds

  /** What the compiler reads when a build starts, and when that is. */
  datatype Snapshot = Snapshot(sources: seq<Path>, files: Files, settings: Settings, at: int)

  /** An executable and, for the statements below, what it was made from. */
  datatype Exe = Exe(mtime: int, built: Snapshot)

  /** The recorded settings and, for the statements below, when they were recorded. */
  datatype Record = Record(settings: Settings, at: int)

  /** The build in progress; `written` once the executable is in place. */
  datatype Job = Job(exe: Path, from: Snapshot, written: bool)

  /** One record of settings serves all executables. */
  datatype World = World(
    files: Files,
    clock: int,
    settings: Settings,
    last: Option<Record>,
    exes: map<Path, Exe>,
    job: Option<Job>)

  datatype Event =
    | Write(path: Path, content: Content)
    | Delete(path: Path)
    | DeleteExe(exe: Path)
    | ChangeSettings(settings: Settings)
    | Restart                    // a new session forgets the recorded settings
    | BuildStarts(exe: Path, sources: seq<Path>)
    | ExeWritten
    | BuildEnds(success: bool)   // the callback on the UI thread

  predicate CanHappen(w: World, e: Event) {
    match e
    case BuildStarts(_, _) => w.job.None?
    case ExeWritten => w.job.Some? && !w.job.value.written
    case BuildEnds(success) => w.job.Some? && (success ==> w.job.value.written)
    case Restart => w.job.None?
    case _ => true
  }

  /** Every event takes a tick; what it writes is stamped with the new time. */
  function Happen(w: World, e: Event): World
    requires CanHappen(w, e)
  {
    var now := w.clock + 1;
    match e
    case Write(p, c) => w.(clock := now, files := w.files[p := File(c, now)])
    case Delete(p) => w.(clock := now, files := w.files - {p})
    case DeleteExe(x) => w.(clock := now, exes := w.exes - {x})
    case ChangeSettings(k) => w.(clock := now, settings := k)
    case Restart => w.(clock := now, last := None)
    case BuildStarts(x, sources) =>
      w.(clock := now, job := Some(Job(x, Snapshot(sources, w.files, w.settings, w.clock), false)))
    case ExeWritten =>
      var j := w.job.value;
      w.(clock := now, job := Some(j.(written := true)), exes := w.exes[j.exe := Exe(now, j.from)])
    case BuildEnds(success) =>
      w.(clock := now, job := None, last := if success then Some(Record(w.settings, w.clock)) else w.last)
  }

  ghost predicate Initial(w: World) {
    && w.last.None? && w.exes == map[] && w.job.None?
    && forall p :: p in w.files ==> w.files[p].mtime <= w.clock
  }

  ghost predicate Step(w: World, w': World) {
    exists e :: CanHappen(w, e) && w' == Happen(w, e)
  }

  ghost predicate History(ws: seq<World>) {
    && |ws| > 0 && Initial(ws[0])
    && forall i :: 0 <= i < |ws| - 1 ==> Step(ws[i], ws[i + 1])
  }

  /** A file not stamped after the snapshot is the file of the snapshot. */
  ghost predicate Witnesses(w: World, b: Snapshot) {
    && b.at <= w.clock
    && forall p :: p in w.files && w.files[p].mtime <= b.at ==> p in b.files && b.files[p] == w.files[p]
  }

  ghost predicate Inv(w: World) {
    && (forall p :: p in w.files ==> w.files[p].mtime <= w.clock)
    && (w.job.Some? ==> Witnesses(w, w.job.value.from))
    && (forall x :: x in w.exes ==> Witnesses(w, w.exes[x].built) && w.exes[x].built.at < w.exes[x].mtime <= w.clock)
  }

  lemma InvHolds(w: World, e: Event)
    requires Inv(w) && CanHappen(w, e)
    ensures Inv(Happen(w, e))
  {
    var w' := Happen(w, e);
    forall b | Witnesses(w, b)
      ensures Witnesses(w', b)
    {
      WitnessesLast(w, e, b);
    }
    hide Witnesses;
    if e.BuildStarts? { WitnessesNow(w, e.sources); }
  }

  lemma WitnessesNow(w: World, sources: seq<Path>)
    requires Inv(w)
    ensures Witnesses(w, Snapshot(sources, w.files, w.settings, w.clock))
  {
  }

  lemma WitnessesLast(w: World, e: Event, b: Snapshot)
    requires CanHappen(w, e) && Witnesses(w, b)
    ensures Witnesses(Happen(w, e), b)
  {
  }

  lemma {:induction false} InvAlways(ws: seq<World>, i: nat)
    requires History(ws) && i < |ws|
    ensures Inv(ws[i])
  {
    if i > 0 {
      InvAlways(ws, i - 1);
      assert Step(ws[i - 1], ws[i - 1 + 1]);
      var e :| CanHappen(ws[i - 1], e) && ws[i] == Happen(ws[i - 1], e);
      InvHolds(ws[i - 1], e);
    }
  }

  // ---------------------------------------------------------------- are the files current?

  ghost predicate Skips(w: World, x: Path, r: Resolver, sources: seq<Path>) {
    && x in w.exes
    && !Stale(r, w.files, Some(w.exes[x].mtime), sources, w.settings,
              if w.last.Some? then Some(w.last.value.settings) else None)
  }

  /** The file is now as the build read it, or missing now as then. */
  ghost predicate Unchanged(w: World, x: Exe, p: Path) {
    var was := x.built.files;
    (p in w.files <==> p in was) && (p in w.files ==> w.files[p].content == was[p].content)
  }

  /** Since the build read it the file was given new content, and last stamped no later than the executable. */
  ghost predicate EditedDuring(w: World, x: Exe, p: Path) {
    && p in w.files && x.built.at < w.files[p].mtime <= x.mtime
    && (p in x.built.files ==> w.files[p].content != x.built.files[p].content)
  }

  ghost predicate Deleted(w: World, x: Exe, p: Path) {
    p in x.built.files && p !in w.files
  }

  /** A file the executable was made from. */
  ghost predicate MadeFrom(x: Exe, r: Resolver, p: Path) {
    IsInput(r, x.built.files, x.built.sources, p)
  }

  /** Nothing the executable was made from was deleted, or edited while the build ran. */
  ghost predicate Undisturbed(w: World, x: Exe, r: Resolver) {
    forall p :: MadeFrom(x, r, p) ==> !Deleted(w, x, p) && !EditedDuring(w, x, p)
  }

  lemma InputUnchanged(w: World, x: Path, r: Resolver, sources: seq<Path>, p: Path)
    requires Inv(w) && Skips(w, x, r, sources) && IsInput(r, w.files, sources, p)
    ensures Unchanged(w, w.exes[x], p) <==> !Deleted(w, w.exes[x], p) && !EditedDuring(w, w.exes[x], p)
  {
    if p in w.files {
      assert !NewerThan(w.files, p, w.exes[x].mtime);
    }
  }

  lemma TargetsUnchanged(w: World, x: Exe, r: Resolver, p: Path)
    requires Unchanged(w, x, p)
    ensures Targets(r, w.files, p) == Targets(r, x.built.files, p)
  {
  }

  /** One edge at the end of a chain. */
  lemma ChainExtends(r: Resolver, files: Files, sources: seq<Path>, c: seq<Path>)
    requires |c| >= 2 && c[|c| - 1] in Targets(r, files, c[|c| - 2])
    requires if |c| == 2 then c[0] in sources else IsChain(r, files, sources, c[..|c| - 1])
    ensures IsChain(r, files, sources, c)
  {
    hide Targets;
    var n := |c|;
    forall i | 0 < i < n
      ensures c[i] in Targets(r, files, c[i - 1])
    {
      if i < n - 1 { assert c[..n - 1][i] in Targets(r, files, c[..n - 1][i - 1]); }
    }
  }

  lemma ChainShrinks(r: Resolver, files: Files, sources: seq<Path>, c: seq<Path>)
    requires IsChain(r, files, sources, c)
    ensures |c| >= 2
    ensures IsInput(r, files, sources, c[|c| - 2]) && c[|c| - 1] in Targets(r, files, c[|c| - 2])
    ensures |c| > 2 ==> IsChain(r, files, sources, c[..|c| - 1])
  {
    hide Targets;
    var n := |c|;
    if n > 2 {
      var d := c[..n - 1];
      assert IsChain(r, files, sources, d) && d[|d| - 1] == c[n - 2];
    }
  }

  /** As long as the inputs up to some point are unchanged, the include edges are too. */
  lemma {:induction false} ChainSurvives(w: World, x: Path, r: Resolver, sources: seq<Path>, c: seq<Path>)
    requires Inv(w) && Skips(w, x, r, sources) && w.exes[x].built.sources == sources && Undisturbed(w, w.exes[x], r)
    requires IsChain(r, w.exes[x].built.files, sources, c)
    ensures IsChain(r, w.files, sources, c)
  {
    hide Targets, IsChain, Inv, Stale, Unchanged;
    var was := w.exes[x].built.files;
    ChainShrinks(r, was, sources, c);
    var p := c[|c| - 2];
    assert IsInput(r, w.files, sources, p) by {
      if |c| > 2 {
        ChainSurvives(w, x, r, sources, c[..|c| - 1]);
        ChainShrinks(r, w.files, sources, c[..|c| - 1]);
        EndIncluded(r, w.files, sources, c[..|c| - 1]);
      } else {
        SourceFirst(r, was, sources, c);
      }
    }
    assert MadeFrom(w.exes[x], r, p);
    InputUnchanged(w, x, r, sources, p);
    TargetsUnchanged(w, w.exes[x], r, p);
    if |c| > 2 { ChainSurvives(w, x, r, sources, c[..|c| - 1]); } else { SourceFirst(r, was, sources, c); }
    ChainExtends(r, w.files, sources, c);
  }

  lemma EndIncluded(r: Resolver, files: Files, sources: seq<Path>, c: seq<Path>)
    requires IsChain(r, files, sources, c)
    ensures Included(r, files, sources, c[|c| - 1])
  {
  }

  lemma SourceFirst(r: Resolver, files: Files, sources: seq<Path>, c: seq<Path>)
    requires IsChain(r, files, sources, c)
    ensures c[0] in sources
  {
  }

  /** The executable is what these sources make: it was built from them, and every one of them and of the
      headers they include is as the compiler read it. */
  ghost predicate UpToDate(w: World, x: Exe, r: Resolver, sources: seq<Path>) {
    x.built.sources == sources && forall p :: MadeFrom(x, r, p) ==> Unchanged(w, x, p)
  }

  /** When the check lets a build be skipped the executable is up to date exactly when it was built from
      the sources in question, and nothing it was made from has been deleted since, or edited while the
      build was running. */
  lemma SkippedBuildIsCurrent(ws: seq<World>, i: nat, x: Path, r: Resolver, sources: seq<Path>)
    requires History(ws) && i < |ws| && Skips(ws[i], x, r, sources)
    ensures UpToDate(ws[i], ws[i].exes[x], r, sources)
            <==> ws[i].exes[x].built.sources == sources && Undisturbed(ws[i], ws[i].exes[x], r)
  {
    InvAlways(ws, i);
    hide Inv, Stale, IsChain;
    var w := ws[i];
    if w.exes[x].built.sources == sources && Undisturbed(w, w.exes[x], r) {
      forall p | MadeFrom(w.exes[x], r, p)
        ensures Unchanged(w, w.exes[x], p)
      {
        if p !in sources {
          var c :| IsChain(r, w.exes[x].built.files, sources, c) && c[|c| - 1] == p;
          ChainSurvives(w, x, r, sources, c);
        }
        InputUnchanged(w, x, r, sources, p);
      }
    }
  }

  /** Equal include lines in all the files reached give the same chains. */
  lemma {:induction false} ChainBack(r: Resolver, was: Files, now: Files, sources: seq<Path>, c: seq<Path>)
    requires IsChain(r, now, sources, c)
    requires forall p :: IsInput(r, was, sources, p) ==> Targets(r, now, p) == Targets(r, was, p)
    ensures IsChain(r, was, sources, c)
  {
    hide Targets, IsChain;
    ChainShrinks(r, now, sources, c);
    SourceFirst(r, now, sources, c);
    if |c| > 2 {
      ChainBack(r, was, now, sources, c[..|c| - 1]);
      EndIncluded(r, was, sources, c[..|c| - 1]);
    }
    assert IsInput(r, was, sources, c[|c| - 2]);
    ChainExtends(r, was, sources, c);
  }

  /** In that case a build would look at the very same files. */
  lemma SkippedBuildHasSameInputs(ws: seq<World>, i: nat, x: Path, r: Resolver, sources: seq<Path>, q: Path)
    requires History(ws) && i < |ws| && Skips(ws[i], x, r, sources)
    requires ws[i].exes[x].built.sources == sources && Undisturbed(ws[i], ws[i].exes[x], r)
    ensures IsInput(r, ws[i].files, sources, q) <==> MadeFrom(ws[i].exes[x], r, q)
  {
    InvAlways(ws, i);
    SkippedBuildIsCurrent(ws, i, x, r, sources);
    hide Inv, Stale, IsChain, Undisturbed, Unchanged, Targets;
    var w := ws[i];
    var was := w.exes[x].built.files;
    if Included(r, was, sources, q) {
      var c :| IsChain(r, was, sources, c) && c[|c| - 1] == q;
      ChainSurvives(w, x, r, sources, c);
    }
    if Included(r, w.files, sources, q) {
      var c :| IsChain(r, w.files, sources, c) && c[|c| - 1] == q;
      forall p | IsInput(r, was, sources, p)
        ensures Targets(r, w.files, p) == Targets(r, was, p)
      {
        assert MadeFrom(w.exes[x], r, p);
        TargetsUnchanged(w, w.exes[x], r, p);
      }
      ChainBack(r, was, w.files, sources, c);
    }
  }

  // ---------------------------------------------------------------- are the settings current?

  /** The time `t` as a position in the history. */
  function When(ws: seq<World>, t: int): int
    requires |ws| > 0
  {
    t - ws[0].clock
  }

  /** At time `t` of the history, and no later than position `i`, the settings were `k`. */
  ghost predicate SetThen(ws: seq<World>, i: int, t: int, k: Settings)
    requires |ws| > 0
  {
    var j := When(ws, t);
    0 <= j <= i && j < |ws| && ws[j].settings == k
  }

  /** Stamps are positions in the history, and settings kept in a snapshot or a record those of its time. */
  ghost predicate Dated(ws: seq<World>, i: nat)
    requires i < |ws|
  {
    var w := ws[i];
    && When(ws, w.clock) == i
    && (w.job.Some? ==> SetThen(ws, i, w.job.value.from.at, w.job.value.from.settings))
    && (forall x :: x in w.exes ==> SetThen(ws, i, w.exes[x].built.at, w.exes[x].built.settings))
    && (w.last.Some? ==> SetThen(ws, i, w.last.value.at, w.last.value.settings))
  }

  lemma {:induction false} DatedAlways(ws: seq<World>, i: nat)
    requires History(ws) && i < |ws|
    ensures Dated(ws, i)
  {
    if i > 0 {
      DatedAlways(ws, i - 1);
      assert Step(ws[i - 1], ws[i - 1 + 1]);
      var e :| CanHappen(ws[i - 1], e) && ws[i] == Happen(ws[i - 1], e);
      DatedStep(ws, i - 1, i, e);
    }
  }

  lemma DatedStep(ws: seq<World>, h: nat, i: nat, e: Event)
    requires i == h + 1 < |ws| && Dated(ws, h) && CanHappen(ws[h], e) && ws[i] == Happen(ws[h], e)
    ensures Dated(ws, i)
  {
    StillSet(ws, h, i);
    hide SetThen;
  }

  lemma StillSet(ws: seq<World>, h: nat, i: nat)
    requires i == h + 1 < |ws| && When(ws, ws[h].clock) == h
    ensures SetThen(ws, i, ws[h].clock, ws[h].settings)
    ensures forall t, k :: SetThen(ws, h, t, k) ==> SetThen(ws, i, t, k)
  {
  }

  /** When the build that made the executable started. */
  function Started(ws: seq<World>, i: nat, x: Path): int
    requires i < |ws| && x in ws[i].exes
  {
    When(ws, ws[i].exes[x].built.at)
  }

  /** The last time the settings were recorded in this session, for whatever executable; with none
      recorded the check looks at no earlier time than now. */
  function Vouched(ws: seq<World>, i: nat): int
    requires i < |ws|
  {
    if ws[i].last.Some? then When(ws, ws[i].last.value.at) else i
  }

  /** When a build is skipped, the executable was compiled with the current settings exactly when they
      were the same at the start of its build and when settings were last recorded. */
  lemma SettingsCurrent(ws: seq<World>, i: nat, x: Path, r: Resolver, sources: seq<Path>)
    requires History(ws) && i < |ws| && Skips(ws[i], x, r, sources)
    ensures 0 <= Started(ws, i, x) <= i && 0 <= Vouched(ws, i) <= i
    ensures ws[i].exes[x].built.settings == ws[i].settings
            <==> ws[Started(ws, i, x)].settings == ws[Vouched(ws, i)].settings
  {
    DatedAlways(ws, i);
  }

  /** The settings change at no step between positions `a` and `b`. */
  ghost predicate Steady(ws: seq<World>, a: int, b: int)
    requires 0 <= a && b < |ws|
  {
    forall j :: a <= j < b ==> ws[j].settings == ws[j + 1].settings
  }

  /** It is so, in particular, when no step in between changed them. */
  lemma {:induction false} SteadySettings(ws: seq<World>, a: int, b: int)
    requires 0 <= a <= b < |ws| && Steady(ws, a, b)
    ensures ws[a].settings == ws[b].settings
    decreases b - a
  {
    if a < b { SteadySettings(ws, a + 1, b); }
  }

  /** A changed setting makes the next check ask for a build exactly when settings were recorded in the
      running session. */
  lemma SettingsNoticed(ws: seq<World>, i: nat, x: Path, r: Resolver, sources: seq<Path>, k: Settings)
    requires History(ws) && i < |ws| && Skips(ws[i], x, r, sources) && k != ws[i].settings
    ensures !Skips(Happen(ws[i], ChangeSettings(k)), x, r, sources) <==> ws[i].last.Some?
  {
    var w, w' := ws[i], Happen(ws[i], ChangeSettings(k));
    assert w'.files == w.files && w'.exes == w.exes && w'.last == w.last && w'.settings == k;
    hide IsInput, NewerThan;
  }

  // ---------------------------------------------------------------- what is recorded

  /** A successful build ends at step `j` of the history. */
  ghost predicate Succeeds(ws: seq<World>, j: nat) {
    j + 1 < |ws| && CanHappen(ws[j], BuildEnds(true)) && ws[j + 1] == Happen(ws[j], BuildEnds(true))
  }

  /** The recorded settings are forgotten at step `j`. */
  ghost predicate Restarts(ws: seq<World>, j: nat) {
    j + 1 < |ws| && CanHappen(ws[j], Restart) && ws[j + 1] == Happen(ws[j], Restart)
  }

  /** At position `i` the record is the one that step `j` made. */
  ghost predicate RecordedBy(ws: seq<World>, i: nat, j: nat) {
    && j < i && Succeeds(ws, j)
    && forall m :: j < m < i ==> !Succeeds(ws, m) && !Restarts(ws, m)
  }

  ghost predicate RecordRight(ws: seq<World>, i: nat)
    requires i < |ws|
  {
    && (ws[i].last.Some? <==> exists j: nat :: RecordedBy(ws, i, j))
    && forall j: nat :: RecordedBy(ws, i, j) ==> ws[i].last == Some(Record(ws[j].settings, ws[j].clock))
  }

  /** The record is always that of the last build that ended with success, if the program has not been
      restarted since; a build that fails leaves it alone. */
  lemma {:induction false} RecordMeaning(ws: seq<World>, i: nat)
    requires History(ws) && i < |ws|
    ensures RecordRight(ws, i)
  {
    hide Happen, CanHappen, RecordRight;
    if i > 0 {
      RecordMeaning(ws, i - 1);
      RecordStep(ws, i - 1, i);
      hide History;
      RecordNext(ws, i - 1, i);
    } else {
      RecordStarts(ws);
    }
  }

  lemma RecordStarts(ws: seq<World>)
    requires |ws| > 0 && Initial(ws[0])
    ensures RecordRight(ws, 0)
  {
  }

  lemma RecordNext(ws: seq<World>, h: nat, i: nat)
    requires i == h + 1 < |ws| && RecordRight(ws, h)
    requires Succeeds(ws, h) ==> ws[i].last == Some(Record(ws[h].settings, ws[h].clock))
    requires Restarts(ws, h) ==> ws[i].last == None && !Succeeds(ws, h)
    requires !Succeeds(ws, h) && !Restarts(ws, h) ==> ws[i].last == ws[h].last
    ensures RecordRight(ws, i)
  {
    hide Succeeds, Restarts;
    forall j: nat | RecordedBy(ws, i, j)
      ensures ws[i].last == Some(Record(ws[j].settings, ws[j].clock))
    {
      RecordedByNext(ws, i, j);
    }
    if Succeeds(ws, h) {
      RecordedByNext(ws, i, h);
    } else if !Restarts(ws, h) && ws[h].last.Some? {
      var j: nat :| RecordedBy(ws, h, j);
      RecordedByNext(ws, i, j);
    }
  }

  lemma RecordedByNext(ws: seq<World>, i: nat, j: nat)
    requires i > 0
    ensures RecordedBy(ws, i, j) <==>
              (j == i - 1 && Succeeds(ws, i - 1)) ||
              (RecordedBy(ws, i - 1, j) && !Succeeds(ws, i - 1) && !Restarts(ws, i - 1))
  {
    hide Succeeds, Restarts;
  }

  lemma RecordStep(ws: seq<World>, h: nat, i: nat)
    requires History(ws) && i == h + 1 < |ws|
    ensures Succeeds(ws, h) ==> ws[i].last == Some(Record(ws[h].settings, ws[h].clock))
    ensures Restarts(ws, h) ==> ws[i].last == None && !Succeeds(ws, h)
    ensures !Succeeds(ws, h) && !Restarts(ws, h) ==> ws[i].last == ws[h].last
  {
    assert Step(ws[h], ws[h + 1]);
    var e :| CanHappen(ws[h], e) && ws[i] == Happen(ws[h], e);
  }

  // ---------------------------------------------------------------- what goes unnoticed

  function Plain(p: Path, name: string): Path {
    name
  }

  const O0 := Settings("", "-O0")
  const O2 := Settings("", "-O2")
  const MAIN := File(Content([], ""), 0)

  /** Executable `x` was compiled with other settings than the current ones, and its build is skipped. */
  ghost predicate OldSettingsKept(ws: seq<World>, x: Path) {
    && History(ws)
    && var w := ws[|ws| - 1];
       Skips(w, x, Plain, ["m.c"]) && w.exes[x].built.settings != w.settings
  }

  function Empty(files: Files): World {
    World(files, 0, O0, None, map[], None)
  }

  /** The history goes on with event `e`. */
  ghost function Then(ws: seq<World>, e: Event): (r: seq<World>)
    requires History(ws) && CanHappen(ws[|ws| - 1], e)
    ensures History(r) && |r| == |ws| + 1 && r[|r| - 1] == Happen(ws[|ws| - 1], e)
  {
    var w := Happen(ws[|ws| - 1], e);
    assert Step(ws[|ws| - 1], w);
    ws + [w]
  }

  /** A history in which "a.exe" has just been built. */
  lemma Built(files: Files) returns (ws: seq<World>)
    requires forall p :: p in files ==> files[p].mtime <= 0
    ensures History(ws)
    ensures ws[|ws| - 1]
            == World(files, 3, O0, Some(Record(O0, 2)), map["a.exe" := Exe(2, Snapshot(["m.c"], files, O0, 0))], None)
  {
    ws := [Empty(files)];
    ws := Then(ws, BuildStarts("a.exe", ["m.c"]));
    ws := Then(ws, ExeWritten);
    ws := Then(ws, BuildEnds(true));
  }

  /** A program without includes is its only input. */
  lemma OnlyMain(files: Files, p: Path)
    requires "m.c" in files && files["m.c"].content.includes == [] && IsInput(Plain, files, ["m.c"], p)
    ensures p == "m.c"
  {
    assert Targets(Plain, files, "m.c") == [];
    if Included(Plain, files, ["m.c"], p) {
      var c :| IsChain(Plain, files, ["m.c"], c) && c[|c| - 1] == p;
      ClosedHoldsAll(Plain, files, ["m.c"], {}, c);
    }
  }

  lemma NotStale(files: Files, stamp: int, k: Settings, last: Option<Settings>)
    requires "m.c" in files && files["m.c"].content.includes == [] && files["m.c"].mtime <= stamp
    requires last == None || last == Some(k)
    ensures !Stale(Plain, files, Some(stamp), ["m.c"], k, last)
  {
    forall p | IsInput(Plain, files, ["m.c"], p)
      ensures !NewerThan(files, p, stamp)
    {
      OnlyMain(files, p);
    }
  }

  /** The flags are changed while the build runs: the new ones are recorded, the old ones were used. */
  lemma ChangeDuringBuildGoesUnnoticed() returns (ws: seq<World>)
    ensures OldSettingsKept(ws, "a.exe")
  {
    var files := map["m.c" := MAIN];
    ws := [Empty(files)];
    ws := Then(ws, BuildStarts("a.exe", ["m.c"]));
    ws := Then(ws, ChangeSettings(O2));
    ws := Then(ws, ExeWritten);
    ws := Then(ws, BuildEnds(true));
    NotStale(files, 3, O2, Some(O2));
  }

  /** The flags are changed and another program is built: the record no longer speaks of the first. */
  lemma OtherBuildHidesChange() returns (ws: seq<World>)
    ensures OldSettingsKept(ws, "a.exe")
  {
    var files := map["m.c" := MAIN];
    ws := Built(files);
    ws := Then(ws, ChangeSettings(O2));
    ws := Then(ws, BuildStarts("b.exe", ["m.c"]));
    ws := Then(ws, ExeWritten);
    ws := Then(ws, BuildEnds(true));
    NotStale(files, 2, O2, Some(O2));
  }

  /** The flags are changed and the program restarted: nothing is recorded. */
  lemma RestartHidesChange() returns (ws: seq<World>)
    ensures OldSettingsKept(ws, "a.exe")
  {
    var files := map["m.c" := MAIN];
    ws := Built(files);
    ws := Then(ws, ChangeSettings(O2));
    ws := Then(ws, Restart);
    NotStale(files, 2, O2, None);
  }

  /** A header deleted after the build. */
  lemma DeletionGoesUnnoticed() returns (ws: seq<World>, p: Path)
    ensures History(ws) && Skips(ws[|ws| - 1], "a.exe", Plain, ["m.c"])
    ensures var w := ws[|ws| - 1];
            MadeFrom(w.exes["a.exe"], Plain, p) && !Unchanged(w, w.exes["a.exe"], p)
  {
    var main := File(Content(["h.h"], ""), 0);
    var files := map["m.c" := main, "h.h" := MAIN];
    p := "h.h";
    ws := Built(files);
    ws := Then(ws, Delete(p));
    HeaderIncluded(files, main);
    var now := ws[|ws| - 1].files;
    assert now.Keys == {"m.c"} && now["m.c"] == main;
  }

  lemma HeaderIncluded(files: Files, main: File)
    requires "m.c" in files && files["m.c"] == main && main.content.includes == ["h.h"]
    ensures IsInput(Plain, files, ["m.c"], "h.h")
  {
    assert Targets(Plain, files, "m.c")[0] == Plain("m.c", main.content.includes[0]) == "h.h";
    OneEdge(Plain, files, ["m.c"], "m.c", "h.h");
  }

  /** A source edited while the build runs. */
  lemma EditDuringBuildGoesUnnoticed() returns (ws: seq<World>, p: Path)
    ensures History(ws) && Skips(ws[|ws| - 1], "a.exe", Plain, ["m.c"])
    ensures var w := ws[|ws| - 1];
            MadeFrom(w.exes["a.exe"], Plain, p) && !Unchanged(w, w.exes["a.exe"], p)
  {
    p := "m.c";
    ws := [Empty(map[p := MAIN])];
    ws := Then(ws, BuildStarts("a.exe", ["m.c"]));
    ws := Then(ws, Write(p, Content([], "b")));
    ws := Then(ws, ExeWritten);
    ws := Then(ws, BuildEnds(true));
    NotStale(ws[|ws| - 1].files, 3, O0, Some(O0));
  }

  /** Two sources of one base name share an executable: built for one, the check lets it be run for the
      other, though no file was touched. */
  lemma SameNameSharesExe() returns (ws: seq<World>)
    ensures History(ws) && Skips(ws[|ws| - 1], "m.exe", Plain, ["m.c"])
    ensures var w := ws[|ws| - 1];
            && w.exes["m.exe"].built.sources == ["other/m.c"] && Undisturbed(w, w.exes["m.exe"], Plain)
            && !UpToDate(w, w.exes["m.exe"], Plain, ["m.c"])
  {
    var files := map["m.c" := MAIN, "other/m.c" := MAIN];
    ws := [Empty(files)];
    ws := Then(ws, BuildStarts("m.exe", ["other/m.c"]));
    ws := Then(ws, ExeWritten);
    ws := Then(ws, BuildEnds(true));
    NotStale(files, 2, O0, Some(O0));
  }
}
