/** The step order of `main`: check that the installation root exists,
    stop Cursor's processes, reset the machine id, edit product.json, patch
    the workbench script and open the login page. Any step that fails ends
    the program; whatever earlier steps wrote stays written. */
module Pipeline {
  import opened Optional
  import opened Host
  import opened Json
  import opened Paths
  import opened Steps
  import Product
  import Workbench

  datatype Stage = PathCheck | Processes | MachineId | ProductJson | WorkbenchScript | Login

  datatype Outcome = Completed | Aborted(at: Stage)

  /** The three settings `main` reads from the configuration. */
  datatype Config = Config(cursorPath: string, tokenLimit: Value, version: string)

  datatype Ending = Ending(state: State, outcome: Outcome)

  /** Position of a stage in the fixed order. */
  function Rank(st: Stage): nat {
    match st
    case PathCheck => 0
    case Processes => 1
    case MachineId => 2
    case ProductJson => 3
    case WorkbenchScript => 4
    case Login => 5
  }

  /** The file a stage writes, if it writes one. */
  function Target(st: Stage, cfg: Config): Option<string> {
    match st
    case MachineId => Some(MachineIdPath(cfg.cursorPath))
    case ProductJson => Some(ProductJsonPath(cfg.cursorPath))
    case WorkbenchScript => Some(WorkbenchPath(cfg.cursorPath, cfg.version))
    case _ => None
  }

  /** The run got past `st` (it completed, or stopped at a later stage). */
  predicate Passed(o: Outcome, st: Stage) {
    o.Completed? || Rank(o.at) > Rank(st)
  }

  /** How the run ends, given whether the root exists and what each stage
      returned: at the first stage that fails, with the state that stage
      left; or after the login page. */
  function Conclude(s: State, rootFound: bool, p: Step, m: Step, j: Step, w: Step, loginOk: bool): Ending {
    if !rootFound then Ending(s, Aborted(PathCheck))
    else if p.status == Failed then Ending(p.state, Aborted(Processes))
    else if m.status == Failed then Ending(m.state, Aborted(MachineId))
    else if j.status == Failed then Ending(j.state, Aborted(ProductJson))
    else if w.status == Failed then Ending(w.state, Aborted(WorkbenchScript))
    else if !loginOk then Ending(w.state, Aborted(Login))
    else Ending(w.state, Completed)
  }

  /** The whole run: each stage starts from the state the one before left,
      and a stage's result only matters once every stage before it went
      through. The browser choice and the login page are not modelled;
      `loginOk` says whether opening the page returned normally. */
  function Execute(env: Env, s: State, cfg: Config, newId: string, codec: Codec, loginOk: bool): Ending {
    var root := cfg.cursorPath;
    var p := ReapStep(env, s);
    var m := ResetMachineId(env, p.state, root, newId);
    var j := ModifyProductJson(env, m.state, root, cfg.tokenLimit, codec);
    var w := PatchWorkbench(env, j.state, root, cfg.version);
    Conclude(s, Exists(env, s, root), p, m, j, w, loginOk)
  }

  /** A missing installation root stops the run before any step: nothing is
      written, run or terminated. */
  lemma MissingRootAborts(env: Env, s: State, cfg: Config, newId: string, codec: Codec, loginOk: bool)
    requires !Exists(env, s, cfg.cursorPath)
    ensures Execute(env, s, cfg, newId, codec, loginOk) == Ending(s, Aborted(PathCheck))
  {
  }

  /** What the stages do to the files: the reaper writes none, and each
      later stage changes at most its own target (`a`, `b`, `c`), the
      machine-id stage to the new id, and only when it does not fail. */
  ghost predicate StagesBehave(s: State, p: Step, m: Step, j: Step, w: Step, a: string, b: string, c: string, newId: string) {
    p.state.files == s.files &&
    (m.status == Failed ==> m.state.files == p.state.files) &&
    (m.status != Failed ==> m.state.files == p.state.files[a := newId]) &&
    (j.status == Failed ==> j.state.files == m.state.files) &&
    OnlyAt(m.state.files, j.state.files, b) &&
    (w.status == Failed ==> w.state.files == j.state.files) &&
    OnlyAt(j.state.files, w.state.files, c)
  }

  /** The stages of a run behave so. */
  lemma StageFiles(env: Env, s: State, cfg: Config, newId: string, codec: Codec)
    ensures var root := cfg.cursorPath;
      var p := ReapStep(env, s);
      var m := ResetMachineId(env, p.state, root, newId);
      var j := ModifyProductJson(env, m.state, root, cfg.tokenLimit, codec);
      var w := PatchWorkbench(env, j.state, root, cfg.version);
      StagesBehave(s, p, m, j, w, MachineIdPath(root), ProductJsonPath(root), WorkbenchPath(root, cfg.version), newId)
  {
    var root := cfg.cursorPath;
    var p := ReapStep(env, s);
    var m := ResetMachineId(env, p.state, root, newId);
    var j := ModifyProductJson(env, m.state, root, cfg.tokenLimit, codec);
    ResetSpec(env, p.state, root, newId);
    ProductOnlyAt(env, m.state, root, cfg.tokenLimit, codec);
    WorkbenchOnlyAt(env, j.state, root, cfg.version);
  }

  /** Files other than the targets survive any ending. */
  lemma ConcludeOnlyTargets(s: State, ok: bool, p: Step, m: Step, j: Step, w: Step, loginOk: bool,
                            a: string, b: string, c: string, newId: string, path: string)
    requires StagesBehave(s, p, m, j, w, a, b, c, newId)
    requires path != a && path != b && path != c
    ensures SameAt(s.files, Conclude(s, ok, p, m, j, w, loginOk).state.files, path)
  {
    assert SameAt(m.state.files, j.state.files, path);
    assert SameAt(j.state.files, w.state.files, path);
  }

  /** For three different targets: an ending at a stage leaves that stage's
      and later stages' targets as they were, and an ending past a stage
      keeps what it wrote. */
  lemma ConcludeStages(s: State, ok: bool, p: Step, m: Step, j: Step, w: Step, loginOk: bool,
                       a: string, b: string, c: string, newId: string)
    requires StagesBehave(s, p, m, j, w, a, b, c, newId)
    requires a != b && a != c && b != c
    ensures var e := Conclude(s, ok, p, m, j, w, loginOk);
      (e.outcome.Aborted? && Rank(e.outcome.at) <= 2 ==> SameAt(s.files, e.state.files, a)) &&
      (e.outcome.Aborted? && Rank(e.outcome.at) <= 3 ==> SameAt(s.files, e.state.files, b)) &&
      (e.outcome.Aborted? && Rank(e.outcome.at) <= 4 ==> SameAt(s.files, e.state.files, c))
    ensures var e := Conclude(s, ok, p, m, j, w, loginOk);
      (Passed(e.outcome, MachineId) ==> a in e.state.files && e.state.files[a] == newId) &&
      (Passed(e.outcome, ProductJson) ==>
        j.status != Failed && SameAt(s.files, m.state.files, b) && SameAt(j.state.files, e.state.files, b)) &&
      (Passed(e.outcome, WorkbenchScript) ==>
        w.status != Failed && e.state == w.state && SameAt(s.files, j.state.files, c))
  {
    assert SameAt(m.state.files, j.state.files, a) && SameAt(m.state.files, j.state.files, c);
    assert SameAt(j.state.files, w.state.files, a) && SameAt(j.state.files, w.state.files, b);
  }

  /** Only the three target files can change; every other file is left as
      it was. */
  lemma OnlyTargetsChange(env: Env, s: State, cfg: Config, newId: string, codec: Codec, loginOk: bool, path: string)
    requires path != MachineIdPath(cfg.cursorPath)
    requires path != ProductJsonPath(cfg.cursorPath)
    requires path != WorkbenchPath(cfg.cursorPath, cfg.version)
    ensures SameAt(s.files, Execute(env, s, cfg, newId, codec, loginOk).state.files, path)
  {
    var root := cfg.cursorPath;
    var p := ReapStep(env, s);
    var m := ResetMachineId(env, p.state, root, newId);
    var j := ModifyProductJson(env, m.state, root, cfg.tokenLimit, codec);
    var w := PatchWorkbench(env, j.state, root, cfg.version);
    StageFiles(env, s, cfg, newId, codec);
    ConcludeOnlyTargets(s, Exists(env, s, root), p, m, j, w, loginOk,
      MachineIdPath(root), ProductJsonPath(root), WorkbenchPath(root, cfg.version), newId, path);
  }

  /** The stage lemma for one run. */
  lemma RunStages(env: Env, s: State, cfg: Config, newId: string, codec: Codec, loginOk: bool)
    ensures var root := cfg.cursorPath;
      var p := ReapStep(env, s);
      var m := ResetMachineId(env, p.state, root, newId);
      var j := ModifyProductJson(env, m.state, root, cfg.tokenLimit, codec);
      var w := PatchWorkbench(env, j.state, root, cfg.version);
      var e := Execute(env, s, cfg, newId, codec, loginOk);
      var a, b, c := MachineIdPath(root), ProductJsonPath(root), WorkbenchPath(root, cfg.version);
      (e.outcome.Aborted? && Rank(e.outcome.at) <= 2 ==> SameAt(s.files, e.state.files, a)) &&
      (e.outcome.Aborted? && Rank(e.outcome.at) <= 3 ==> SameAt(s.files, e.state.files, b)) &&
      (e.outcome.Aborted? && Rank(e.outcome.at) <= 4 ==> SameAt(s.files, e.state.files, c)) &&
      (Passed(e.outcome, MachineId) ==> a in e.state.files && e.state.files[a] == newId) &&
      (Passed(e.outcome, ProductJson) ==>
        j.status != Failed && SameAt(s.files, m.state.files, b) && SameAt(j.state.files, e.state.files, b)) &&
      (Passed(e.outcome, WorkbenchScript) ==>
        w.status != Failed && e.state == w.state && SameAt(s.files, j.state.files, c))
  {
    var root := cfg.cursorPath;
    var p := ReapStep(env, s);
    var m := ResetMachineId(env, p.state, root, newId);
    var j := ModifyProductJson(env, m.state, root, cfg.tokenLimit, codec);
    var w := PatchWorkbench(env, j.state, root, cfg.version);
    StageFiles(env, s, cfg, newId, codec);
    TargetsDistinct(root, cfg.version);
    ConcludeStages(s, Exists(env, s, root), p, m, j, w, loginOk,
      MachineIdPath(root), ProductJsonPath(root), WorkbenchPath(root, cfg.version), newId);
  }

  /** A run that stops at a stage leaves the target of that stage and of
      every later stage untouched. */
  lemma LaterTargetsUntouched(env: Env, s: State, cfg: Config, newId: string, codec: Codec, loginOk: bool, st: Stage)
    requires Execute(env, s, cfg, newId, codec, loginOk).outcome.Aborted?
    requires Rank(st) >= Rank(Execute(env, s, cfg, newId, codec, loginOk).outcome.at)
    requires Target(st, cfg).Some?
    ensures SameAt(s.files, Execute(env, s, cfg, newId, codec, loginOk).state.files, Target(st, cfg).value)
  {
    RunStages(env, s, cfg, newId, codec, loginOk);
  }

  /** Once the run is past the machine-id stage, the file holds exactly the
      new id, whatever happens later. */
  lemma MachineIdKept(env: Env, s: State, cfg: Config, newId: string, codec: Codec, loginOk: bool)
    requires Passed(Execute(env, s, cfg, newId, codec, loginOk).outcome, MachineId)
    ensures var f := Execute(env, s, cfg, newId, codec, loginOk).state.files;
      MachineIdPath(cfg.cursorPath) in f && f[MachineIdPath(cfg.cursorPath)] == newId
  {
    RunStages(env, s, cfg, newId, codec, loginOk);
  }

  /** Once the run is past the product.json stage, the file is either still
      missing, or holds the encoding of the edited object decoded from its
      original text. */
  lemma ProductKept(env: Env, s: State, cfg: Config, newId: string, codec: Codec, loginOk: bool)
    requires Passed(Execute(env, s, cfg, newId, codec, loginOk).outcome, ProductJson)
    ensures var path := ProductJsonPath(cfg.cursorPath);
      var f := Execute(env, s, cfg, newId, codec, loginOk).state.files;
      (!Exists(env, s, path) && path !in f) ||
      (path in s.files && path in f &&
       exists fields :: (codec.decode(s.files[path]) == Some(Obj(fields)) &&
                         f[path] == codec.encode(Obj(Product.SetFields(fields, cfg.tokenLimit)))))
  {
    var root := cfg.cursorPath;
    var p := ReapStep(env, s);
    var m := ResetMachineId(env, p.state, root, newId);
    RunStages(env, s, cfg, newId, codec, loginOk);
    ProductSpec(env, m.state, root, cfg.tokenLimit, codec);
  }

  /** Once the run is past the workbench stage, the script is either still
      missing, or holds the patch of its original text. */
  lemma WorkbenchKept(env: Env, s: State, cfg: Config, newId: string, codec: Codec, loginOk: bool)
    requires Passed(Execute(env, s, cfg, newId, codec, loginOk).outcome, WorkbenchScript)
    ensures var path := WorkbenchPath(cfg.cursorPath, cfg.version);
      var f := Execute(env, s, cfg, newId, codec, loginOk).state.files;
      (!Exists(env, s, path) && path !in f) ||
      (path in s.files && path in f && f[path] == Workbench.Patch(s.files[path]))
  {
    var root := cfg.cursorPath;
    var p := ReapStep(env, s);
    var m := ResetMachineId(env, p.state, root, newId);
    var j := ModifyProductJson(env, m.state, root, cfg.tokenLimit, codec);
    RunStages(env, s, cfg, newId, codec, loginOk);
    WorkbenchSpec(env, j.state, root, cfg.version);
  }

  /** At most the platform's one escalation command for `path`. */
  predicate AtMostEscalation(env: Env, e: seq<Event>, path: string) {
    e == [] || (Escalation(env.system, env.user, path).Some? && e == [Ran(Escalation(env.system, env.user, path).value)])
  }

  /** A state whose trace and writable paths are those the guard of `path`
      left: at most its one escalation was added, and write access was
      gained at most for `path`. */
  lemma GuardedStep(env: Env, s: State, path: string, t: State) returns (e: seq<Event>)
    requires t.log == Guard(env, s, path).state.log && t.writable == Guard(env, s, path).state.writable
    ensures AtMostEscalation(env, e, path) && t.log == s.log + e
    ensures s.writable <= t.writable <= s.writable + {path}
  {
    GuardFrame(env, s, path);
    if t.log == s.log {
      e := [];
    } else {
      e := [Ran(Escalation(env.system, env.user, path).value)];
    }
  }



  /** How far a run got: the rank of the stage it stopped at, or past the
      last stage when it completed. */
  function Reach(o: Outcome): nat {
    match o
    case Completed => Rank(Login) + 1
    case Aborted(st) => Rank(st)
  }

  /** The targets `a`, `b`, `c` of the file stages whose guard a run that
      got to rank `k` has passed through. */
  function Guarded(k: nat, a: string, b: string, c: string): set<string> {
    (if k >= Rank(MachineId) then {a} else {}) +
    (if k >= Rank(ProductJson) then {b} else {}) +
    (if k >= Rank(WorkbenchScript) then {c} else {})
  }

  /** The trace a run that got to rank `k` leaves, for reaper events `r` and
      the three targets `a`, `b`, `c`: the reaper's events once the root was
      found, then at most one escalation for each target whose stage was
      reached, in stage order, and none for a later stage. */
  ghost predicate TraceUpTo(env: Env, k: nat, before: seq<Event>, after: seq<Event>, r: seq<Event>,
                            a: string, b: string, c: string) {
    exists ea, eb, ec ::
      AtMostEscalation(env, ea, a) && AtMostEscalation(env, eb, b) && AtMostEscalation(env, ec, c) &&
      (k < Rank(MachineId) ==> ea == []) &&
      (k < Rank(ProductJson) ==> eb == []) &&
      (k < Rank(WorkbenchScript) ==> ec == []) &&
      after == before + (if k >= Rank(Processes) then r else []) + ea + eb + ec
  }

  /** The trace at any ending, given what each stage adds: the reaper its
      events `r`, and each file stage at most its one escalation (`ea`, `eb`,
      `ec`) for its target (`a`, `b`, `c`). */
  lemma ConcludeTrace(env: Env, s: State, ok: bool, p: Step, m: Step, j: Step, w: Step, loginOk: bool,
                      r: seq<Event>, ea: seq<Event>, eb: seq<Event>, ec: seq<Event>, a: string, b: string, c: string)
    requires AtMostEscalation(env, ea, a) && AtMostEscalation(env, eb, b) && AtMostEscalation(env, ec, c)
    requires p.state.log == s.log + r
    requires m.state.log == p.state.log + ea
    requires j.state.log == m.state.log + eb
    requires w.state.log == j.state.log + ec
    ensures var e := Conclude(s, ok, p, m, j, w, loginOk);
      TraceUpTo(env, Reach(e.outcome), s.log, e.state.log, r, a, b, c)
  {
    var e := Conclude(s, ok, p, m, j, w, loginOk);
    if !ok {
      assert e == Ending(s, Aborted(PathCheck));
      TraceWitness(env, 0, s.log, e.state.log, r, a, b, c, [], [], []);
    } else if p.status == Failed {
      assert e == Ending(p.state, Aborted(Processes));
      TraceWitness(env, 1, s.log, e.state.log, r, a, b, c, [], [], []);
    } else if m.status == Failed {
      assert e == Ending(m.state, Aborted(MachineId));
      TraceWitness(env, 2, s.log, e.state.log, r, a, b, c, ea, [], []);
    } else if j.status == Failed {
      assert e == Ending(j.state, Aborted(ProductJson));
      TraceWitness(env, 3, s.log, e.state.log, r, a, b, c, ea, eb, []);
    } else {
      assert e.state == w.state && Reach(e.outcome) >= 4;
      TraceWitness(env, Reach(e.outcome), s.log, e.state.log, r, a, b, c, ea, eb, ec);
    }
  }

  /** The writable paths at any ending, given that each file stage gains
      write access at most for its own target (`a`, `b`, `c`). */
  lemma ConcludeWritable(s: State, ok: bool, p: Step, m: Step, j: Step, w: Step, loginOk: bool, a: string, b: string, c: string)
    requires p.state.writable == s.writable
    requires p.state.writable <= m.state.writable <= p.state.writable + {a}
    requires m.state.writable <= j.state.writable <= m.state.writable + {b}
    requires j.state.writable <= w.state.writable <= j.state.writable + {c}
    ensures var e := Conclude(s, ok, p, m, j, w, loginOk);
      s.writable <= e.state.writable <= s.writable + Guarded(Reach(e.outcome), a, b, c)
  {
    var e := Conclude(s, ok, p, m, j, w, loginOk);
    if ok && p.status != Failed && m.status != Failed {
      if j.status == Failed {
        assert Guarded(Reach(e.outcome), a, b, c) == {a, b};
      } else {
        assert Guarded(Reach(e.outcome), a, b, c) == {a, b, c};
      }
    }
  }

  /** Three escalations that fit the rank make a trace of that rank. */
  lemma TraceWitness(env: Env, k: nat, before: seq<Event>, after: seq<Event>, r: seq<Event>,
                     a: string, b: string, c: string, ea: seq<Event>, eb: seq<Event>, ec: seq<Event>)
    requires AtMostEscalation(env, ea, a) && AtMostEscalation(env, eb, b) && AtMostEscalation(env, ec, c)
    requires (k < Rank(MachineId) ==> ea == []) && (k < Rank(ProductJson) ==> eb == []) && (k < Rank(WorkbenchScript) ==> ec == [])
    requires after == before + (if k >= Rank(Processes) then r else []) + ea + eb + ec
    ensures TraceUpTo(env, k, before, after, r, a, b, c)
  {
  }

  /** What each stage of a run adds to the trace and to the writable paths:
      the reaper its events and nothing else, and each file stage at most
      its one escalation and write access to at most its own target. */
  lemma StageEscalations(env: Env, s: State, cfg: Config, newId: string, codec: Codec)
    returns (ea: seq<Event>, eb: seq<Event>, ec: seq<Event>)
    ensures var root := cfg.cursorPath;
      var a, b, c := MachineIdPath(root), ProductJsonPath(root), WorkbenchPath(root, cfg.version);
      var p := ReapStep(env, s);
      var m := ResetMachineId(env, p.state, root, newId);
      var j := ModifyProductJson(env, m.state, root, cfg.tokenLimit, codec);
      var w := PatchWorkbench(env, j.state, root, cfg.version);
      AtMostEscalation(env, ea, a) && AtMostEscalation(env, eb, b) && AtMostEscalation(env, ec, c) &&
      p.state.log == s.log + Reap(env.processes).events && p.state.writable == s.writable &&
      m.state.log == p.state.log + ea && p.state.writable <= m.state.writable <= p.state.writable + {a} &&
      j.state.log == m.state.log + eb && m.state.writable <= j.state.writable <= m.state.writable + {b} &&
      w.state.log == j.state.log + ec && j.state.writable <= w.state.writable <= j.state.writable + {c}
  {
    var root := cfg.cursorPath;
    var p := ReapStep(env, s);
    var m := ResetMachineId(env, p.state, root, newId);
    var j := ModifyProductJson(env, m.state, root, cfg.tokenLimit, codec);
    ResetSpec(env, p.state, root, newId);
    ProductSpec(env, m.state, root, cfg.tokenLimit, codec);
    WorkbenchSpec(env, j.state, root, cfg.version);
    ea := GuardedStep(env, p.state, MachineIdPath(root), m.state);
    eb := GuardedStep(env, m.state, ProductJsonPath(root), j.state);
    ec := GuardedStep(env, j.state, WorkbenchPath(root, cfg.version), PatchWorkbench(env, j.state, root, cfg.version).state);
  }

  /** Any run, aborted or not, leaves this trace: the reaper's terminations
      and sleeps if the root was found, then at most one escalation for each
      target whose stage was reached, in stage order, and none for a stage
      after the one the run stopped at. Write access is gained only for
      those same targets. */
  lemma RunTrace(env: Env, s: State, cfg: Config, newId: string, codec: Codec, loginOk: bool)
    ensures var e := Execute(env, s, cfg, newId, codec, loginOk);
      var root := cfg.cursorPath;
      TraceUpTo(env, Reach(e.outcome), s.log, e.state.log, Reap(env.processes).events,
                MachineIdPath(root), ProductJsonPath(root), WorkbenchPath(root, cfg.version))
    ensures var e := Execute(env, s, cfg, newId, codec, loginOk);
      var root := cfg.cursorPath;
      s.writable <= e.state.writable <=
        s.writable + Guarded(Reach(e.outcome), MachineIdPath(root), ProductJsonPath(root), WorkbenchPath(root, cfg.version))
  {
    var root := cfg.cursorPath;
    var p := ReapStep(env, s);
    var m := ResetMachineId(env, p.state, root, newId);
    var j := ModifyProductJson(env, m.state, root, cfg.tokenLimit, codec);
    var w := PatchWorkbench(env, j.state, root, cfg.version);
    var ea, eb, ec := StageEscalations(env, s, cfg, newId, codec);
    var a, b, c := MachineIdPath(root), ProductJsonPath(root), WorkbenchPath(root, cfg.version);
    ConcludeTrace(env, s, Exists(env, s, root), p, m, j, w, loginOk, Reap(env.processes).events, ea, eb, ec, a, b, c);
    ConcludeWritable(s, Exists(env, s, root), p, m, j, w, loginOk, a, b, c);
  }

  /** A completed run's trace is, in this order: the reaper's terminations
      and sleeps, then at most one escalation for the machine id, one for
      product.json and one for the workbench script. */
  lemma CompletedTrace(env: Env, s: State, cfg: Config, newId: string, codec: Codec, loginOk: bool)
    requires Execute(env, s, cfg, newId, codec, loginOk).outcome == Completed
    ensures exists a, b, c ::
      AtMostEscalation(env, a, MachineIdPath(cfg.cursorPath)) &&
      AtMostEscalation(env, b, ProductJsonPath(cfg.cursorPath)) &&
      AtMostEscalation(env, c, WorkbenchPath(cfg.cursorPath, cfg.version)) &&
      Execute(env, s, cfg, newId, codec, loginOk).state.log == s.log + Reap(env.processes).events + a + b + c
  {
    RunTrace(env, s, cfg, newId, codec, loginOk);
  }
  /** The run completes exactly when the root exists, no step fails and the
      login page opens. */
  lemma CompletedIff(env: Env, s: State, cfg: Config, newId: string, codec: Codec, loginOk: bool)
    ensures var root := cfg.cursorPath;
      var p := ReapStep(env, s);
      var m := ResetMachineId(env, p.state, root, newId);
      var j := ModifyProductJson(env, m.state, root, cfg.tokenLimit, codec);
      var w := PatchWorkbench(env, j.state, root, cfg.version);
      Execute(env, s, cfg, newId, codec, loginOk).outcome == Completed <==>
        Exists(env, s, root) && !Reap(env.processes).crashed && m.status != Failed &&
        j.status != Failed && w.status != Failed && loginOk
  {
  }
}
