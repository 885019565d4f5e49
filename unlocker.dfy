/** The installer as it runs: a session holding the host state it changes,
    with one method per step, each proved to do what its specification in
    `Steps` says, and `Run` proved to be the pipeline of `Pipeline`. */
module Unlocker {
  import opened Optional
  import opened Substitution
  import opened Host
  import opened Json
  import opened Paths
  import Product
  import Workbench
  import opened Steps
  import opened Pipeline

  class Session {
    const env: Env
    var files: map<string, string>
    var writable: set<string>
    var log: seq<Event>

    constructor (env: Env, s: State)
      ensures this.env == env && Snapshot() == s
    {
      this.env := env;
      files := s.files;
      writable := s.writable;
      log := s.log;
    }

    /** The host state the session holds. */
    function Snapshot(): State
      reads this
    {
      State(files, writable, log)
    }

    /** `check_and_set_permissions(path)`. */
    method CheckAndSetPermissions(path: string) returns (status: Status)
      modifies this
      ensures Step(Snapshot(), status) == Guard(env, old(Snapshot()), path)
    {
      status := Done;
      if !Exists(env, Snapshot(), path) {
        return;
      }
      if path !in writable {
        var command := Escalation(env.system, env.user, path);
        if command.Some? {
          var c := command.value;
          log := log + [Ran(c)];
          if c in env.accepted && c in env.granting {
            writable := writable + {path};
          }
          if c !in env.accepted {
            status := Failed;
          }
        }
      }
    }

    /** `check_cursor_process()`: walk the process table, terminating every
        process whose name contains "Cursor" and sleeping a second after
        each; `found` records whether one matched. */
    method CheckCursorProcess() returns (status: Status, found: bool)
      modifies this
      ensures var w := Reap(env.processes);
        files == old(files) && writable == old(writable) && log == old(log) + w.events &&
        found == w.found && (status == Failed <==> w.crashed) && status != Skipped
    {
      var ps := env.processes;
      found := false;
      ghost var added: seq<Event> := [];
      var i := 0;
      while i < |ps|
        invariant 0 <= i <= |ps|
        invariant files == old(files) && writable == old(writable)
        invariant log == old(log) + added
        invariant Reap(ps) == Sweep(added + Reap(ps[i..]).events, found || Reap(ps[i..]).found, Reap(ps[i..]).crashed)
      {
        assert ps[i..][1..] == ps[i + 1..];
        var p := ps[i];
        if p.name.None? {
          // `'Cursor' in None` raises
          assert added + [] == added;
          return Failed, found;
        }
        if Contains(p.name.value, CursorName) {
          found := true;
          if !p.stoppable {
            // `terminate()` raises
            assert added + [] == added;
            return Failed, found;
          }
          log := log + [Terminated(p.pid)];
          log := log + [Slept(1)];
          added := added + [Terminated(p.pid), Slept(1)];
        }
        i := i + 1;
      }
      assert added + [] == added;
      status := Done;
    }

    /** `reset_machine_id(root)` with the freshly generated id `newId`. */
    method ResetMachineId(root: string, newId: string) returns (status: Status)
      modifies this
      ensures Step(Snapshot(), status) == Steps.ResetMachineId(env, old(Snapshot()), root, newId)
    {
      var path := Join(root, MachineIdLeaf);
      status := CheckAndSetPermissions(path);
      if status == Failed {
        return;
      }
      if CanWrite(env, Snapshot(), path) {
        files := files[path := newId];
      } else {
        status := Failed;
      }
    }

    /** `modify_product_json(root, limit)`, with `codec` standing for
        `json.load` and `json.dump`. */
    method ModifyProductJson(root: string, limit: Value, codec: Codec) returns (status: Status)
      modifies this
      ensures Step(Snapshot(), status) == Steps.ModifyProductJson(env, old(Snapshot()), root, limit, codec)
    {
      var path := Join(root, ProductJsonLeaf);
      status := CheckAndSetPermissions(path);
      if status == Failed {
        return;
      }
      if !Exists(env, Snapshot(), path) {
        return Skipped;
      }
      if !CanRead(env, Snapshot(), path) {
        return Failed;
      }
      var decoded := codec.decode(files[path]);
      if decoded.None? || !decoded.value.Obj? {
        return Failed;
      }
      var data := decoded.value.fields;
      data := data[Product.TokenLimitKey := limit];
      data := data[Product.PremiumModelsKey := Product.ModelList()];
      if !CanWrite(env, Snapshot(), path) {
        return Failed;
      }
      files := files[path := codec.encode(Obj(data))];
      status := Done;
    }

    /** `patch_workbench(root, version)`. */
    method PatchWorkbench(root: string, version: string) returns (status: Status)
      modifies this
      ensures Step(Snapshot(), status) == Steps.PatchWorkbench(env, old(Snapshot()), root, version)
    {
      var path := Join(root, WorkbenchLeaf(version));
      status := CheckAndSetPermissions(path);
      if status == Failed {
        return;
      }
      if !Exists(env, Snapshot(), path) {
        return Skipped;
      }
      if !CanRead(env, Snapshot(), path) {
        return Failed;
      }
      var content := files[path];
      var patched := Workbench.Patch(content);
      if !CanWrite(env, Snapshot(), path) {
        return Failed;
      }
      files := files[path := patched];
      status := Done;
    }

    /** `main()` after the configuration is loaded: the root check, then the
        steps in order, stopping at the first that fails. */
    method Run(cfg: Config, newId: string, codec: Codec, loginOk: bool) returns (outcome: Outcome)
      modifies this
      ensures Ending(Snapshot(), outcome) == Execute(env, old(Snapshot()), cfg, newId, codec, loginOk)
    {
      var root := cfg.cursorPath;
      ghost var s0 := Snapshot();
      ghost var p := ReapStep(env, s0);
      ghost var m := Steps.ResetMachineId(env, p.state, root, newId);
      ghost var j := Steps.ModifyProductJson(env, m.state, root, cfg.tokenLimit, codec);
      ghost var w := Steps.PatchWorkbench(env, j.state, root, cfg.version);
      assert Execute(env, s0, cfg, newId, codec, loginOk) == Conclude(s0, Exists(env, s0, root), p, m, j, w, loginOk);
      if !Exists(env, Snapshot(), root) {
        return Aborted(PathCheck);
      }
      var status, found := CheckCursorProcess();
      assert Step(Snapshot(), status) == p;
      if status == Failed {
        return Aborted(Processes);
      }
      status := ResetMachineId(root, newId);
      assert Step(Snapshot(), status) == m;
      if status == Failed {
        return Aborted(MachineId);
      }
      status := ModifyProductJson(root, cfg.tokenLimit, codec);
      assert Step(Snapshot(), status) == j;
      if status == Failed {
        return Aborted(ProductJson);
      }
      status := PatchWorkbench(root, cfg.version);
      assert Step(Snapshot(), status) == w;
      if status == Failed {
        return Aborted(WorkbenchScript);
      }
      if !loginOk {
        return Aborted(Login);
      }
      outcome := Completed;
    }
  }
}
