/** What each step of the installer does to the host, as functions of the
    host state before it: the permission guard, the process reaper, the
    machine-id reset, the product.json edit and the workbench patch. */
module Steps {
  import opened Optional
  import opened Substitution
  import opened Host
  import opened Json
  import Product
  import Workbench
  import opened Paths

  // ---------------------------------------------------------------------
  // Permission guard (`check_and_set_permissions`)

  /** The one command that asks for write access on this platform, if any. */
  function Escalation(system: string, user: string, path: string): Option<Command> {
    if system == "Linux" || system == "Darwin" then Some(["sudo", "chmod", "u+rw", path])
    else if system == "Windows" then Some(["icacls", path, "/grant", user + ":F"])
    else None
  }

  /** A missing or writable path is left alone. Otherwise the platform's
      command is run once; its success is not followed by a second check, so
      the path may still not be writable afterwards. A failing command
      aborts. */
  function Guard(env: Env, s: State, path: string): Step {
    if !Exists(env, s, path) || path in s.writable then Step(s, Done)
    else match Escalation(env.system, env.user, path)
      case None => Step(s, Done)
      case Some(c) =>
        var granted := if c in env.accepted && c in env.granting then s.writable + {path} else s.writable;
        Step(s.(log := s.log + [Ran(c)], writable := granted), if c in env.accepted then Done else Failed)
  }

  /** The guard never touches file contents, never skips, and adds at most
      the one command for this path to the trace; writability can only be
      gained, and only for this path. */
  lemma GuardFrame(env: Env, s: State, path: string)
    ensures Guard(env, s, path).state.files == s.files
    ensures Guard(env, s, path).status != Skipped
    ensures s.writable <= Guard(env, s, path).state.writable <= s.writable + {path}
    ensures var log := Guard(env, s, path).state.log;
      log == s.log || (Escalation(env.system, env.user, path).Some? &&
                       log == s.log + [Ran(Escalation(env.system, env.user, path).value)])
  {
  }

  /** A path that is missing or already writable gets no escalation at all. */
  lemma GuardNoEscalation(env: Env, s: State, path: string)
    requires !Exists(env, s, path) || path in s.writable
    ensures Guard(env, s, path) == Step(s, Done)
  {
  }

  /** An existing path that is not writable gets exactly one command:
      `sudo chmod u+rw path` on Linux and Darwin, `icacls path /grant user:F`
      on Windows, and none on any other platform. The guard fails exactly
      when that command fails, and the path becomes writable exactly when the
      command succeeds and grants access. */
  lemma GuardEscalates(env: Env, s: State, path: string)
    requires Exists(env, s, path) && path !in s.writable
    ensures var g := Guard(env, s, path);
      var c: Command := ["sudo", "chmod", "u+rw", path];
      env.system == "Linux" || env.system == "Darwin" ==>
        g.state.files == s.files && g.state.log == s.log + [Ran(c)] &&
        (g.status == Failed <==> c !in env.accepted) &&
        (path in g.state.writable <==> c in env.accepted && c in env.granting)
    ensures var g := Guard(env, s, path);
      var c: Command := ["icacls", path, "/grant", env.user + ":F"];
      env.system == "Windows" ==>
        g.state.files == s.files && g.state.log == s.log + [Ran(c)] &&
        (g.status == Failed <==> c !in env.accepted) &&
        (path in g.state.writable <==> c in env.accepted && c in env.granting)
    ensures env.system != "Linux" && env.system != "Darwin" && env.system != "Windows" ==>
      Guard(env, s, path) == Step(s, Done)
  {
  }

  /** No re-check: a command that exits with 0 but grants nothing lets the
      guard succeed with the path still not writable. */
  lemma GuardNoRecheck(env: Env, s: State, path: string)
    requires Exists(env, s, path) && path !in s.writable
    requires Escalation(env.system, env.user, path).Some?
    requires Escalation(env.system, env.user, path).value in env.accepted - env.granting
    ensures Guard(env, s, path).status == Done
    ensures path !in Guard(env, s, path).state.writable
  {
  }

  // ---------------------------------------------------------------------
  // Process reaper (`check_cursor_process`)

  const CursorName: string := "Cursor"

  /** `'Cursor' in proc.info['name']`, for a name that could be read. */
  predicate Matches(p: Process) {
    p.name.Some? && Contains(p.name.value, CursorName)
  }

  /** The process at which the loop raises: its name is None (the `in` test
      raises a `TypeError`), or it matches and `terminate()` raises. */
  predicate Fatal(p: Process) {
    p.name.None? || (Matches(p) && !p.stoppable)
  }

  /** What the loop leaves behind: the trace it produced, the found flag, and
      whether it raised. */
  datatype Sweep = Sweep(events: seq<Event>, found: bool, crashed: bool)

  /** The loop over the process table, one process at a time. */
  function Reap(ps: seq<Process>): Sweep
    decreases |ps|
  {
    if ps == [] then Sweep([], false, false)
    else if ps[0].name.None? then Sweep([], false, true)
    else if !Contains(ps[0].name.value, CursorName) then Reap(ps[1..])
    else if !ps[0].stoppable then Sweep([], true, true)
    else
      var rest := Reap(ps[1..]);
      Sweep([Terminated(ps[0].pid), Slept(1)] + rest.events, true, rest.crashed)
  }

  /** The reaper as one step of the pipeline. */
  function ReapStep(env: Env, s: State): Step {
    var w := Reap(env.processes);
    Step(s.(log := s.log + w.events), if w.crashed then Failed else Done)
  }

  // The reference the reaper is proved against: the processes that match,
  // and a termination followed by a one-second sleep for each.

  function Matching(ps: seq<Process>): seq<Process>
    decreases |ps|
  {
    if ps == [] then []
    else if Matches(ps[0]) then [ps[0]] + Matching(ps[1..])
    else Matching(ps[1..])
  }

  function Notices(ms: seq<Process>): seq<Event>
    decreases |ms|
  {
    if ms == [] then [] else [Terminated(ms[0].pid), Slept(1)] + Notices(ms[1..])
  }

  /** The number of processes the loop gets through before one raises. */
  function SafePrefix(ps: seq<Process>): nat
    decreases |ps|
  {
    if ps == [] || Fatal(ps[0]) then 0 else 1 + SafePrefix(ps[1..])
  }

  lemma {:induction false} SafePrefixSpec(ps: seq<Process>)
    ensures SafePrefix(ps) <= |ps|
    ensures forall j :: 0 <= j < SafePrefix(ps) ==> !Fatal(ps[j])
    ensures SafePrefix(ps) < |ps| ==> Fatal(ps[SafePrefix(ps)])
    decreases |ps|
  {
    if ps != [] && !Fatal(ps[0]) {
      SafePrefixSpec(ps[1..]);
      forall j | 0 <= j < SafePrefix(ps) ensures !Fatal(ps[j]) {
        if j > 0 {
          assert ps[j] == ps[1..][j - 1];
        }
      }
    }
  }

  /** A process is kept by `Matching` exactly when it is in the table and
      matches, and the kept ones stay in table order. */
  lemma {:induction false} MatchingSpec(ps: seq<Process>)
    ensures forall p :: p in Matching(ps) <==> p in ps && Matches(p)
    ensures Matching(ps) == [] <==> forall i :: 0 <= i < |ps| ==> !Matches(ps[i])
    decreases |ps|
  {
    if ps != [] {
      MatchingSpec(ps[1..]);
      assert ps == [ps[0]] + ps[1..];
      forall p ensures p in ps <==> p == ps[0] || p in ps[1..] {
      }
      if forall i :: 0 <= i < |ps[1..]| ==> !Matches(ps[1..][i]) {
        assert forall i :: 1 <= i < |ps| ==> !Matches(ps[i]) by {
          forall i | 1 <= i < |ps| ensures !Matches(ps[i]) {
            assert ps[i] == ps[1..][i - 1];
          }
        }
      }
    }
  }

  /** Each kept process gives one termination and one sleep, in order. */
  lemma {:induction false} NoticesSpec(ms: seq<Process>)
    ensures |Notices(ms)| == 2 * |ms|
    ensures forall k :: 0 <= k < |ms| ==>
      Notices(ms)[2 * k] == Terminated(ms[k].pid) && Notices(ms)[2 * k + 1] == Slept(1)
    decreases |ms|
  {
    if ms != [] {
      NoticesSpec(ms[1..]);
      var n := Notices(ms);
      forall k | 0 <= k < |ms|
        ensures n[2 * k] == Terminated(ms[k].pid) && n[2 * k + 1] == Slept(1)
      {
        if k > 0 {
          assert ms[k] == ms[1..][k - 1];
          assert n[2 * k] == Notices(ms[1..])[2 * (k - 1)];
        }
      }
    }
  }

  /** A pid is terminated exactly when some kept process has it. */
  lemma {:induction false} NoticesPids(ms: seq<Process>)
    ensures forall pid :: Terminated(pid) in Notices(ms) <==> exists m :: m in ms && m.pid == pid
    decreases |ms|
  {
    if ms != [] {
      NoticesPids(ms[1..]);
      var n := Notices(ms);
      assert n == [Terminated(ms[0].pid), Slept(1)] + Notices(ms[1..]);
      forall pid ensures Terminated(pid) in n <==> exists m :: m in ms && m.pid == pid {
        if Terminated(pid) in Notices(ms[1..]) {
          var m :| m in ms[1..] && m.pid == pid;
          assert m in ms;
        }
        if exists m :: m in ms && m.pid == pid {
          var m :| m in ms && m.pid == pid;
          if m != ms[0] {
            assert m in ms[1..];
          }
        }
      }
    }
  }

  /** The reaper raises exactly when some process is fatal; up to the first
      fatal one (or over the whole table) it terminates exactly the matching
      processes, in order, sleeping once after each, and `found` says whether
      any process up to and including the one it stopped at matched. */
  lemma {:induction false} ReapSpec(ps: seq<Process>)
    ensures SafePrefix(ps) <= |ps|
    ensures Reap(ps).crashed <==> SafePrefix(ps) < |ps|
    ensures Reap(ps).events == Notices(Matching(ps[..SafePrefix(ps)]))
    ensures Reap(ps).found <==> exists i :: 0 <= i <= SafePrefix(ps) && i < |ps| && Matches(ps[i])
    decreases |ps|
  {
    SafePrefixSpec(ps);
    if ps != [] && !Fatal(ps[0]) {
      ReapSpec(ps[1..]);
      var k := SafePrefix(ps);
      assert ps[..k] == [ps[0]] + ps[1..][..k - 1];
      assert ps[..k][1..] == ps[1..][..k - 1];
      if Reap(ps).found && !Matches(ps[0]) {
        var i :| 0 <= i <= k - 1 && i < |ps[1..]| && Matches(ps[1..][i]);
        assert Matches(ps[i + 1]);
      }
      if !Matches(ps[0]) && exists i :: 0 <= i <= k && i < |ps| && Matches(ps[i]) {
        var i :| 0 <= i <= k && i < |ps| && Matches(ps[i]);
        assert i != 0;
        assert Matches(ps[1..][i - 1]);
      }
    } else if ps != [] {
      assert ps[..0] == [];
      assert Matching(ps[..0]) == [];
    } else {
      assert ps[..0] == [];
    }
  }

  /** With no fatal process the reaper terminates exactly the matching ones,
      one sleep each, and reports found exactly when one matched. */
  lemma ReapClean(ps: seq<Process>)
    requires forall i :: 0 <= i < |ps| ==> !Fatal(ps[i])
    ensures !Reap(ps).crashed
    ensures Reap(ps).events == Notices(Matching(ps))
    ensures Reap(ps).found <==> exists i :: 0 <= i < |ps| && Matches(ps[i])
  {
    SafePrefixSpec(ps);
    ReapSpec(ps);
    assert ps[..|ps|] == ps;
  }

  // ---------------------------------------------------------------------
  // Machine-id reset (`reset_machine_id`)

  /** Guard the file, then overwrite it (or create it) with the new id. */
  function ResetMachineId(env: Env, s: State, root: string, newId: string): Step {
    var path := MachineIdPath(root);
    var g := Guard(env, s, path);
    if g.status == Failed then g
    else if CanWrite(env, g.state, path) then Step(g.state.(files := g.state.files[path := newId]), Done)
    else Step(g.state, Failed)
  }

  /** The reset never skips; when it succeeds the id is the whole content of
      the file, and it fails exactly when the guard or the write fails. */
  lemma ResetSpec(env: Env, s: State, root: string, newId: string)
    ensures var r := ResetMachineId(env, s, root, newId);
      var g := Guard(env, s, MachineIdPath(root));
      r.status != Skipped &&
      (r.status == Failed <==> g.status == Failed || !CanWrite(env, g.state, MachineIdPath(root))) &&
      (r.status == Done ==> r.state.files == s.files[MachineIdPath(root) := newId]) &&
      (r.status == Failed ==> r.state.files == s.files)
    ensures var r := ResetMachineId(env, s, root, newId);
      var g := Guard(env, s, MachineIdPath(root));
      r.state.log == g.state.log && r.state.writable == g.state.writable
  {
    GuardFrame(env, s, MachineIdPath(root));
  }

  // ---------------------------------------------------------------------
  // product.json edit (`modify_product_json`)

  /** Guard the file; skip it when missing; otherwise read, decode, edit and
      write it back. Reading a directory, malformed JSON, a document that is
      not an object, or a failed write abort. */
  function ModifyProductJson(env: Env, s: State, root: string, limit: Value, codec: Codec): Step {
    var path := ProductJsonPath(root);
    var g := Guard(env, s, path);
    if g.status == Failed then g
    else if !Exists(env, g.state, path) then Step(g.state, Skipped)
    else if !CanRead(env, g.state, path) then Step(g.state, Failed)
    else match codec.decode(g.state.files[path])
      case None => Step(g.state, Failed)
      case Some(doc) =>
        match Product.Apply(doc, limit)
        case None => Step(g.state, Failed)
        case Some(edited) =>
          if CanWrite(env, g.state, path) then Step(g.state.(files := g.state.files[path := codec.encode(edited)]), Done)
          else Step(g.state, Failed)
  }

  /** A missing product.json is skipped with nothing written; the edit
      fails exactly when the guard fails, or the file exists and cannot be
      read, does not decode to a JSON object, or cannot be written; a
      completed edit writes the encoding of the edited object decoded from
      the old text; a failure writes nothing. */
  lemma ProductSpec(env: Env, s: State, root: string, limit: Value, codec: Codec)
    ensures var path := ProductJsonPath(root);
      var r := ModifyProductJson(env, s, root, limit, codec);
      var g := Guard(env, s, path);
      (r.status == Skipped <==> !Exists(env, s, path)) &&
      (r.status == Failed <==>
        (g.status == Failed ||
         (Exists(env, s, path) &&
          (!CanRead(env, s, path) || !(codec.decode(s.files[path]).Some? && codec.decode(s.files[path]).value.Obj?) ||
           !CanWrite(env, g.state, path))))) &&
      (r.status != Done ==> r.state.files == s.files) &&
      (r.status == Done ==>
        path in s.files &&
        (exists fields :: codec.decode(s.files[path]) == Some(Obj(fields)) &&
          r.state.files == s.files[path := codec.encode(Obj(Product.SetFields(fields, limit)))]))
    ensures var r := ModifyProductJson(env, s, root, limit, codec);
      var g := Guard(env, s, ProductJsonPath(root));
      r.state.log == g.state.log && r.state.writable == g.state.writable
  {
    var path := ProductJsonPath(root);
    GuardFrame(env, s, path);
    var g := Guard(env, s, path);
    assert Exists(env, g.state, path) <==> Exists(env, s, path);
    assert CanRead(env, g.state, path) <==> CanRead(env, s, path);
    var r := ModifyProductJson(env, s, root, limit, codec);
    if r.status == Done {
      var doc := codec.decode(s.files[path]).value;
      assert codec.decode(s.files[path]) == Some(Obj(doc.fields));
    }
  }

  /** The edit changes no file but product.json, and only when it succeeds. */
  lemma ProductOnlyAt(env: Env, s: State, root: string, limit: Value, codec: Codec)
    ensures var r := ModifyProductJson(env, s, root, limit, codec);
      OnlyAt(s.files, r.state.files, ProductJsonPath(root)) && (r.status != Done ==> r.state.files == s.files)
  {
    ProductSpec(env, s, root, limit, codec);
  }

  /** Running the edit a second time, when the codec reads back the
      document it wrote, changes nothing at all: the file is now writable, so
      no command is run, and the document is already edited. */
  lemma ProductTwice(env: Env, s: State, root: string, limit: Value, codec: Codec, fields: map<string, Value>)
    requires ModifyProductJson(env, s, root, limit, codec).status == Done
    requires ProductJsonPath(root) in s.files
    requires codec.decode(s.files[ProductJsonPath(root)]) == Some(Obj(fields))
    requires RoundTrips(codec, Obj(Product.SetFields(fields, limit)))
    ensures var t := ModifyProductJson(env, s, root, limit, codec).state;
      ModifyProductJson(env, t, root, limit, codec) == Step(t, Done)
  {
    var path := ProductJsonPath(root);
    GuardFrame(env, s, path);
    var t := ModifyProductJson(env, s, root, limit, codec).state;
    var edited := Obj(Product.SetFields(fields, limit));
    assert t.files[path] == codec.encode(edited);
    Product.ApplyIdempotent(Obj(fields), limit);
    GuardNoEscalation(env, t, path);
  }

  // ---------------------------------------------------------------------
  // Workbench patch (`patch_workbench`)

  /** Guard the script; skip it when missing; otherwise read it, wrap both
      markers and write it back. Reading a directory or a failed write
      abort. */
  function PatchWorkbench(env: Env, s: State, root: string, version: string): Step {
    var path := WorkbenchPath(root, version);
    var g := Guard(env, s, path);
    if g.status == Failed then g
    else if !Exists(env, g.state, path) then Step(g.state, Skipped)
    else if !CanRead(env, g.state, path) then Step(g.state, Failed)
    else if CanWrite(env, g.state, path) then
      Step(g.state.(files := g.state.files[path := Workbench.Patch(g.state.files[path])]), Done)
    else Step(g.state, Failed)
  }

  /** A missing script is skipped with nothing written; the patch fails
      exactly when the guard fails, or the script exists and cannot be read
      or written; a completed patch replaces the script by its patched text;
      a failure writes nothing. */
  lemma WorkbenchSpec(env: Env, s: State, root: string, version: string)
    ensures var path := WorkbenchPath(root, version);
      var r := PatchWorkbench(env, s, root, version);
      var g := Guard(env, s, path);
      (r.status == Skipped <==> !Exists(env, s, path)) &&
      (r.status == Failed <==>
        (g.status == Failed || (Exists(env, s, path) && (!CanRead(env, s, path) || !CanWrite(env, g.state, path))))) &&
      (r.status != Done ==> r.state.files == s.files) &&
      (r.status == Done ==> path in s.files && r.state.files == s.files[path := Workbench.Patch(s.files[path])])
    ensures var r := PatchWorkbench(env, s, root, version);
      var g := Guard(env, s, WorkbenchPath(root, version));
      r.state.log == g.state.log && r.state.writable == g.state.writable
  {
    GuardFrame(env, s, WorkbenchPath(root, version));
  }

  /** The patch changes no file but the script, and only when it succeeds. */
  lemma WorkbenchOnlyAt(env: Env, s: State, root: string, version: string)
    ensures var r := PatchWorkbench(env, s, root, version);
      OnlyAt(s.files, r.state.files, WorkbenchPath(root, version)) && (r.status != Done ==> r.state.files == s.files)
  {
    WorkbenchSpec(env, s, root, version);
  }
}
