/** The host the installer runs on, as the pipeline sees it: the facts it
    cannot change (platform, login name, directories, process table, how
    external commands turn out) and the state it does change (file contents,
    which paths it may write, and the trace of commands, terminations and
    sleeps). */
module Host {
  import opened Optional

  /** An external command, as its argument vector. */
  type Command = seq<string>

  /** One entry of `psutil.process_iter(['name'])`: the name is None when it
      could not be read; `stoppable` says whether `terminate()` returns
      normally (it raises when the process is gone or not ours). */
  datatype Process = Process(pid: nat, name: Option<string>, stoppable: bool)

  datatype Event =
    | Ran(command: Command)
    | Terminated(pid: nat)
    | Slept(seconds: nat)

  /** `system` is what `platform.system()` returns, `user` what
      `os.getlogin()` returns; `accepted` are the commands that exit with
      status 0 and `granting` those that also leave their path writable. */
  datatype Env = Env(
    system: string,
    user: string,
    dirs: set<string>,
    processes: seq<Process>,
    accepted: set<Command>,
    granting: set<Command>)

  /** `files` maps each regular file to its text; `writable` holds the paths
      the installer may open for writing (for a missing path: may create). */
  datatype State = State(files: map<string, string>, writable: set<string>, log: seq<Event>)

  /** How a step ended. `Failed` stands for both `exit(1)` and an uncaught
      exception: either ends the program. */
  datatype Status = Done | Skipped | Failed

  datatype Step = Step(state: State, status: Status)

  /** `os.path.exists`. */
  predicate Exists(env: Env, s: State, path: string) {
    path in s.files || path in env.dirs
  }

  /** `open(path, 'w')` succeeds. */
  predicate CanWrite(env: Env, s: State, path: string) {
    path in s.writable && path !in env.dirs
  }

  /** `open(path, 'r')` succeeds. */
  predicate CanRead(env: Env, s: State, path: string) {
    path in s.files && path !in env.dirs
  }

  /** The file at `path` is the same in both maps (present in both with the
      same text, or absent from both). */
  predicate SameAt(f: map<string, string>, g: map<string, string>, path: string) {
    (path in f <==> path in g) && (path in f ==> f[path] == g[path])
  }

  /** The two maps differ at most in the file at `path`. */
  ghost predicate OnlyAt(f: map<string, string>, g: map<string, string>, path: string) {
    forall q :: q != path ==> SameAt(f, g, q)
  }
}
