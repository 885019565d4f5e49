# Cursor Pro unlocker: the installation patching pipeline

This project models the core of `cursor_pro_unlock_auto.py` and proves
properties of it. The core is the pipeline that edits a local Cursor
installation. Once the configuration is loaded, `main`:

1. stops if the installation root does not exist;
2. asks which browser to use (`select_browser`);
3. terminates every process whose name contains `Cursor`;
4. overwrites `<root>/machineId` with a fresh id;
5. sets two keys in `<root>/product.json`;
6. wraps two marker words of
   `<root>/app-<version>/.../workbench.desktop.main.js` in block comments;
7. opens the login page.

Before each file step, `check_and_set_permissions` may run one
platform-specific command to make the file writable. Any failure ends the
program, and whatever earlier steps wrote stays written.

The model has these modules:

- `Substitution`: Python's `str.replace` and `str.count` for a non-empty
  pattern, as a left-to-right scan.
- `Wrapping`: general facts about wrapping an inert marker (one without `/`
  or `*`) as `/*marker*/`.
- `Workbench`: the workbench script edit, which wraps `checkForUpdates` and
  then `restrictPremiumModels`.
- `Json` and `Product`: a decoded JSON document, and the product.json edit
  modelled as a map update.
- `Paths`: `posixpath.join` and the three target files.
- `Host`: the host state and environment. The state has the file contents,
  the writable paths, and a trace of commands, terminations and sleeps. The
  environment has the platform, the login name, the directories, the process
  table, and which commands succeed.
- `Steps`: each step as a function from the host state to the new state and
  a status (`Done`, `Skipped` or `Failed`).
- `Pipeline`: the fixed step order with early exit (`Execute`).
- `Unlocker`: a `Session` class holding the mutable host state. It has one
  method per Python function. Each method's postcondition says its new state
  and status are exactly those of the matching `Steps` or `Pipeline`
  function.

Three behaviours of the code are kept as written, although a safer pipeline would differ:

- The permission guard never re-checks writability after the command.
- The process loop can raise, on an unreadable name or a failing
  `terminate()`, and that ends the run.
- Patching the workbench script twice wraps the markers twice
  (`PatchIdempotentIff`, `RepatchExample`).

## Model

| member | source | states |
|---|---|---|
| `Substitution.ReplaceLength` | cursor_pro_unlock_auto.py:227-229 | each replacement changes the text length by the length difference, once per non-overlapping occurrence |
| `Substitution.CountPositiveIff` | cursor_pro_unlock_auto.py:227-229 | the occurrence count is positive exactly when the pattern occurs in the text |
| `Substitution.ReplaceAbsent` | cursor_pro_unlock_auto.py:227-229 | text without the pattern comes back unchanged |
| `Substitution.ReplacePresent` | cursor_pro_unlock_auto.py:227-229 | text with the pattern is changed whenever the replacement has a different length |
| `Wrapping.WrapsEvery` | cursor_pro_unlock_auto.py:227-228 | after wrapping an inert marker, every occurrence of it in the output is inside `/*...*/` |
| `Wrapping.UnwrapRoundTrip` | cursor_pro_unlock_auto.py:227-228 | replacing the wrapped marker back by the marker gives the original text, so no other text is changed |
| `Wrapping.CountWrapped` | cursor_pro_unlock_auto.py:227-228 | wrapping keeps the number of occurrences of the marker |
| `Wrapping.CountPreserved` | cursor_pro_unlock_auto.py:227-229 | wrapping one marker keeps the occurrence count of another marker that cannot overlap it |
| `Wrapping.PreservesWrapped` | cursor_pro_unlock_auto.py:227-229 | wrapping a second marker keeps every occurrence of the first one wrapped |
| `Workbench.PatchWrapsEvery` | cursor_pro_unlock_auto.py:227-229 | after the patch, every `checkForUpdates` and every `restrictPremiumModels` is wrapped as `/*marker*/` |
| `Workbench.PatchRoundTrip` | cursor_pro_unlock_auto.py:227-229 | unwrapping both markers of the patched text gives back the original, so all other text is kept in order |
| `Workbench.PatchKeepsMarkerCounts` | cursor_pro_unlock_auto.py:227-229 | the patched text holds each marker exactly as often as the original |
| `Workbench.PatchLength` | cursor_pro_unlock_auto.py:227-229 | the patched text is longer by exactly 4 characters per marker occurrence |
| `Workbench.PatchUnchangedIff` | cursor_pro_unlock_auto.py:227-229 | the patch leaves the text unchanged if and only if neither marker occurs |
| `Workbench.PatchIdempotentIff` | cursor_pro_unlock_auto.py:227-229 | patching twice equals patching once if and only if the text had no marker, so there is no re-wrap guard |
| `Workbench.RepatchExample` | cursor_pro_unlock_auto.py:227-229 | `checkForUpdates` patches to `/*checkForUpdates*/`, and a second run gives `/*/*checkForUpdates*/*/` |
| `Product.SetFieldsSpec` | cursor_pro_unlock_auto.py:199-200 | the edited object has the old keys plus the two; `tokenLimit` is the limit and `premiumModels` is exactly `["gpt-4o-mini", "gpt-4", "claude-3.5-sonnet"]` whatever they held; every other key keeps its value |
| `Product.SetFieldsIdempotent` | cursor_pro_unlock_auto.py:199-200 | setting the two keys a second time changes nothing |
| `Product.ApplyIdempotent` | cursor_pro_unlock_auto.py:198-202 | editing the edited document again gives the same document |
| `Paths.JoinEndsWith` | cursor_pro_unlock_auto.py:168 | a joined path ends with its second part |
| `Paths.JoinKeepsRoot` | cursor_pro_unlock_auto.py:168 | joining a relative part keeps the root as a prefix |
| `Paths.TargetsDistinct` | cursor_pro_unlock_auto.py:166-215 | machineId, product.json and the workbench script are three different paths for every root and version |
| `Steps.GuardFrame` | cursor_pro_unlock_auto.py:110-129 | the guard never changes a file, never skips, gains writability only for its path, and adds at most its one command to the trace |
| `Steps.GuardNoEscalation` | cursor_pro_unlock_auto.py:113-117 | a missing or already writable path gets no command and no change |
| `Steps.GuardEscalates` | cursor_pro_unlock_auto.py:117-121 | an existing unwritable path gets exactly `sudo chmod u+rw path` on Linux and Darwin and `icacls path /grant user:F` on Windows, with no file changed; the guard fails exactly when that command fails and the path becomes writable exactly when it succeeds and grants access; on any other platform nothing happens and the guard passes |
| `Steps.GuardNoRecheck` | cursor_pro_unlock_auto.py:117-122 | a command that succeeds without granting access passes the guard with the path still unwritable |
| `Steps.ReapSpec` | cursor_pro_unlock_auto.py:157-163 | the loop raises exactly when a fatal process exists; before that point it terminates exactly the matching processes, in order, with one sleep after each; `found` says whether a process up to the stopping point matched |
| `Steps.ReapClean` | cursor_pro_unlock_auto.py:157-164 | with no fatal process the loop does not fail, terminates exactly the processes whose name contains `Cursor` with one sleep each, and reports found if and only if one matched |
| `Steps.NoticesSpec` | cursor_pro_unlock_auto.py:161-163 | each matching process gives one termination followed by one 1-second sleep, in table order |
| `Steps.NoticesPids` | cursor_pro_unlock_auto.py:159-161 | a pid is terminated if and only if one of the matching processes has it |
| `Steps.ResetSpec` | cursor_pro_unlock_auto.py:166-183 | the reset never skips; on success the new id is the whole content of `machineId` (created or replaced); it fails exactly when the guard or the write fails, and then writes nothing; its trace and writable paths are those its guard left |
| `Steps.ProductSpec` | cursor_pro_unlock_auto.py:185-208 | a missing product.json is skipped with nothing written; the step fails exactly when the guard fails, or the file exists and cannot be read, does not decode to a JSON object, or cannot be written; success writes the encoding of the edited object decoded from the old text; a failure writes nothing; its trace and writable paths are those its guard left |
| `Steps.ProductOnlyAt` | cursor_pro_unlock_auto.py:196-202 | the product.json step changes no other file, and changes nothing unless it succeeds |
| `Steps.ProductTwice` | cursor_pro_unlock_auto.py:196-202 | when the codec reads back what it wrote, running the product.json step again changes nothing at all |
| `Steps.WorkbenchSpec` | cursor_pro_unlock_auto.py:210-237 | a missing script is skipped with nothing written; the step fails exactly when the guard fails, or the script exists and cannot be read or written; success replaces the script by its patched text; a failure writes nothing; its trace and writable paths are those its guard left |
| `Steps.WorkbenchOnlyAt` | cursor_pro_unlock_auto.py:224-231 | the workbench step changes no other file, and changes nothing unless it succeeds |
| `Pipeline.MissingRootAborts` | cursor_pro_unlock_auto.py:336-342 | a missing installation root stops the run before any step, with the state unchanged |
| `Pipeline.StageFiles` | cursor_pro_unlock_auto.py:345-350 | the reaper writes no file; each later stage changes at most its own target, and only when it succeeds |
| `Pipeline.ConcludeStages` | cursor_pro_unlock_auto.py:345-350 | for three different targets, stopping at a stage leaves that stage's target and every later one as it was, and getting past a stage keeps what it wrote |
| `Pipeline.OnlyTargetsChange` | cursor_pro_unlock_auto.py:345-350 | no file other than the three targets is changed by a run |
| `Pipeline.LaterTargetsUntouched` | cursor_pro_unlock_auto.py:345-350 | a run that stops at a stage leaves the target of that stage and of every later stage as it was |
| `Pipeline.MachineIdKept` | cursor_pro_unlock_auto.py:346-350 | once past the machine-id stage, `machineId` holds exactly the new id, whatever later steps do |
| `Pipeline.ProductKept` | cursor_pro_unlock_auto.py:347-350 | once past the product.json stage, the file is still missing or holds the edited encoding of its original object |
| `Pipeline.WorkbenchKept` | cursor_pro_unlock_auto.py:348-350 | once past the workbench stage, the script is still missing or holds the patch of its original text |
| `Pipeline.RunTrace` | cursor_pro_unlock_auto.py:336-351 | in every run, aborted or completed, the trace is the reaper's terminations and sleeps (once the root was found), then at most one escalation for each target whose stage was reached, in stage order, and none for any stage after the one the run stopped at; write access is gained only for those same targets |
| `Pipeline.ConcludeTrace` | cursor_pro_unlock_auto.py:342-351 | whatever each stage adds to the trace, an ending at a stage keeps the additions of that stage and the earlier ones, in order, and none of the later ones |
| `Pipeline.ConcludeWritable` | cursor_pro_unlock_auto.py:342-351 | an ending at a stage gains write access at most for the targets of that stage and the earlier ones |
| `Pipeline.CompletedTrace` | cursor_pro_unlock_auto.py:348-351 | in a completed run the trace is the reaper's terminations and sleeps, then at most one escalation for each of machineId, product.json and the script, in that order |
| `Pipeline.CompletedIff` | cursor_pro_unlock_auto.py:336-352 | the run completes exactly when the root exists, no step fails and the login page opens |
| `Unlocker.Session.CheckAndSetPermissions` | cursor_pro_unlock_auto.py:110-129 | the new host state and status are exactly those of `Steps.Guard` |
| `Unlocker.Session.CheckCursorProcess` | cursor_pro_unlock_auto.py:149-164 | the loop leaves files and writability alone, appends exactly the reaper's events to the trace, and returns its found flag and failure |
| `Unlocker.Session.ResetMachineId` | cursor_pro_unlock_auto.py:166-183 | the new host state and status are exactly those of `Steps.ResetMachineId` |
| `Unlocker.Session.ModifyProductJson` | cursor_pro_unlock_auto.py:185-208 | the in-place edit of the decoded dict gives exactly the new host state and status of `Steps.ModifyProductJson` |
| `Unlocker.Session.PatchWorkbench` | cursor_pro_unlock_auto.py:210-237 | the new host state and status are exactly those of `Steps.PatchWorkbench` |
| `Unlocker.Session.Run` | cursor_pro_unlock_auto.py:317-352 | running the steps in order, stopping at the first failure, gives exactly the final state and outcome of `Pipeline.Execute` |

## Left out

- `os.path.expanduser` is not modelled. It reads the home directory from the
  environment. The model takes `cursor_path` after expansion; every step
  expands the same root the same way.
- Windows path joining (`ntpath.join`) is not modelled. `Paths.Join` is
  `posixpath.join`.
- `load_config` (lines 131-147) is not modelled; the model starts from its
  three settings. On first run it writes a default file and exits, and the
  default `cursor_path` comes from the `CURSOR_PATHS` lookup at line 135.
- JSON parsing and serialisation are passed in as a `Codec`. Its
  formatting, its key order and its number representation are not modelled,
  and numbers are integers only.
- Text-mode reading and writing is not modelled: newline translation and
  decoding errors are left out, and files hold text as strings.
- The host is not constrained to a consistent one: nothing stops a path
  from being both a file and a directory, or `""` from being a directory,
  although `os.path.exists("")` is false. The three target paths are never
  empty, and every lemma holds for any host.
- Only read failures on a directory are modelled. A permission denied on
  read is not.
- A write is modelled as all-or-nothing. A failure after `open(path, 'w')` has
  truncated the file but before `json.dump` finishes is not modelled.
- The real effects of `sudo`, `icacls`, `terminate()` and `time.sleep` are
  not modelled. They appear as trace events.
- Whether a command succeeds or grants access is a fact of the environment.
  An exception from `os.getlogin()` or a missing command binary counts as a
  failed step, as it also ends the program. The model can only express it
  as a refused command, so the trace then shows `Ran` of a command that
  never ran.
- The process table is a fixed sequence. Processes that start or
  exit during the scan are only modelled through a failing `terminate()`.
- `uuid.uuid4()` is not modelled. The new id is a parameter, so nothing is
  claimed about its uniqueness.
- `select_browser` and `open_login_page` (lines 239-301) are not modelled.
  They use an interactive prompt and Selenium; the login step is a boolean
  parameter saying whether it returned normally. The browser prompt at line
  345 is assumed to return: an end of input or an interrupt there ends the
  run after the root check and before the reaper, and `Execute` has no
  outcome for that.
- `install_packages`, `reshape_text`, `welcome_animation`, the rich console
  output, progress spinners and logging are not modelled. They are
  dependency bootstrapping or presentation only.
- Substitution.ReplaceAll and Substitution.Count require a non-empty
  pattern. That covers both markers. Python's empty-pattern behaviour is
  never used here.
