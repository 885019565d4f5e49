/** The three files the pipeline edits, named with `os.path.join` under the
    Cursor installation root, for a POSIX host. */
module Paths {

  /** `posixpath.join(a, b)`: an absolute `b` replaces `a`; otherwise a
      separator is inserted unless `a` is empty or already ends in one. */
  function Join(a: string, b: string): string {
    if |b| > 0 && b[0] == '/' then b
    else if a == [] || a[|a| - 1] == '/' then a + b
    else a + "/" + b
  }

  const MachineIdLeaf: string := "machineId"
  const ProductJsonLeaf: string := "product.json"

  /** The workbench script, relative to the root, for one Cursor version. */
  function WorkbenchLeaf(version: string): string {
    "app-" + version + "/resources/app/out/vs/code/electron-browser/workbench/workbench.desktop.main.js"
  }

  function MachineIdPath(root: string): string {
    Join(root, MachineIdLeaf)
  }

  function ProductJsonPath(root: string): string {
    Join(root, ProductJsonLeaf)
  }

  function WorkbenchPath(root: string, version: string): string {
    Join(root, WorkbenchLeaf(version))
  }

  /** A joined path always ends with its second part. */
  lemma JoinEndsWith(a: string, b: string)
    ensures |b| <= |Join(a, b)| && Join(a, b)[|Join(a, b)| - |b|..] == b
  {
  }

  /** For a relative second part, the first part is kept as a prefix. */
  lemma JoinKeepsRoot(a: string, b: string)
    requires |b| > 0 && b[0] != '/'
    ensures |a| <= |Join(a, b)| && Join(a, b)[..|a|] == a
  {
  }

  /** The last character of a joined path is the last character of its
      second part. */
  lemma JoinLast(a: string, b: string)
    requires b != []
    ensures Join(a, b) != [] && Join(a, b)[|Join(a, b)| - 1] == b[|b| - 1]
  {
    JoinEndsWith(a, b);
    var j := Join(a, b);
    assert j[|j| - |b|..][|b| - 1] == j[|j| - 1];
  }

  /** The three targets are always three different files: their names end in
      different characters. */
  lemma TargetsDistinct(root: string, version: string)
    ensures MachineIdPath(root) != ProductJsonPath(root)
    ensures MachineIdPath(root) != WorkbenchPath(root, version)
    ensures ProductJsonPath(root) != WorkbenchPath(root, version)
  {
    var w := WorkbenchLeaf(version);
    assert w[|w| - 1] == 's';
    JoinLast(root, MachineIdLeaf);
    JoinLast(root, ProductJsonLeaf);
    JoinLast(root, w);
  }
}
