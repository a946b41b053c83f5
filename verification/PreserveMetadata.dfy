/** Running an ELF editing command over the modules of a directory and checking that their metadata survived. */
module PreserveMetadata {
  import opened Wrappers
  import opened Bytes
  import opened ElfNotes

  type Path = string

  /** What a path is on disk. */
  datatype Node = Missing | Symlink | Directory | File(data: seq<byte>)

  datatype CheckError =
    | CommandFailed(status: int)
    | Unreadable(path: Path)
    | Malformed(path: Path, error: ElfError)
    | BecameSymlink(path: Path)
    | Removed(path: Path)
    | Changed(path: Path)

  /** The command: what it turns the disk into, and the status of its failure, if it fails. */
  datatype Command = Command(effect: map<Path, Node> -> map<Path, Node>, failure: Option<int>)

  function NodeAt(nodes: map<Path, Node>, path: Path): Node {
    if path in nodes then nodes[path] else Missing
  }

  class Disk {
    var nodes: map<Path, Node>

    constructor (nodes: map<Path, Node>)
      ensures this.nodes == nodes
    {
      this.nodes := nodes;
    }

    /** subprocess.run with check=True. */
    method Run(command: Command) returns (failure: Option<int>)
      modifies this
      ensures nodes == command.effect(old(nodes)) && failure == command.failure
    {
      nodes := command.effect(nodes);
      failure := command.failure;
    }
  }

  /** read_module_info of a path. */
  function ReadPath(path: Path, node: Node): Result<seq<byte>, CheckError> {
    match node
    case File(data) =>
      var info := ModuleInfo(data);
      if info.Err? then Err(Malformed(path, info.error)) else Ok(info.value)
    case _ => Err(Unreadable(path))
  }

  datatype Saved = Saved(path: Path, record: seq<byte>)

  /** The records of the first k paths that are regular files with one, or the first file that cannot be read. */
  function SavedUpTo(nodes: map<Path, Node>, paths: seq<Path>, k: nat): Result<seq<Saved>, CheckError>
    requires k <= |paths|
  {
    if k == 0 then Ok([])
    else
      var saved :- SavedUpTo(nodes, paths, k - 1);
      var node := NodeAt(nodes, paths[k - 1]);
      if !node.File? then Ok(saved)
      else
        var record :- ReadPath(paths[k - 1], node);
        Ok(if record == [] then saved else saved + [Saved(paths[k - 1], record)])
  }

  /** What is wrong with a module after the command. */
  function Fault(nodes: map<Path, Node>, s: Saved): Option<CheckError> {
    var node := NodeAt(nodes, s.path);
    if node.Symlink? then Some(BecameSymlink(s.path))
    else
      match ReadPath(s.path, node)
      case Err(e) => Some(e)
      case Ok(current) =>
        if current == [] then Some(Removed(s.path))
        else if current != s.record then Some(Changed(s.path))
        else None
  }

  function Faults(nodes: map<Path, Node>, saved: seq<Saved>): seq<CheckError> {
    if saved == [] then []
    else
      Faults(nodes, saved[..|saved| - 1])
      + match Fault(nodes, saved[|saved| - 1]) { case Some(e) => [e] case None => [] }
  }

  /** How preserve ends: an error before the command runs, a normal return, one error, or a group of errors. */
  datatype Outcome = Rejected(error: CheckError) | Returned | Raised(error: CheckError) | RaisedGroup(errors: seq<CheckError>)

  function Report(errors: seq<CheckError>): Outcome {
    if errors == [] then Returned else if |errors| == 1 then Raised(errors[0]) else RaisedGroup(errors)
  }

  function CommandErrors(failure: Option<int>): seq<CheckError> {
    match failure { case Some(status) => [CommandFailed(status)] case None => [] }
  }

  lemma {:induction false} SavedErrorStays(nodes: map<Path, Node>, paths: seq<Path>, m: nat, n: nat)
    requires m <= n <= |paths| && SavedUpTo(nodes, paths, m).Err?
    ensures SavedUpTo(nodes, paths, n) == SavedUpTo(nodes, paths, m)
  {
    if m < n {
      SavedErrorStays(nodes, paths, m, n - 1);
    }
  }

  /** preserve, over the sorted paths that match *.qmod. A module that cannot be read beforehand ends it with the disk
      untouched; otherwise the command runs once and every saved module is checked, whatever failed before. */
  method Preserve(disk: Disk, paths: seq<Path>, command: Command) returns (outcome: Outcome)
    modifies disk
    ensures var saved := SavedUpTo(old(disk.nodes), paths, |paths|);
      && (saved.Err? ==> outcome == Rejected(saved.error) && disk.nodes == old(disk.nodes))
      && (saved.Ok? ==>
            && disk.nodes == command.effect(old(disk.nodes))
            && outcome == Report(CommandErrors(command.failure) + Faults(disk.nodes, saved.value)))
  {
    hide ReadPath, Fault, CommandErrors, Report;
    var saved: seq<Saved> := [];
    for i := 0 to |paths|
      invariant disk.nodes == old(disk.nodes)
      invariant SavedUpTo(disk.nodes, paths, i) == Ok(saved)
    {
      var node := NodeAt(disk.nodes, paths[i]);
      if node.File? {
        var record := ReadPath(paths[i], node);
        if record.Err? {
          SavedErrorStays(disk.nodes, paths, i + 1, |paths|);
          return Rejected(record.error);
        }
        if record.value != [] {
          saved := saved + [Saved(paths[i], record.value)];
        }
      }
    }
    var failure := disk.Run(command);
    var errors := CommandErrors(failure);
    for i := 0 to |saved|
      invariant disk.nodes == command.effect(old(disk.nodes))
      invariant errors == CommandErrors(failure) + Faults(disk.nodes, saved[..i])
    {
      assert saved[..i + 1][..i] == saved[..i];
      var fault := Fault(disk.nodes, saved[i]);
      if fault.Some? {
        errors := errors + [fault.value];
      }
    }
    assert saved[..|saved|] == saved;
    outcome := Report(errors);
  }

  // What a normal return promises

  /** The module at a path had a record. */
  predicate HadRecord(nodes: map<Path, Node>, path: Path) {
    var node := NodeAt(nodes, path);
    node.File? && ModuleInfo(node.data).Ok? && ModuleInfo(node.data).value != []
  }

  /** The module at a path is a regular file with the record it had. */
  predicate KeptRecord(before: map<Path, Node>, after: map<Path, Node>, path: Path)
    requires HadRecord(before, path)
  {
    var node := NodeAt(after, path);
    node.File? && ModuleInfo(node.data) == ModuleInfo(NodeAt(before, path).data)
  }

  lemma {:induction false} SavedAreRecords(nodes: map<Path, Node>, paths: seq<Path>, k: nat)
    requires k <= |paths| && SavedUpTo(nodes, paths, k).Ok?
    ensures forall i :: 0 <= i < k && HadRecord(nodes, paths[i]) ==>
              Saved(paths[i], ModuleInfo(NodeAt(nodes, paths[i]).data).value) in SavedUpTo(nodes, paths, k).value
    ensures forall s :: s in SavedUpTo(nodes, paths, k).value ==>
              HadRecord(nodes, s.path) && s.record == ModuleInfo(NodeAt(nodes, s.path).data).value && s.path in paths
  {
    hide ModuleInfo;
    if k > 0 {
      SavedAreRecords(nodes, paths, k - 1);
    }
  }

  lemma {:induction false} FaultlessExactly(nodes: map<Path, Node>, saved: seq<Saved>)
    ensures Faults(nodes, saved) == [] <==> forall s :: s in saved ==> Fault(nodes, s).None?
    ensures |Faults(nodes, saved)| <= |saved|
  {
    hide Fault;
    if saved != [] {
      var n := |saved| - 1;
      FaultlessExactly(nodes, saved[..n]);
      assert saved == saved[..n] + [saved[n]];
    }
  }

  /** preserve returns normally exactly when the command succeeded and every module that had a metadata record is still
      a regular file with the identical record. */
  lemma ReturnsExactlyWhenKept(before: map<Path, Node>, after: map<Path, Node>, paths: seq<Path>, failure: Option<int>)
    requires SavedUpTo(before, paths, |paths|).Ok?
    ensures Report(CommandErrors(failure) + Faults(after, SavedUpTo(before, paths, |paths|).value)) == Returned
       <==> failure.None? && forall p :: p in paths && HadRecord(before, p) ==> KeptRecord(before, after, p)
  {
    var saved := SavedUpTo(before, paths, |paths|).value;
    hide ModuleInfo;
    SavedAreRecords(before, paths, |paths|);
    FaultlessExactly(after, saved);
    hide SavedUpTo, Faults;
    forall s | s in saved
      ensures Fault(after, s).None? <==> KeptRecord(before, after, s.path)
    {
    }
    forall p | p in paths && HadRecord(before, p)
      ensures Saved(p, ModuleInfo(NodeAt(before, p).data).value) in saved
    {
      var i :| 0 <= i < |paths| && paths[i] == p;
    }
  }

  /** The command never runs when some module is malformed beforehand, and only then. */
  lemma RejectedExactly(nodes: map<Path, Node>, paths: seq<Path>, k: nat)
    requires k <= |paths|
    ensures SavedUpTo(nodes, paths, k).Err?
       <==> exists i :: 0 <= i < k && NodeAt(nodes, paths[i]).File? && ModuleInfo(NodeAt(nodes, paths[i]).data).Err?
  {
    hide ModuleInfo;
    if k > 0 {
      RejectedExactly(nodes, paths, k - 1);
    }
  }
}
