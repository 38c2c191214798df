/** The worklist that follows imports from the browser's entrypoint. */
module BrowserBoundary {
  import opened Graphs

  type File = Node
  type Reason = nat

  datatype Option<+T> = None | Some(value: T)

  /** One import reference, with what the specifier rules and the resolution rules say of it. */
  datatype Import = Import(
    specifierFindings: seq<Reason>, typeOnly: bool, local: bool,
    resolved: Option<File>, resolvedFindings: seq<Reason>, asset: bool, unresolved: Reason)

  /** A file that exists; `checked` tells that its contents are looked at. */
  datatype Source = Source(checked: bool, contentFindings: seq<Reason>, imports: seq<Import>)

  datatype Finding = Finding(file: File, reason: Reason)

  const DOES_NOT_EXIST: Reason := 0

  /** Imports that break a specifier rule, import only types or leave the repository are not followed. */
  predicate IsFollowed(i: Import) {
    i.specifierFindings == [] && !i.typeOnly && i.local && i.resolved.Some?
  }

  function Tagged(file: File, reasons: seq<Reason>): seq<Finding> {
    seq(|reasons|, k requires 0 <= k < |reasons| => Finding(file, reasons[k]))
  }

  /** What one import adds to the findings. */
  function ImportFindings(file: File, i: Import): seq<Finding> {
    if i.specifierFindings != [] then Tagged(file, i.specifierFindings)
    else if i.typeOnly || !i.local then []
    else if i.resolved.Some? then Tagged(file, i.resolvedFindings)
    else if i.asset then [] else [Finding(file, i.unresolved)]
  }

  function AllImportFindings(file: File, imports: seq<Import>): seq<Finding> {
    if imports == [] then []
    else AllImportFindings(file, imports[..|imports| - 1]) + ImportFindings(file, imports[|imports| - 1])
  }

  function Targets(imports: seq<Import>): seq<File> {
    if imports == [] then []
    else
      var last := imports[|imports| - 1];
      Targets(imports[..|imports| - 1]) + if IsFollowed(last) then [last.resolved.value] else []
  }

  type Files = map<File, Source>

  function FileFindings(files: Files, file: File): seq<Finding> {
    if file !in files then [Finding(file, DOES_NOT_EXIST)]
    else if !files[file].checked then []
    else Tagged(file, files[file].contentFindings) + AllImportFindings(file, files[file].imports)
  }

  function Followed(files: Files, file: File): seq<File> {
    if file in files && files[file].checked then Targets(files[file].imports) else []
  }

  /** From every file whose contents are looked at to the files that its followed imports resolve to. */
  function ImportEdges(files: Files): Edges {
    set f, i | f in files && files[f].checked && i in files[f].imports && IsFollowed(i) :: (f, i.resolved.value)
  }

  /** The import is at fault for this reason: by its specifier, by where it resolves to, or because it does not. */
  predicate Reports(i: Import, reason: Reason) {
    || reason in i.specifierFindings
    || (i.specifierFindings == [] && !i.typeOnly && i.local
        && if i.resolved.Some? then reason in i.resolvedFindings else !i.asset && reason == i.unresolved)
  }

  /** The file is at fault for this reason: it is missing, or its contents or one of its imports are. */
  predicate FileReports(files: Files, file: File, reason: Reason) {
    if file !in files then reason == DOES_NOT_EXIST
    else
      files[file].checked
      && (reason in files[file].contentFindings || exists i :: i in files[file].imports && Reports(i, reason))
  }

  /** What is pending after a file's imports are exactly the targets of its followed imports. */
  lemma {:induction false} TargetsAreFollowed(imports: seq<Import>, t: File)
    ensures t in Targets(imports) <==> exists i :: i in imports && IsFollowed(i) && i.resolved == Some(t)
  {
    if imports != [] {
      var rest, last := imports[..|imports| - 1], imports[|imports| - 1];
      TargetsAreFollowed(rest, t);
      assert imports == rest + [last];
    }
  }

  /** What is found in a file's imports are exactly the faults of its imports. */
  lemma {:induction false} FindingsAreFaults(file: File, imports: seq<Import>, f: Finding)
    ensures f in AllImportFindings(file, imports) <==>
              f.file == file && exists i :: i in imports && Reports(i, f.reason)
  {
    if imports != [] {
      var rest, last := imports[..|imports| - 1], imports[|imports| - 1];
      FindingsAreFaults(file, rest, f);
      assert imports == rest + [last];
      OneImportsFaults(file, last, f);
    }
  }

  lemma TaggedHolds(file: File, reasons: seq<Reason>, f: Finding)
    ensures f in Tagged(file, reasons) <==> f.file == file && f.reason in reasons
  {
    if f.file == file && f.reason in reasons {
      var k :| 0 <= k < |reasons| && reasons[k] == f.reason;
      assert Tagged(file, reasons)[k] == f;
    }
  }

  lemma OneImportsFaults(file: File, i: Import, f: Finding)
    ensures f in ImportFindings(file, i) <==> f.file == file && Reports(i, f.reason)
  {
    TaggedHolds(file, i.specifierFindings, f);
    TaggedHolds(file, i.resolvedFindings, f);
  }

  lemma FileFindingsAreFaults(files: Files, file: File, f: Finding)
    ensures f in FileFindings(files, file) <==> f.file == file && FileReports(files, file, f.reason)
  {
    if file in files {
      TaggedHolds(file, files[file].contentFindings, f);
      FindingsAreFaults(file, files[file].imports, f);
    }
  }

  lemma {:induction false} FindingsAreOfVisits(files: Files, visits: seq<File>, f: Finding)
    ensures f in FindingsOf(files, visits) <==> f.file in visits && FileReports(files, f.file, f.reason)
  {
    if visits != [] {
      var rest, last := visits[..|visits| - 1], visits[|visits| - 1];
      FindingsAreOfVisits(files, rest, f);
      FileFindingsAreFaults(files, last, f);
      assert visits == rest + [last];
    }
  }

  lemma FollowedAreEdges(files: Files, file: File, t: File)
    ensures t in Followed(files, file) <==> (file, t) in ImportEdges(files)
  {
    if file in files {
      TargetsAreFollowed(files[file].imports, t);
    }
  }

  /** Everything the visited files report, file by file in the order of the visits. */
  function FindingsOf(files: Files, visits: seq<File>): seq<Finding> {
    if visits == [] then [] else FindingsOf(files, visits[..|visits| - 1]) + FileFindings(files, visits[|visits| - 1])
  }

  /** One file's imports: their findings, and the files to look at next. */
  method CollectImportDependencies(file: File, imports: seq<Import>)
    returns (findings: seq<Finding>, pending: seq<File>)
    ensures findings == AllImportFindings(file, imports) && pending == Targets(imports)
    ensures forall t :: t in pending <==> exists i :: i in imports && IsFollowed(i) && i.resolved == Some(t)
    ensures forall f :: f in findings <==> f.file == file && exists i :: i in imports && Reports(i, f.reason)
  {
    findings, pending := [], [];
    for k := 0 to |imports|
      invariant findings == AllImportFindings(file, imports[..k]) && pending == Targets(imports[..k])
    {
      assert imports[..k + 1][..k] == imports[..k];
      var i := imports[k];
      findings := findings + ImportFindings(file, i);
      if i.specifierFindings == [] && !i.typeOnly && i.local && i.resolved.Some? {
        pending := pending + [i.resolved.value];
      }
    }
    assert imports[..|imports|] == imports;
    forall t ensures t in pending <==> exists i :: i in imports && IsFollowed(i) && i.resolved == Some(t) {
      TargetsAreFollowed(imports, t);
    }
    forall f ensures f in findings <==> f.file == file && exists i :: i in imports && Reports(i, f.reason) {
      FindingsAreFaults(file, imports, f);
    }
  }

  /** One file: a missing one is reported, an unchecked one is passed over. */
  method Visit(files: Files, file: File) returns (findings: seq<Finding>, pending: seq<File>)
    ensures findings == FileFindings(files, file) && pending == Followed(files, file)
  {
    if file !in files {
      return [Finding(file, DOES_NOT_EXIST)], [];
    }
    if !files[file].checked {
      return [], [];
    }
    findings, pending := CollectImportDependencies(file, files[file].imports);
    findings := Tagged(file, files[file].contentFindings) + findings;
  }

  function Universe(files: Files, entrypoint: File): set<File> {
    {entrypoint} + set e | e in ImportEdges(files) :: e.1
  }

  /** Everything seen is reachable, and every import of a visited file has been seen. */
  ghost predicate Frontier(files: Files, entrypoint: File, visited: set<File>, pending: seq<File>) {
    && (forall f :: f in visited || f in pending ==>
          Reaches(ImportEdges(files), entrypoint, f) && f in Universe(files, entrypoint))
    && (entrypoint in visited || entrypoint in pending)
    && (forall f, t :: (f, t) in ImportEdges(files) && f in visited ==> t in visited || t in pending)
  }

  lemma FrontierAdvances(files: Files, entrypoint: File, visited: set<File>, pending: seq<File>, file: File)
    requires Frontier(files, entrypoint, visited, pending + [file])
    ensures file in visited ==> Frontier(files, entrypoint, visited, pending)
    ensures Frontier(files, entrypoint, visited + {file}, pending + Followed(files, file))
    ensures file in Universe(files, entrypoint)
  {
    assert file in pending + [file];
    forall t ensures t in Followed(files, file) <==> (file, t) in ImportEdges(files) {
      FollowedAreEdges(files, file, t);
    }
    forall t | t in Followed(files, file)
      ensures Reaches(ImportEdges(files), entrypoint, t) && t in Universe(files, entrypoint)
    {
      ReachesAfter(ImportEdges(files), entrypoint, file, t);
    }
  }

  /** The visits so far, each once, with the findings they made. */
  ghost predicate Log(files: Files, visits: seq<File>, visited: set<File>, findings: seq<Finding>) {
    && (forall f :: f in visited <==> f in visits)
    && (forall i, j :: 0 <= i < j < |visits| ==> visits[i] != visits[j])
    && findings == FindingsOf(files, visits)
  }

  lemma LogGrows(files: Files, visits: seq<File>, visited: set<File>, findings: seq<Finding>, file: File)
    requires Log(files, visits, visited, findings) && file !in visited
    ensures Log(files, visits + [file], visited + {file}, findings + FileFindings(files, file))
  {
    assert (visits + [file])[..|visits|] == visits;
  }

  lemma NothingPending(files: Files, entrypoint: File, visited: set<File>)
    requires Frontier(files, entrypoint, visited, [])
    ensures forall f :: f in visited <==> Reaches(ImportEdges(files), entrypoint, f)
  {
    forall f | Reaches(ImportEdges(files), entrypoint, f) ensures f in visited {
      var p :| PathFrom(ImportEdges(files), entrypoint, f, p);
      ClosedHoldsReachable(ImportEdges(files), visited, entrypoint, f, p);
    }
  }

  /**
   The files visited are exactly those reachable from the entrypoint by followed imports,
   each once.  The findings are those of the visits, one after the other, and so exactly
   the faults of the reachable files.
   */
  method CheckBrowserImportBoundary(files: Files, entrypoint: File)
    returns (findings: seq<Finding>, visits: seq<File>)
    ensures forall f :: f in visits <==> Reaches(ImportEdges(files), entrypoint, f)
    ensures forall i, j :: 0 <= i < j < |visits| ==> visits[i] != visits[j]
    ensures findings == FindingsOf(files, visits)
    ensures forall f :: f in findings <==>
      Reaches(ImportEdges(files), entrypoint, f.file) && FileReports(files, f.file, f.reason)
  {
    findings, visits := [], [];
    var visited: set<File> := {};
    var pending := [entrypoint];
    ReachesItself(ImportEdges(files), entrypoint);
    while |pending| > 0
      invariant Log(files, visits, visited, findings)
      invariant Frontier(files, entrypoint, visited, pending)
      decreases Universe(files, entrypoint) - visited, |pending|
    {
      var last := |pending| - 1;
      var file := pending[last];
      assert pending == pending[..last] + [file];
      pending := pending[..last];
      FrontierAdvances(files, entrypoint, visited, pending, file);
      if file !in visited {
        LogGrows(files, visits, visited, findings, file);
        visited := visited + {file};
        visits := visits + [file];
        var more, imported := Visit(files, file);
        findings := findings + more;
        pending := pending + imported;
      }
    }
    NothingPending(files, entrypoint, visited);
    forall f ensures f in findings <==> f.file in visits && FileReports(files, f.file, f.reason) {
      FindingsAreOfVisits(files, visits, f);
    }
  }
}
