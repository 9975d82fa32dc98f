/**
 * The move pass of `moveFiles`: for each planned file, in order, make sure
 * the destination folder exists, refuse to overwrite an existing
 * destination unless the name is on the allowlist, then copy, re-apply the
 * original timestamps and remove the source.  Every failure is caught for
 * that file and the pass goes on with the next one.
 */
module Moving {
  import opened Wrappers
  import opened Paths
  import opened ExtendedFiles
  import opened Planning
  import opened FileSystems

  /** `overwriteableFiles`: housekeeping files that may replace an existing destination. */
  const OverwriteableFiles: seq<string> := [".DS_Store", "Thumbs.db"]

  /** The message a refused overwrite is reported with. */
  const DestinationExistsMessage := "destination already exists"

  /** Which calls the environment refuses for one file (permissions, I/O errors and the
      like, which the model does not see). */
  datatype Faults = Faults(mkdir: bool, copy: bool, utimes: bool, unlink: bool)

  const NoFaults := Faults(false, false, false, false)

  datatype Step = CopyStep | UtimesStep | UnlinkStep

  /** What the log line of one file reports. */
  datatype Outcome = Moved | DestinationExists | Failed(at: Step) {
    function Message(): (r: Option<string>) {
      if DestinationExists? then Some(DestinationExistsMessage) else None
    }
  }

  /** `mkdirFailed`: the "Error creating" line was logged for this file. */
  datatype Report = Report(mkdirFailed: bool, outcome: Outcome)

  datatype StepResult = StepResult(fs: Entries, report: Report)

  datatype Prepared = Prepared(fs: Entries, mkdirFailed: bool)

  /** The timestamps re-applied to the copy: `birthtimeMs || btimeMs`, `mtimeMs`, `atimeMs`
      (whole milliseconds, so `Math.floor` changes nothing). */
  function RetainedTimes(s: Stats): (t: Times)
    ensures s.birthtimeMs != 0 ==> t.btime == s.birthtimeMs
    ensures s.birthtimeMs == 0 ==> t.btime == s.btimeMs
    ensures t.mtime == s.mtimeMs && t.atime == s.atimeMs
  {
    Times(if s.birthtimeMs != 0 then s.birthtimeMs else s.btimeMs, s.mtimeMs, s.atimeMs)
  }

  /** The folder step: create the destination folder when it does not exist; a failure is
      only logged. */
  function EnsureFolder(m: Entries, dstPath: string, denied: bool): (p: Prepared) {
    var dir := Resolve(dstPath);
    if Exists(m, dstPath) then Prepared(m, false)
    else if denied || MakeDirs(m, dir).None? then Prepared(m, true)
    else Prepared(MakeDirs(m, dir).value, false)
  }

  /** One iteration of the move `forEach`. */
  function MoveStep(m: Entries, plan: FilingPlan, f: Faults, stamp: Times): (r: StepResult) {
    var pre := EnsureFolder(m, plan.dstPath, f.mkdir);
    if Exists(pre.fs, plan.dstFilePath) && plan.name !in OverwriteableFiles then
      StepResult(pre.fs, Report(pre.mkdirFailed, DestinationExists))
    else
      Transfer(pre.fs, plan, f, stamp, pre.mkdirFailed)
  }

  /** The body of the `try`: copy, then the rest; the first call that throws ends it. */
  function Transfer(m: Entries, plan: FilingPlan, f: Faults, stamp: Times, mkdirFailed: bool): (r: StepResult) {
    var copied := Copy(m, Resolve(plan.srcFilePath), Resolve(plan.dstFilePath), stamp);
    if f.copy || copied.None? then StepResult(m, Report(mkdirFailed, Failed(CopyStep)))
    else Finish(copied.value, plan, f, mkdirFailed)
  }

  /** After the copy: re-apply the timestamps, then remove the source. */
  function Finish(m: Entries, plan: FilingPlan, f: Faults, mkdirFailed: bool): (r: StepResult) {
    var timed := SetTimes(m, Resolve(plan.dstFilePath), RetainedTimes(plan.stats));
    if f.utimes || timed.None? then StepResult(m, Report(mkdirFailed, Failed(UtimesStep)))
    else
      var unlinked := Unlink(timed.value, Resolve(plan.srcFilePath));
      if f.unlink || unlinked.None? then StepResult(timed.value, Report(mkdirFailed, Failed(UnlinkStep)))
      else StepResult(unlinked.value, Report(mkdirFailed, Moved))
  }

  datatype RunResult = RunResult(fs: Entries, reports: seq<Report>)

  /** The whole `forEach`: the files in order, each on the state the previous one left. */
  function Run(m: Entries, plans: seq<FilingPlan>, faults: seq<Faults>, stamp: Times): (r: RunResult)
    requires |faults| == |plans|
    ensures |r.reports| == |plans|
    decreases |plans|
  {
    if plans == [] then RunResult(m, [])
    else
      var n := |plans| - 1;
      var prev := Run(m, plans[..n], faults[..n], stamp);
      var s := MoveStep(prev.fs, plans[n], faults[n], stamp);
      RunResult(s.fs, prev.reports + [s.report])
  }

  /** A plan whose destination file sits directly in its destination folder. */
  predicate Shaped(plan: FilingPlan) {
    var dst := Resolve(plan.dstFilePath);
    dst != [] && Parent(dst) == Resolve(plan.dstPath)
  }

  // ---------------------------------------------------------------------
  // Properties of one step

  /** Every planned file with a proper name is shaped. */
  lemma PlannedIsShaped(dst: string, file: ExtendedFile, when: LocalDate)
    requires IsSegment(file.name)
    ensures Shaped(PlanFiling(dst, file, when))
  {
    PlanLayout(dst, file, when);
    var p := PlanFiling(dst, file, when);
    assert (Resolve(p.dstPath) + [file.name])[..|Resolve(p.dstPath)|] == Resolve(p.dstPath);
  }

  /** The folder step only adds folders. */
  lemma EnsureFolderGrows(m: Entries, dstPath: string, denied: bool)
    ensures var p := EnsureFolder(m, dstPath, denied);
      && (forall k :: k in m ==> k in p.fs && p.fs[k] == m[k])
      && (forall k :: k in p.fs && k !in m ==> k in Prefixes(Resolve(dstPath)) && p.fs[k].Dir?)
      && (p.mkdirFailed ==> p.fs == m && !Exists(m, dstPath))
  {
  }

  /** Collision: an existing destination whose name is not on the allowlist is reported as
      "destination already exists", whatever the environment does; in a tree, the source,
      the existing destination and everything else stay as they were. */
  lemma MoveStepCollision(m: Entries, plan: FilingPlan, f: Faults, stamp: Times)
    requires Exists(m, plan.dstFilePath) && plan.name !in OverwriteableFiles
    ensures MoveStep(m, plan, f, stamp).report.outcome == DestinationExists
    ensures MoveStep(m, plan, f, stamp).report.outcome.Message() == Some("destination already exists")
    ensures WellFormed(m) && Shaped(plan) ==>
      MoveStep(m, plan, f, stamp).fs == m && !MoveStep(m, plan, f, stamp).report.mkdirFailed
  {
    EnsureFolderGrows(m, plan.dstPath, f.mkdir);
  }

  /** The `try` block moved the file: the copy, carrying the source's bytes and the original
      timestamps, replaces whatever was at the destination, and the source is gone. */
  lemma TransferMoved(m: Entries, plan: FilingPlan, f: Faults, stamp: Times, mkdirFailed: bool)
    requires Transfer(m, plan, f, stamp, mkdirFailed).report.outcome == Moved
    ensures var src := Resolve(plan.srcFilePath);
      && src in m && m[src].File?
      && Transfer(m, plan, f, stamp, mkdirFailed).fs
         == m[Resolve(plan.dstFilePath) := File(m[src].content, RetainedTimes(plan.stats))] - {src}
  {
  }

  /** The `try` block stopped at the removal: the copy is in place beside the source. */
  lemma TransferUnlinkFailure(m: Entries, plan: FilingPlan, f: Faults, stamp: Times, mkdirFailed: bool)
    requires Transfer(m, plan, f, stamp, mkdirFailed).report.outcome == Failed(UnlinkStep)
    ensures var src := Resolve(plan.srcFilePath);
      && src in m && m[src].File?
      && Transfer(m, plan, f, stamp, mkdirFailed).fs
         == m[Resolve(plan.dstFilePath) := File(m[src].content, RetainedTimes(plan.stats))]
  {
  }

  /** What a successful move did: the source file is gone, the destination holds its bytes
      with the original timestamps re-applied (unless source and destination are the same
      location, which the removal then deletes), the only other new locations are the
      folders of the destination, and nothing else changed. */
  lemma MoveStepMoved(m: Entries, plan: FilingPlan, f: Faults, stamp: Times)
    requires MoveStep(m, plan, f, stamp).report.outcome == Moved
    ensures var src := Resolve(plan.srcFilePath);
      var dst := Resolve(plan.dstFilePath);
      var m' := MoveStep(m, plan, f, stamp).fs;
      && src in m && m[src].File?
      && src !in m'
      && (src != dst ==> dst in m' && m'[dst] == File(m[src].content, RetainedTimes(plan.stats)))
      && (forall k :: k in m && k != src && k != dst ==> k in m' && m'[k] == m[k])
      && (forall k :: k in m' && k !in m ==> k == dst || (k in Prefixes(Resolve(plan.dstPath)) && m'[k].Dir?))
  {
    var pre := EnsureFolder(m, plan.dstPath, f.mkdir);
    EnsureFolderGrows(m, plan.dstPath, f.mkdir);
    TransferMoved(pre.fs, plan, f, stamp, pre.mkdirFailed);
  }

  /** An allowlisted file that already sits at its planned place is copied onto itself, which
      the copy call accepts, and the removal of the source then deletes the only copy: the step
      reports a move, and the location holds nothing afterwards. */
  lemma MoveStepOntoItself(m: Entries, plan: FilingPlan, stamp: Times)
    requires WellFormed(m) && Shaped(plan) && plan.name in OverwriteableFiles
    requires Resolve(plan.srcFilePath) == Resolve(plan.dstFilePath)
    requires Resolve(plan.srcFilePath) in m && m[Resolve(plan.srcFilePath)].File?
    ensures MoveStep(m, plan, NoFaults, stamp).report == Report(false, Moved)
    ensures Resolve(plan.srcFilePath) !in MoveStep(m, plan, NoFaults, stamp).fs
  {
    var dst := Resolve(plan.dstFilePath);
    var dir := Resolve(plan.dstPath);
    assert dir == dst[..|dst| - 1];
    AncestorIsDir(m, dir, dst);
    MakeDirsExisting(m, dir);
    assert CanMove(m, plan);
    MoveStepSucceeds(m, plan, stamp);
    MoveStepMoved(m, plan, NoFaults, stamp);
  }

  /** With nothing refused, the `try` block moves the file exactly when the copy can be made. */
  lemma TransferSucceeds(m: Entries, plan: FilingPlan, stamp: Times, mkdirFailed: bool)
    ensures Transfer(m, plan, NoFaults, stamp, mkdirFailed).report.outcome == Moved
        <==> CanCopy(m, Resolve(plan.srcFilePath), Resolve(plan.dstFilePath))
  {
  }

  /** What a move needs from the tree: a source file, a destination folder that can be made,
      and a free destination or an allowlisted name over an existing file. */
  predicate CanMove(m: Entries, plan: FilingPlan) {
    var src := Resolve(plan.srcFilePath);
    var dst := Resolve(plan.dstFilePath);
    && src in m && m[src].File?
    && MakeDirs(m, Resolve(plan.dstPath)).Some?
    && (!Exists(m, plan.dstFilePath) || (plan.name in OverwriteableFiles && m[dst].File?))
  }

  /** When nothing is refused, a move goes through exactly when the tree allows it, and then
      without a folder error. */
  lemma MoveStepSucceeds(m: Entries, plan: FilingPlan, stamp: Times)
    requires WellFormed(m) && Shaped(plan)
    ensures MoveStep(m, plan, NoFaults, stamp).report.outcome == Moved <==> CanMove(m, plan)
    ensures CanMove(m, plan) ==> !MoveStep(m, plan, NoFaults, stamp).report.mkdirFailed
  {
    var dir := Resolve(plan.dstPath);
    var src := Resolve(plan.srcFilePath);
    var dst := Resolve(plan.dstFilePath);
    EnsureFolderGrows(m, plan.dstPath, false);
    var pre := EnsureFolder(m, plan.dstPath, false);
    TransferSucceeds(pre.fs, plan, stamp, pre.mkdirFailed);
    assert Exists(pre.fs, plan.dstFilePath) == Exists(m, plan.dstFilePath);
    if CanMove(m, plan) {
      if !Exists(m, plan.dstPath) {
        MakeDirsWellFormed(m, dir);
      } else {
        assert dir == dir[..|dir|];
      }
      assert CanCopy(pre.fs, src, dst);
    }
    if MoveStep(m, plan, NoFaults, stamp).report.outcome == Moved {
      assert CanCopy(pre.fs, src, dst);
      if dir in m {
        MakeDirsExisting(m, dir);
      }
    }
  }

  /** A refused removal leaves the copy in place, with the original timestamps, beside the
      source. */
  lemma MoveStepUnlinkFailure(m: Entries, plan: FilingPlan, f: Faults, stamp: Times)
    requires MoveStep(m, plan, f, stamp).report.outcome == Failed(UnlinkStep)
    ensures var src := Resolve(plan.srcFilePath);
      var dst := Resolve(plan.dstFilePath);
      var m' := MoveStep(m, plan, f, stamp).fs;
      && src in m && m[src].File?
      && dst in m' && m'[dst] == File(m[src].content, RetainedTimes(plan.stats))
      && src in m'
  {
    var pre := EnsureFolder(m, plan.dstPath, f.mkdir);
    EnsureFolderGrows(m, plan.dstPath, f.mkdir);
    TransferUnlinkFailure(pre.fs, plan, f, stamp, pre.mkdirFailed);
  }

  /** A failed folder creation does not skip the move: the copy is still attempted, fails for
      want of a folder, and nothing changes. */
  lemma MoveStepMkdirFailure(m: Entries, plan: FilingPlan, f: Faults, stamp: Times)
    requires WellFormed(m) && Shaped(plan)
    requires MoveStep(m, plan, f, stamp).report.mkdirFailed
    ensures MoveStep(m, plan, f, stamp).report.outcome == Failed(CopyStep)
    ensures MoveStep(m, plan, f, stamp).fs == m
  {
    EnsureFolderGrows(m, plan.dstPath, f.mkdir);
  }

  /** A file where the destination folder should be: `existsSync` of the slash-ended folder
      path is false, so `mkdirSync` is tried, throws and is logged; the copy then fails too,
      and nothing changes. */
  lemma MoveStepFileAtFolder(m: Entries, plan: FilingPlan, f: Faults, stamp: Times)
    requires WellFormed(m) && Shaped(plan) && EndsWithSlash(plan.dstPath)
    requires Resolve(plan.dstPath) in m && m[Resolve(plan.dstPath)].File?
    ensures MoveStep(m, plan, f, stamp).report == Report(true, Failed(CopyStep))
    ensures MoveStep(m, plan, f, stamp).fs == m
  {
    var dir := Resolve(plan.dstPath);
    var dst := Resolve(plan.dstFilePath);
    assert !Exists(m, plan.dstPath);
    assert dir == dir[..|dir|];
    assert MakeDirs(m, dir).None?;
    assert EnsureFolder(m, plan.dstPath, f.mkdir) == Prepared(m, true);
    assert Parent(dst) == dir;
    assert dst !in m;
    assert !Exists(m, plan.dstFilePath);
    assert !CanCopy(m, Resolve(plan.srcFilePath), dst);
    assert Transfer(m, plan, f, stamp, true) == StepResult(m, Report(true, Failed(CopyStep)));
  }

  /** Every call of the step keeps the tree a tree. */
  lemma MoveStepWellFormed(m: Entries, plan: FilingPlan, f: Faults, stamp: Times)
    requires WellFormed(m)
    ensures WellFormed(MoveStep(m, plan, f, stamp).fs)
  {
    var dir := Resolve(plan.dstPath);
    if !Exists(m, plan.dstPath) && !f.mkdir && MakeDirs(m, dir).Some? {
      MakeDirsWellFormed(m, dir);
    }
    var pre := EnsureFolder(m, plan.dstPath, f.mkdir);
    assert WellFormed(pre.fs);
    TransferWellFormed(pre.fs, plan, f, stamp, pre.mkdirFailed);
  }

  lemma TransferWellFormed(m: Entries, plan: FilingPlan, f: Faults, stamp: Times, mkdirFailed: bool)
    requires WellFormed(m)
    ensures WellFormed(Transfer(m, plan, f, stamp, mkdirFailed).fs)
  {
    var src := Resolve(plan.srcFilePath);
    var dst := Resolve(plan.dstFilePath);
    if Copy(m, src, dst, stamp).Some? {
      CopyWellFormed(m, src, dst, stamp);
      var m2 := Copy(m, src, dst, stamp).value;
      if SetTimes(m2, dst, RetainedTimes(plan.stats)).Some? {
        SetTimesWellFormed(m2, dst, RetainedTimes(plan.stats));
        var m3 := SetTimes(m2, dst, RetainedTimes(plan.stats)).value;
        if Unlink(m3, src).Some? {
          UnlinkWellFormed(m3, src);
        }
      }
    }
  }

  // ---------------------------------------------------------------------
  // Properties of the pass

  /** Order and isolation: file `i` is handled on exactly the state the files before it left,
      whatever happened to them, and every file gets its report. */
  lemma {:induction false} RunReportAt(m: Entries, plans: seq<FilingPlan>, faults: seq<Faults>, stamp: Times, i: nat)
    requires |faults| == |plans| && i < |plans|
    ensures Run(m, plans, faults, stamp).reports[i]
         == MoveStep(Run(m, plans[..i], faults[..i], stamp).fs, plans[i], faults[i], stamp).report
    decreases |plans|
  {
    var n := |plans| - 1;
    var prev := Run(m, plans[..n], faults[..n], stamp);
    RunUnfold(m, plans, faults, stamp);
    if i < n {
      RunReportAt(m, plans[..n], faults[..n], stamp, i);
      assert plans[..n][..i] == plans[..i];
      assert faults[..n][..i] == faults[..i];
      assert (prev.reports + [MoveStep(prev.fs, plans[n], faults[n], stamp).report])[i] == prev.reports[i];
    } else {
      assert plans[..i] == plans[..n];
      assert faults[..i] == faults[..n];
    }
  }

  /** The last file is handled on the state the others left. */
  lemma RunUnfold(m: Entries, plans: seq<FilingPlan>, faults: seq<Faults>, stamp: Times)
    requires |faults| == |plans| && plans != []
    ensures var n := |plans| - 1;
      var prev := Run(m, plans[..n], faults[..n], stamp);
      var s := MoveStep(prev.fs, plans[n], faults[n], stamp);
      Run(m, plans, faults, stamp) == RunResult(s.fs, prev.reports + [s.report])
  {
  }

  /** The pass keeps the tree a tree. */
  lemma {:induction false} RunWellFormed(m: Entries, plans: seq<FilingPlan>, faults: seq<Faults>, stamp: Times)
    requires WellFormed(m) && |faults| == |plans|
    ensures WellFormed(Run(m, plans, faults, stamp).fs)
    decreases |plans|
  {
    if plans != [] {
      var n := |plans| - 1;
      RunWellFormed(m, plans[..n], faults[..n], stamp);
      MoveStepWellFormed(Run(m, plans[..n], faults[..n], stamp).fs, plans[n], faults[n], stamp);
    }
  }

  /** A later file with the same destination collides with the copy an earlier one just made. */
  lemma LaterSameDestinationCollides(m: Entries, p1: FilingPlan, p2: FilingPlan, f1: Faults, f2: Faults, stamp: Times)
    requires Resolve(p1.dstFilePath) == Resolve(p2.dstFilePath)
    requires Resolve(p1.srcFilePath) != Resolve(p1.dstFilePath)
    requires p2.name !in OverwriteableFiles && !EndsWithSlash(p2.dstFilePath)
    requires Run(m, [p1, p2], [f1, f2], stamp).reports[0].outcome == Moved
    ensures Run(m, [p1, p2], [f1, f2], stamp).reports[1].outcome == DestinationExists
  {
    RunReportAt(m, [p1, p2], [f1, f2], stamp, 0);
    RunReportAt(m, [p1, p2], [f1, f2], stamp, 1);
    assert [p1, p2][..0] == [] && [f1, f2][..0] == [];
    assert [p1, p2][..1] == [p1] && [f1, f2][..1] == [f1];
    var s1 := MoveStep(m, p1, f1, stamp);
    assert Run(m, [p1], [f1], stamp).fs == s1.fs by {
      assert [p1][..0] == [] && [f1][..0] == [];
    }
    MoveStepMoved(m, p1, f1, stamp);
    MoveStepCollision(s1.fs, p2, f2, stamp);
  }

  // ---------------------------------------------------------------------
  // The imperative pass

  /** One iteration of the `forEach`, as the source performs it call by call. */
  method MoveFile(fs: FileSystem, plan: FilingPlan, f: Faults, stamp: Times) returns (report: Report)
    requires fs.Valid()
    modifies fs
    ensures fs.Valid()
    ensures StepResult(fs.entries, report) == MoveStep(old(fs.entries), plan, f, stamp)
  {
    var mkdirFailed := false;
    var folderExists := fs.ExistsSync(plan.dstPath);
    if !folderExists {
      var ok := fs.MkdirSync(plan.dstPath, f.mkdir);
      mkdirFailed := !ok;
    }
    assert Prepared(fs.entries, mkdirFailed) == EnsureFolder(old(fs.entries), plan.dstPath, f.mkdir);
    var dstExists := fs.ExistsSync(plan.dstFilePath);
    if !dstExists || plan.name in OverwriteableFiles {
      report := TransferFile(fs, plan, f, stamp, mkdirFailed);
    } else {
      report := Report(mkdirFailed, DestinationExists);
    }
  }

  /** The `try` block of one iteration. */
  method TransferFile(fs: FileSystem, plan: FilingPlan, f: Faults, stamp: Times, mkdirFailed: bool)
    returns (report: Report)
    requires fs.Valid()
    modifies fs
    ensures fs.Valid()
    ensures StepResult(fs.entries, report) == Transfer(old(fs.entries), plan, f, stamp, mkdirFailed)
  {
    var ok := fs.CopyFileSync(plan.srcFilePath, plan.dstFilePath, f.copy, stamp);
    if !ok {
      return Report(mkdirFailed, Failed(CopyStep));
    }
    ghost var copied := fs.entries;
    ok := fs.UtimesSync(plan.dstFilePath, RetainedTimes(plan.stats), f.utimes);
    if !ok {
      return Report(mkdirFailed, Failed(UtimesStep));
    }
    ok := fs.UnlinkSync(plan.srcFilePath, f.unlink);
    if !ok {
      report := Report(mkdirFailed, Failed(UnlinkStep));
    } else {
      report := Report(mkdirFailed, Moved);
    }
    assert StepResult(fs.entries, report) == Finish(copied, plan, f, mkdirFailed);
  }

  /** The move `forEach` over all plans. */
  method MovePlanned(fs: FileSystem, plans: seq<FilingPlan>, faults: seq<Faults>, stamp: Times)
    returns (reports: seq<Report>)
    requires fs.Valid() && |faults| == |plans|
    modifies fs
    ensures fs.Valid()
    ensures RunResult(fs.entries, reports) == Run(old(fs.entries), plans, faults, stamp)
  {
    reports := [];
    for i := 0 to |plans|
      invariant fs.Valid()
      invariant RunResult(fs.entries, reports) == Run(old(fs.entries), plans[..i], faults[..i], stamp)
    {
      var r := MoveFile(fs, plans[i], faults[i], stamp);
      reports := reports + [r];
      assert plans[..i + 1][..i] == plans[..i];
      assert faults[..i + 1][..i] == faults[..i];
    }
    assert plans[..|plans|] == plans && faults[..|faults|] == faults;
  }

  /** `moveFiles` after discovery: extend every file, plan every file, move every file in
      order; `plans` are the plans the pass worked through. */
  method MoveFiles(fs: FileSystem, dst: string, files: seq<FileEntry>, exif: seq<ExifOutcome>,
                   localDate: Instant -> LocalDate, faults: seq<Faults>, stamp: Times)
    returns (plans: seq<FilingPlan>, reports: seq<Report>)
    requires fs.Valid() && |exif| == |files| && |faults| == |files|
    modifies fs
    ensures fs.Valid()
    ensures |plans| == |files|
    ensures forall i :: 0 <= i < |files| ==>
      var file := GetExtendedFile(files[i], exif[i]);
      plans[i] == PlanFiling(dst, file, localDate(file.filingCreatedDate))
    ensures RunResult(fs.entries, reports) == Run(old(fs.entries), plans, faults, stamp)
  {
    var extended := GetFilesInfo(files, exif);
    plans := PlanAll(dst, extended, localDate);
    reports := MovePlanned(fs, plans, faults, stamp);
  }
}
