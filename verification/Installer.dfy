/** Upgrade and rollback of the installed binary and security object by renames that may fail. */
module Installer {
  import opened Wrappers

  /** A path as its list of components; `..` is a component like any other to the source's comparisons. */
  datatype Path = Path(absolute: bool, parts: seq<string>) {

    function Join(name: string): Path {
      Path(absolute, parts + [name])
    }

    /** Component-wise prefix test. */
    predicate StartsWith(base: Path) {
      absolute == base.absolute && base.parts <= parts
    }

    /** The place the path leads to: every `..` goes one directory up. */
    function Real(): Path {
      Path(absolute, Resolved(parts))
    }
  }

  /** One path lies in another exactly when it goes on from it. */
  lemma StartsWithIff(path: Path, base: Path)
    ensures path.StartsWith(base) <==>
            path.absolute == base.absolute && exists rest :: path.parts == base.parts + rest
  {
    if path.StartsWith(base) {
      assert path.parts == base.parts + path.parts[|base.parts|..];
    }
  }

  const UP := ".."

  function Resolved(parts: seq<string>): seq<string> {
    if parts == [] then [] else
      var n := |parts| - 1;
      var front := Resolved(parts[..n]);
      if parts[n] != UP then front + [parts[n]]
      else if front == [] then []
      else front[..|front| - 1]
  }

  predicate Plain(path: Path) {
    UP !in path.parts
  }

  lemma {:induction false} PlainIsReal(parts: seq<string>)
    requires UP !in parts
    ensures Resolved(parts) == parts
  {
    if parts != [] {
      PlainIsReal(parts[..|parts| - 1]);
      assert parts == parts[..|parts| - 1] + [parts[|parts| - 1]];
    }
  }

  type File = seq<int>
  type Files = map<Path, File>

  datatype InstallerError = RelativePath | UpgradeRefused | RollbackRefused | Io

  datatype UpgradePlan = UpgradePlan(
    installDir: Path, binary: Path, backup: Path, securityObject: Path, securityBackup: Path,
    preservedStateDirs: seq<Path>)

  const BINARY := "ferrocrate"
  const BACKUP := "ferrocrate.ferrocrate.previous"
  const OBJECT := "ferro-security.o"
  const OBJECT_BACKUP := "ferro-security.o.ferrocrate.previous"
  const REJECTED := "ferrocrate.failed-upgrade"

  /** A state directory the planner lets through. */
  predicate Separate(installDir: Path, dir: Path) {
    dir.absolute && !dir.StartsWith(installDir)
  }

  predicate FirstOffence(installDir: Path, stateDirs: seq<Path>, i: nat)
    requires i < |stateDirs|
  {
    !Separate(installDir, stateDirs[i]) && forall j :: 0 <= j < i ==> Separate(installDir, stateDirs[j])
  }

  function Offence(dir: Path): InstallerError {
    if dir.absolute then UpgradeRefused else RelativePath
  }

  /** The first state directory in the list that cannot be preserved decides the error. */
  function CheckStateDirs(installDir: Path, stateDirs: seq<Path>): (error: Option<InstallerError>)
    ensures error.None? <==> forall i :: 0 <= i < |stateDirs| ==> Separate(installDir, stateDirs[i])
    ensures error.Some? ==>
              exists i ::
                0 <= i < |stateDirs| && FirstOffence(installDir, stateDirs, i) && error.value == Offence(stateDirs[i])
  {
    if stateDirs == [] then None
    else if !stateDirs[0].absolute then Some(RelativePath)
    else if stateDirs[0] == installDir || stateDirs[0].StartsWith(installDir) then Some(UpgradeRefused)
    else
      var rest := CheckStateDirs(installDir, stateDirs[1..]);
      assert rest.Some? ==> exists i :: 0 <= i < |stateDirs[1..]| && FirstOffence(installDir, stateDirs[1..], i)
                                        && FirstOffence(installDir, stateDirs, i + 1)
                                        && rest.value == Offence(stateDirs[i + 1]);
      rest
  }

  /** Refuses relative paths and state directories inside the install directory. */
  function PlanUpgrade(installDir: Path, stateDirs: seq<Path>): (r: Result<UpgradePlan, InstallerError>)
    ensures r.Ok? <==> installDir.absolute && forall i :: 0 <= i < |stateDirs| ==> Separate(installDir, stateDirs[i])
    ensures !installDir.absolute ==> r == Err(RelativePath)
    ensures installDir.absolute && r.Err? ==> CheckStateDirs(installDir, stateDirs) == Some(r.error)
    ensures r.Ok? ==> r.value.installDir == installDir && r.value.preservedStateDirs == stateDirs
  {
    if !installDir.absolute then Err(RelativePath) else
    var error := CheckStateDirs(installDir, stateDirs);
    if error.Some? then Err(error.value)
    else Ok(UpgradePlan(installDir, installDir.Join(BINARY), installDir.Join(BACKUP),
                        installDir.Join(OBJECT), installDir.Join(OBJECT_BACKUP), stateDirs))
  }

  function RejectedPath(plan: UpgradePlan): Path {
    plan.installDir.Join(REJECTED)
  }

  /** The five places an upgrade and its rollback use inside the install directory. */
  function Places(plan: UpgradePlan): seq<Path> {
    [plan.binary, plan.backup, plan.securityObject, plan.securityBackup, RejectedPath(plan)]
  }

  predicate Distinct(paths: seq<Path>) {
    forall i, j :: 0 <= i < j < |paths| ==> paths[i] != paths[j]
  }

  lemma PlannedPlacesDistinct(installDir: Path, stateDirs: seq<Path>)
    requires PlanUpgrade(installDir, stateDirs).Ok?
    ensures Distinct(Places(PlanUpgrade(installDir, stateDirs).value))
  {
    var plan := PlanUpgrade(installDir, stateDirs).value;
    assert |BINARY| == 10 && |BACKUP| == 30 && |OBJECT| == 16 && |OBJECT_BACKUP| == 36 && |REJECTED| == 25;
    forall i, j | 0 <= i < j < 5
      ensures Places(plan)[i] != Places(plan)[j]
    {
      var a, b := installDir.Join(NAMES[i]), installDir.Join(NAMES[j]);
      assert a.parts[|installDir.parts|] == NAMES[i] && b.parts[|installDir.parts|] == NAMES[j];
      assert Places(plan)[i] == a && Places(plan)[j] == b;
    }
  }

  const NAMES := [BINARY, BACKUP, OBJECT, OBJECT_BACKUP, REJECTED]

  lemma RealPlace(installDir: Path, stateDirs: seq<Path>, place: nat)
    requires PlanUpgrade(installDir, stateDirs).Ok? && place < 5
    ensures Places(PlanUpgrade(installDir, stateDirs).value)[place].Real() == installDir.Real().Join(NAMES[place])
  {
    var path := installDir.Join(NAMES[place]);
    assert Places(PlanUpgrade(installDir, stateDirs).value)[place] == path;
    assert NAMES[place][0] == 'f' && UP[0] == '.';
    assert path.parts[..|installDir.parts|] == installDir.parts;
  }

  /**
   * The planner compares paths component by component and looks in one direction only. A
   * planned upgrade works inside a directory it promises to preserve exactly when that
   * directory really is the install directory or lies around it, or really is the place itself.
   */
  lemma StateDirDisturbedIff(installDir: Path, stateDirs: seq<Path>, i: nat, place: nat)
    requires PlanUpgrade(installDir, stateDirs).Ok? && i < |stateDirs| && place < 5
    ensures var used, dir := Places(PlanUpgrade(installDir, stateDirs).value)[place].Real(), stateDirs[i].Real();
            used.StartsWith(dir) <==> installDir.Real().StartsWith(dir) || dir == used
  {
    var dir, install := stateDirs[i].Real(), installDir.Real();
    RealPlace(installDir, stateDirs, place);
    var used := install.Join(NAMES[place]);
    if used.StartsWith(dir) && |dir.parts| <= |install.parts| {
      assert dir.parts == used.parts[..|dir.parts|] == install.parts[..|dir.parts|];
    }
  }

  /** Without `..` in the two paths the only such directories are the ancestors of the install directory. */
  lemma PlainStateDirDisturbedIff(installDir: Path, stateDirs: seq<Path>, i: nat, place: nat)
    requires PlanUpgrade(installDir, stateDirs).Ok? && i < |stateDirs| && place < 5
    requires Plain(installDir) && Plain(stateDirs[i])
    ensures Places(PlanUpgrade(installDir, stateDirs).value)[place].Real().StartsWith(stateDirs[i].Real()) <==>
            installDir.StartsWith(stateDirs[i])
  {
    StateDirDisturbedIff(installDir, stateDirs, i, place);
    RealPlace(installDir, stateDirs, place);
    PlainIsReal(installDir.parts);
    PlainIsReal(stateDirs[i].parts);
    assert Separate(installDir, stateDirs[i]);
    assert installDir.Join(NAMES[place]).StartsWith(installDir);
  }

  /** A state directory one level above the install directory is accepted, and the binary is inside it. */
  lemma AncestorStateDirAccepted()
    ensures PlanUpgrade(Path(true, ["opt", "ferro"]), [Path(true, ["opt"])]).Ok?
    ensures Path(true, ["opt", "ferro"]).Join(BINARY).Real().StartsWith(Path(true, ["opt"]).Real())
  {
    var dir, install := Path(true, ["opt"]), Path(true, ["opt", "ferro"]);
    assert |dir.parts| < |install.parts|;
    RealPlace(install, [dir], 0);
    PlainIsReal(dir.parts);
    PlainIsReal(install.parts);
    assert install.Join(BINARY).parts[..1] == dir.parts;
  }

  /** So is the install directory itself, written with `..`, although it is no ancestor component by component. */
  lemma DottedStateDirAccepted()
    ensures var install, dir := Path(true, ["opt", "ferro"]), Path(true, ["opt", "x", "..", "ferro"]);
            && PlanUpgrade(install, [dir]).Ok? && !install.StartsWith(dir)
            && dir.Real() == install.Real() && install.Join(BINARY).Real().StartsWith(dir.Real())
  {
    var install, dir := Path(true, ["opt", "ferro"]), Path(true, ["opt", "x", "..", "ferro"]);
    assert dir.parts[1] != install.parts[1];
    RealPlace(install, [dir], 0);
    PlainIsReal(install.parts);
    PlainIsReal(["opt", "x"]);
    assert dir.parts[..3][..2] == ["opt", "x"];
    assert Resolved(dir.parts[..3]) == ["opt"];
    assert Resolved(dir.parts) == ["opt"] + ["ferro"];
  }

  /** Two trees that differ at most at `paths`. */
  ghost predicate SameExcept(before: Files, after: Files, paths: set<Path>) {
    before - paths == after - paths
  }

  lemma SameExceptTransitive(a: Files, b: Files, c: Files, p: set<Path>, q: set<Path>)
    requires SameExcept(a, b, p) && SameExcept(b, c, q)
    ensures SameExcept(a, c, p + q)
  {
    assert a - (p + q) == a - p - q && b - (p + q) == b - p - q == b - q - p && c - (p + q) == c - q - p;
  }

  lemma SameExceptMore(a: Files, b: Files, p: set<Path>, q: set<Path>)
    requires SameExcept(a, b, p) && p <= q
    ensures SameExcept(a, b, q)
  {
    assert a - q == a - p - q && b - q == b - p - q;
  }

  lemma SameOutside(a: Files, b: Files, p: set<Path>, x: Path)
    requires SameExcept(a, b, p) && x !in p
    ensures x in a <==> x in b
    ensures x in a ==> a[x] == b[x]
  {
    assert x in a <==> x in a - p;
    assert x in b <==> x in b - p;
    assert x in a ==> a[x] == (a - p)[x];
    assert x in b ==> b[x] == (b - p)[x];
  }

  function Moved(files: Files, from: Path, to: Path): Files
    requires from in files
  {
    (files - {from})[to := files[from]]
  }

  /** `staged` has taken the place of `target`, whose old content, if any, is in `backup`. */
  ghost predicate Replaced(before: Files, after: Files, target: Path, backup: Path, staged: Path) {
    && staged in before && staged !in after
    && target in after && after[target] == before[staged]
    && (if target in before then backup in after && after[backup] == before[target]
        else (backup in before <==> backup in after))
    && (backup in before && target !in before ==> after[backup] == before[backup])
  }

  datatype ReplaceOutcome = Done | BackupFailed | InstallFailed

  /** The forward step that is made to fail, if any; the restoring renames are taken to succeed. */
  datatype Fault = NoFault | MakeDirectory | BackupBinary | InstallBinary | BackupObject | InstallObject

  /** The staged binary is there, and no staged path is relative. */
  predicate Acceptable(files: Files, staged: Path, stagedObject: Option<Path>) {
    staged.absolute && staged in files && (stagedObject.Some? ==> stagedObject.value.absolute)
  }

  /** The failing step is one that this upgrade comes to. */
  predicate Hits(fault: Fault, files: Files, plan: UpgradePlan, stagedObject: Option<Path>) {
    match fault
    case NoFault => false
    case MakeDirectory => true
    case BackupBinary => plan.binary in files
    case InstallBinary => true
    case BackupObject => stagedObject.Some? && plan.securityObject in files
    case InstallObject => stagedObject.Some?
  }

  /** Every path an upgrade uses, none of them twice. */
  predicate UpgradePathsDistinct(plan: UpgradePlan, staged: Path, stagedObject: Option<Path>) {
    Distinct(Places(plan) + [staged] + if stagedObject.Some? then [stagedObject.value] else [])
  }

  class Disk {
    var files: Files

    /** A rename fails when told to or when there is nothing to rename. */
    method Rename(from: Path, to: Path, fails: bool) returns (ok: bool)
      modifies this
      ensures ok <==> !fails && from in old(files)
      ensures files == if ok then Moved(old(files), from, to) else old(files)
    {
      ok := !fails && from in files;
      if ok {
        files := Moved(files, from, to);
      }
    }

    /** Backs up one artifact and moves the staged one into its place, restoring the backup if that fails. */
    method Replace(target: Path, backup: Path, staged: Path, backupFails: bool, installFails: bool)
      returns (outcome: ReplaceOutcome)
      requires target != backup && target != staged && backup != staged
      modifies this
      ensures outcome == BackupFailed <==> backupFails && target in old(files)
      ensures outcome == BackupFailed ==> files == old(files)
      ensures outcome == InstallFailed ==> SameExcept(old(files), files, {backup})
      ensures outcome == Done ==>
                Replaced(old(files), files, target, backup, staged)
                && SameExcept(old(files), files, {target, backup, staged})
      ensures outcome == Done <==> !(backupFails && target in old(files)) && !installFails && staged in old(files)
    {
      var had := target in files;
      if had {
        var backedUp := Rename(target, backup, backupFails);
        if !backedUp {
          return BackupFailed;
        }
      }
      var installed := Rename(staged, target, installFails);
      if installed {
        return Done;
      }
      if had {
        var _ := Rename(backup, target, false);
      }
      return InstallFailed;
    }

    /** Undoes a replacement: the staged file goes back and the old one returns. */
    method RestoreBinary(plan: UpgradePlan, staged: Path, hadBinary: bool, ghost original: Files)
      requires plan.binary != plan.backup && plan.binary != staged && plan.backup != staged
      requires Replaced(original, files, plan.binary, plan.backup, staged) && hadBinary == (plan.binary in original)
      requires SameExcept(original, files, {plan.binary, plan.backup, staged, plan.securityBackup})
      requires plan.securityBackup !in {plan.binary, plan.backup, staged}
      modifies this
      ensures SameExcept(original, files, {plan.backup, plan.securityBackup})
    {
      ghost var upgraded := files;
      var _ := Rename(plan.binary, staged, false);
      if hadBinary {
        var _ := Rename(plan.backup, plan.binary, false);
      }
      forall x | x !in {plan.backup, plan.securityBackup}
        ensures (x in original <==> x in files) && (x in original ==> original[x] == files[x])
      {
        if x != plan.binary && x != staged {
          SameOutside(original, upgraded, {plan.binary, plan.backup, staged, plan.securityBackup}, x);
        }
      }
    }

    /**
     * All or nothing. A refused or failed upgrade leaves every file in the tree as it was,
     * apart from what older backups held; a successful one installs the staged files and
     * keeps what they replaced in the backups.
     */
    method ExecuteUpgrade(plan: UpgradePlan, staged: Path, stagedObject: Option<Path>, fault: Fault)
      returns (r: Result<(), InstallerError>)
      requires UpgradePathsDistinct(plan, staged, stagedObject)
      modifies this
      ensures r.Err? ==> SameExcept(old(files), files, {plan.backup, plan.securityBackup})
      ensures r.Err? && r.error != Io ==> files == old(files)
      ensures r.Ok? ==> Replaced(old(files), files, plan.binary, plan.backup, staged)
      ensures r.Ok? && stagedObject.Some? ==>
                Replaced(old(files), files, plan.securityObject, plan.securityBackup, stagedObject.value)
      ensures r.Ok? ==> SameExcept(old(files), files, Touched(plan, staged, stagedObject))
      ensures r.Ok? <==> Acceptable(old(files), staged, stagedObject) && !Hits(fault, old(files), plan, stagedObject)
                         && (stagedObject.Some? ==> stagedObject.value in old(files))
      ensures r == Err(RelativePath) <==>
              || !staged.absolute
              || (staged in old(files) && stagedObject.Some? && !stagedObject.value.absolute)
      ensures r == Err(UpgradeRefused) <==>
              && staged.absolute
              && (staged !in old(files)
                  || (Acceptable(old(files), staged, stagedObject)
                      && fault == BackupBinary && plan.binary in old(files)))
      ensures r.Err? ==> r.error in {RelativePath, UpgradeRefused, Io}
    {
      if !staged.absolute {
        return Err(RelativePath);
      }
      if staged !in files {
        return Err(UpgradeRefused);
      }
      if stagedObject.Some? && !stagedObject.value.absolute {
        return Err(RelativePath);
      }
      if fault == MakeDirectory {
        return Err(Io);
      }
      PathsApart(plan, staged, stagedObject);
      ghost var original := files;
      var hadBinary := plan.binary in files;
      var outcome := Replace(plan.binary, plan.backup, staged, fault == BackupBinary, fault == InstallBinary);
      if outcome != Done {
        SameExceptMore(original, files, {plan.backup}, {plan.backup, plan.securityBackup});
        return Err(if outcome == BackupFailed then UpgradeRefused else Io);
      }
      if stagedObject.Some? {
        r := ReplaceObject(plan, staged, stagedObject.value, hadBinary, fault, original);
      } else {
        assert Touched(plan, staged, stagedObject) == {plan.binary, plan.backup, staged};
        r := Ok(());
      }
    }

    /** Phases three and four: the security object, undoing the binary as well when they fail. */
    method ReplaceObject(plan: UpgradePlan, staged: Path, stagedObject: Path, hadBinary: bool, fault: Fault,
                         ghost original: Files)
      returns (r: Result<(), InstallerError>)
      requires UpgradePathsDistinct(plan, staged, Some(stagedObject))
      requires Replaced(original, files, plan.binary, plan.backup, staged)
               && SameExcept(original, files, {plan.binary, plan.backup, staged})
      requires hadBinary == (plan.binary in original)
      modifies this
      ensures r.Err? ==> r.error == Io && SameExcept(original, files, {plan.backup, plan.securityBackup})
      ensures r.Ok? ==> Replaced(original, files, plan.binary, plan.backup, staged)
                        && Replaced(original, files, plan.securityObject, plan.securityBackup, stagedObject)
                        && SameExcept(original, files, Touched(plan, staged, Some(stagedObject)))
      ensures r.Ok? <==> stagedObject in original && !(fault == BackupObject && plan.securityObject in original)
                         && fault != InstallObject
    {
      PathsApart(plan, staged, Some(stagedObject));
      ghost var upgraded := files;
      ghost var first := {plan.binary, plan.backup, staged};
      SameOutside(original, files, first, plan.securityObject);
      SameOutside(original, files, first, plan.securityBackup);
      SameOutside(original, files, first, stagedObject);
      var outcome := Replace(plan.securityObject, plan.securityBackup, stagedObject, fault == BackupObject,
                             fault == InstallObject);
      if outcome == Done {
        ghost var second := {plan.securityObject, plan.securityBackup, stagedObject};
        SameExceptTransitive(original, upgraded, files, first, second);
        assert first + second == Touched(plan, staged, Some(stagedObject));
        SameOutside(upgraded, files, second, plan.binary);
        SameOutside(upgraded, files, second, plan.backup);
        SameOutside(upgraded, files, second, staged);
        return Ok(());
      }
      SameOutside(upgraded, files, {plan.securityBackup}, plan.binary);
      SameOutside(upgraded, files, {plan.securityBackup}, plan.backup);
      SameOutside(upgraded, files, {plan.securityBackup}, staged);
      SameExceptTransitive(original, upgraded, files, first, {plan.securityBackup});
      assert first + {plan.securityBackup} == {plan.binary, plan.backup, staged, plan.securityBackup};
      RestoreBinary(plan, staged, hadBinary, original);
      return Err(Io);
    }

    /**
     * Rollback parks the rejected binary and brings back what the backups hold. It is not
     * all-or-nothing: `failing` names the rename that fails, and what was renamed before stays.
     */
    method ExecuteRollback(plan: UpgradePlan, failing: RollbackFault) returns (r: Result<(), InstallerError>)
      requires Distinct(Places(plan))
      modifies this
      ensures r == Err(RollbackRefused) <==> plan.backup !in old(files)
      ensures r == Err(RollbackRefused) ==> files == old(files)
      ensures r.Ok? ==> RolledBack(old(files), files, plan)
      ensures r == Err(Io) <==> plan.backup in old(files) && Interrupts(failing, old(files), plan)
      ensures r == Err(Io) && failing == ParkFails ==> files == old(files)
      ensures r == Err(Io) && failing == RestoreFails ==> files == Parked(old(files), plan)
      ensures r == Err(Io) && failing == RestoreObjectFails ==> ObjectMissing(old(files), files, plan)
      ensures r.Ok? || r == Err(Io) || r == Err(RollbackRefused)
    {
      if plan.backup !in files {
        return Err(RollbackRefused);
      }
      PlacesApart(plan);
      if plan.binary in files {
        var parked := Rename(plan.binary, RejectedPath(plan), failing == ParkFails);
        if !parked {
          return Err(Io);
        }
      }
      var restored := Rename(plan.backup, plan.binary, failing == RestoreFails);
      if !restored {
        return Err(Io);
      }
      if plan.securityBackup in files {
        files := files - {plan.securityObject};
        var restoredObject := Rename(plan.securityBackup, plan.securityObject, failing == RestoreObjectFails);
        if !restoredObject {
          return Err(Io);
        }
      }
      return Ok(());
    }

    /** After an upgrade that replaced both artifacts, rollback restores both and parks the rejected binary. */
    method UpgradeThenRollback(plan: UpgradePlan, staged: Path, stagedObject: Path)
      returns (upgrade: Result<(), InstallerError>, rollback: Result<(), InstallerError>)
      requires UpgradePathsDistinct(plan, staged, Some(stagedObject))
      requires plan.binary in files && plan.securityObject in files
      modifies this
      ensures upgrade.Ok? ==> rollback.Ok?
      ensures upgrade.Ok? ==> plan.binary in files && files[plan.binary] == old(files)[plan.binary]
      ensures upgrade.Ok? ==>
                plan.securityObject in files && files[plan.securityObject] == old(files)[plan.securityObject]
      ensures upgrade.Ok? ==>
                staged in old(files) && RejectedPath(plan) in files && files[RejectedPath(plan)] == old(files)[staged]
    {
      rollback := Err(RollbackRefused);
      upgrade := ExecuteUpgrade(plan, staged, Some(stagedObject), NoFault);
      if upgrade.Ok? {
        PathsApart(plan, staged, Some(stagedObject));
        rollback := ExecuteRollback(plan, NoRollbackFault);
      }
    }
  }

  datatype RollbackFault = NoRollbackFault | ParkFails | RestoreFails | RestoreObjectFails

  /** The rename that is made to fail is one that this rollback comes to. */
  predicate Interrupts(failing: RollbackFault, files: Files, plan: UpgradePlan) {
    match failing
    case NoRollbackFault => false
    case ParkFails => plan.binary in files
    case RestoreFails => true
    case RestoreObjectFails => plan.securityBackup in files
  }

  /** Only the rejected binary has been set aside. */
  function Parked(files: Files, plan: UpgradePlan): Files {
    if plan.binary in files then Moved(files, plan.binary, RejectedPath(plan)) else files
  }

  /** The old binary is back and the rejected one parked, but the security object is gone and only its backup left. */
  ghost predicate ObjectMissing(before: Files, after: Files, plan: UpgradePlan) {
    && plan.backup in before && plan.backup !in after
    && plan.binary in after && after[plan.binary] == before[plan.backup]
    && (plan.binary in before ==> RejectedPath(plan) in after && after[RejectedPath(plan)] == before[plan.binary])
    && plan.securityObject !in after
    && plan.securityBackup in before && plan.securityBackup in after
    && after[plan.securityBackup] == before[plan.securityBackup]
    && SameExcept(before, after, {plan.binary, plan.backup, plan.securityObject, RejectedPath(plan)})
  }

  /** The backups are back in place, the rejected binary is parked, and nothing else changed. */
  ghost predicate RolledBack(before: Files, after: Files, plan: UpgradePlan) {
    && plan.backup in before && plan.backup !in after
    && plan.binary in after && after[plan.binary] == before[plan.backup]
    && (plan.binary in before ==> RejectedPath(plan) in after && after[RejectedPath(plan)] == before[plan.binary])
    && (plan.securityBackup in before ==>
          plan.securityObject in after && after[plan.securityObject] == before[plan.securityBackup])
    && plan.securityBackup !in after
    && SameExcept(before, after,
                  {plan.binary, plan.backup, plan.securityObject, plan.securityBackup, RejectedPath(plan)})
  }

  function Touched(plan: UpgradePlan, staged: Path, stagedObject: Option<Path>): set<Path> {
    {plan.binary, plan.backup, staged} +
    if stagedObject.Some? then {plan.securityObject, plan.securityBackup, stagedObject.value} else {}
  }

  lemma PlacesApart(plan: UpgradePlan)
    requires Distinct(Places(plan))
    ensures plan.binary != plan.backup && plan.binary != plan.securityObject && plan.binary != plan.securityBackup
            && plan.binary != RejectedPath(plan)
    ensures plan.backup != plan.securityObject && plan.backup != plan.securityBackup
            && plan.backup != RejectedPath(plan)
    ensures plan.securityObject != plan.securityBackup && plan.securityObject != RejectedPath(plan)
            && plan.securityBackup != RejectedPath(plan)
  {
    var p := Places(plan);
    assert p[0] == plan.binary && p[1] == plan.backup && p[2] == plan.securityObject && p[3] == plan.securityBackup
           && p[4] == RejectedPath(plan);
  }

  lemma PathsApart(plan: UpgradePlan, staged: Path, stagedObject: Option<Path>)
    requires UpgradePathsDistinct(plan, staged, stagedObject)
    ensures Distinct(Places(plan)) && staged !in Places(plan)
    ensures stagedObject.Some? ==> stagedObject.value !in Places(plan) && stagedObject.value != staged
    ensures plan.binary in Places(plan) && plan.backup in Places(plan) && plan.securityObject in Places(plan)
            && plan.securityBackup in Places(plan) && RejectedPath(plan) in Places(plan)
    ensures plan.binary != plan.backup && plan.binary != plan.securityObject && plan.binary != plan.securityBackup
            && plan.binary != RejectedPath(plan)
    ensures plan.backup != plan.securityObject && plan.backup != plan.securityBackup
            && plan.backup != RejectedPath(plan)
    ensures plan.securityObject != plan.securityBackup && plan.securityObject != RejectedPath(plan)
            && plan.securityBackup != RejectedPath(plan)
  {
    var p := Places(plan);
    var all := p + [staged] + if stagedObject.Some? then [stagedObject.value] else [];
    assert forall i :: 0 <= i < 5 ==> all[i] == p[i];
    assert all[5] == staged && (stagedObject.Some? ==> all[6] == stagedObject.value);
    PlacesApart(plan);
    assert p[0] == plan.binary && p[1] == plan.backup && p[2] == plan.securityObject && p[3] == plan.securityBackup
           && p[4] == RejectedPath(plan);
  }
}
