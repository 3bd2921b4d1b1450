/** The two-file replacement transaction: every file operation may fail at any time. */
module Replacement {
  import opened Prelude

  type Path = string
  type Bytes = string

  datatype FileReplacement = FileReplacement(source: Path, dest: Path, backup: Path)

  type Files = map<Path, Bytes>

  /** Why a failed transaction ended; `StaleBackup` is the exit that rolls nothing back. */
  datatype Failure =
    | StaleBackup(index: nat)
    | RolledBack
    | RollbackFailed

  datatype Outcome = Replaced | Failed(failure: Failure)

  // ------------------------------------------------------------- the file system

  /** The files now, every state so far, and how many operations failed. */
  datatype Disk = Disk(files: Files, history: seq<Files>, faults: nat)

  /** Which operations fail, by the number of states recorded before them. */
  type Schedule = nat -> bool

  function Fresh(files: Files): Disk {
    Disk(files, [files], 0)
  }

  function Recorded(d: Disk, files: Files, ok: bool): Disk {
    Disk(files, d.history + [files], d.faults + if ok then 0 else 1)
  }

  function Renamed(files: Files, from: Path, to: Path): Files
    requires from in files
  {
    (files - {from})[to := files[from]]
  }

  /** A failing operation changes no file. */
  function TryRemove(fails: Schedule, d: Disk, path: Path): (Disk, bool) {
    var ok := !fails(|d.history|) && path in d.files;
    (Recorded(d, if ok then d.files - {path} else d.files, ok), ok)
  }

  function TryRename(fails: Schedule, d: Disk, from: Path, to: Path): (Disk, bool) {
    var ok := !fails(|d.history|) && from in d.files;
    (Recorded(d, if ok then Renamed(d.files, from, to) else d.files, ok), ok)
  }

  class FileSystem {
    const fails: Schedule
    var disk: Disk

    constructor (fails: Schedule, files: Files)
      ensures this.fails == fails && disk == Fresh(files)
    {
      this.fails := fails;
      disk := Fresh(files);
    }

    method Remove(path: Path) returns (ok: bool)
      modifies this
      ensures (disk, ok) == TryRemove(fails, old(disk), path)
    {
      ok := !fails(|disk.history|) && path in disk.files;
      disk := Recorded(disk, if ok then disk.files - {path} else disk.files, ok);
    }

    method Rename(from: Path, to: Path) returns (ok: bool)
      modifies this
      ensures (disk, ok) == TryRename(fails, old(disk), from, to)
    {
      ok := !fails(|disk.history|) && from in disk.files;
      disk := Recorded(disk, if ok then Renamed(disk.files, from, to) else disk.files, ok);
    }
  }

  // ------------------------------------------------------------- the transaction as a function

  function Undo(fails: Schedule, d: Disk, r: FileReplacement): (Disk, bool) {
    var removed := if r.dest in d.files then TryRemove(fails, d, r.dest) else (d, true);
    if removed.1 then TryRename(fails, removed.0, r.backup, r.dest) else removed
  }

  /** Undoes the first `m` replacements, last one first, and says whether all were undone. */
  function RollBack(fails: Schedule, d: Disk, rs: seq<FileReplacement>, m: nat): (Disk, bool)
    requires m <= |rs|
    decreases m
  {
    if m == 0 then (d, true)
    else
      var undone := Undo(fails, d, rs[m - 1]);
      var rest := RollBack(fails, undone.0, rs, m - 1);
      (rest.0, undone.1 && rest.1)
  }

  function Abandoned(rolled: (Disk, bool)): (Disk, Option<Failure>) {
    (rolled.0, Some(if rolled.1 then RolledBack else RollbackFailed))
  }

  function Cleared(fails: Schedule, d: Disk, r: FileReplacement): (Disk, bool) {
    if r.backup in d.files then TryRemove(fails, d, r.backup) else (d, true)
  }

  /** One turn of the loop; `None` means it goes on. */
  function Turn(fails: Schedule, d: Disk, rs: seq<FileReplacement>, i: nat): (Disk, Option<Failure>)
    requires i < |rs|
  {
    var cleared := Cleared(fails, d, rs[i]);
    if !cleared.1 then (cleared.0, Some(StaleBackup(i)))
    else
      var parked := TryRename(fails, cleared.0, rs[i].dest, rs[i].backup);
      if !parked.1 then Abandoned(RollBack(fails, parked.0, rs, i))
      else
        var installed := TryRename(fails, parked.0, rs[i].source, rs[i].dest);
        if installed.1 then (installed.0, None) else Abandoned(RollBack(fails, installed.0, rs, i + 1))
  }

  /** The run under a failure schedule from turn `i` on. */
  function RunFrom(fails: Schedule, d: Disk, rs: seq<FileReplacement>, i: nat): (Disk, Outcome)
    requires i <= |rs|
    decreases |rs| - i
  {
    if i == |rs| then (d, Replaced)
    else
      var turn := Turn(fails, d, rs, i);
      if turn.1.Some? then (turn.0, Failed(turn.1.value)) else RunFrom(fails, turn.0, rs, i + 1)
  }

  // ------------------------------------------------------------- states

  ghost predicate Apart(r: FileReplacement, s: FileReplacement) {
    {r.source, r.dest, r.backup} !! {s.source, s.dest, s.backup}
  }

  /** All paths of all replacements are different. */
  ghost predicate PathsDistinct(rs: seq<FileReplacement>) {
    && (forall k :: 0 <= k < |rs| ==>
          rs[k].source != rs[k].dest && rs[k].source != rs[k].backup && rs[k].dest != rs[k].backup)
    && forall k, l :: 0 <= k < |rs| && 0 <= l < |rs| && k != l ==> Apart(rs[k], rs[l])
  }

  /** Two states agree on one path, including on its absence. */
  ghost predicate SameAt(a: Files, b: Files, path: Path) {
    (path in a <==> path in b) && (path in a ==> a[path] == b[path])
  }

  /** Nothing of this replacement has happened; at most its stale backup is gone. */
  ghost predicate Untouched(start: Files, now: Files, r: FileReplacement) {
    && SameAt(start, now, r.dest) && SameAt(start, now, r.source)
    && (r.backup in now ==> SameAt(start, now, r.backup))
  }

  /** Fully installed: new bytes at the destination, the original at the backup. */
  ghost predicate Installed(start: Files, now: Files, r: FileReplacement) {
    && r.dest in start && r.source in start
    && r.dest in now && now[r.dest] == start[r.source]
    && r.backup in now && now[r.backup] == start[r.dest]
    && r.source !in now
  }

  /** Backed up but not installed: the original is at the backup and the destination is empty. */
  ghost predicate Parked(start: Files, now: Files, r: FileReplacement) {
    r.dest in start && r.dest !in now && r.backup in now && now[r.backup] == start[r.dest]
  }

  ghost predicate Restored(start: Files, now: Files, r: FileReplacement) {
    SameAt(start, now, r.dest)
  }

  /** The original's bytes are at its destination or at its backup. */
  ghost predicate OriginalKept(start: Files, now: Files, r: FileReplacement) {
    r.dest in start ==>
      || (r.dest in now && now[r.dest] == start[r.dest])
      || (r.backup in now && now[r.backup] == start[r.dest])
  }

  ghost predicate AllKept(start: Files, now: Files, rs: seq<FileReplacement>) {
    forall k :: 0 <= k < |rs| ==> OriginalKept(start, now, rs[k])
  }

  /** Every state recorded since `from` keeps every original. */
  ghost predicate KeptThroughout(start: Files, history: seq<Files>, from: nat, rs: seq<FileReplacement>) {
    forall h :: from <= h < |history| ==> AllKept(start, history[h], rs)
  }

  /** Paths outside the transaction are never changed. */
  ghost predicate OthersUnchanged(start: Files, now: Files, rs: seq<FileReplacement>) {
    forall p :: (forall k :: 0 <= k < |rs| ==> p != rs[k].source && p != rs[k].dest && p != rs[k].backup) ==>
                  SameAt(start, now, p)
  }

  /** The first `n` replacements are installed, the others untouched. */
  ghost predicate Progress(start: Files, now: Files, rs: seq<FileReplacement>, n: nat) {
    && n <= |rs|
    && (forall k :: 0 <= k < n ==> Installed(start, now, rs[k]))
    && (forall k :: n <= k < |rs| ==> Untouched(start, now, rs[k]))
    && OthersUnchanged(start, now, rs)
  }

  lemma ProgressKeeps(start: Files, now: Files, rs: seq<FileReplacement>, n: nat)
    requires Progress(start, now, rs, n)
    ensures AllKept(start, now, rs)
  {
  }

  /** A change confined to the paths of replacement `i`. */
  ghost predicate OnlyTouches(before: Files, after: Files, r: FileReplacement) {
    forall p :: p != r.source && p != r.dest && p != r.backup ==> SameAt(before, after, p)
  }

  lemma OthersKeepTheirState(
    start: Files, before: Files, after: Files, rs: seq<FileReplacement>, i: nat, k: nat)
    requires PathsDistinct(rs) && i < |rs| && k < |rs| && k != i && OnlyTouches(before, after, rs[i])
    ensures Installed(start, before, rs[k]) ==> Installed(start, after, rs[k])
    ensures Untouched(start, before, rs[k]) ==> Untouched(start, after, rs[k])
    ensures Parked(start, before, rs[k]) ==> Parked(start, after, rs[k])
    ensures Restored(start, before, rs[k]) ==> Restored(start, after, rs[k])
    ensures OriginalKept(start, before, rs[k]) ==> OriginalKept(start, after, rs[k])
  {
    assert Apart(rs[k], rs[i]);
    assert SameAt(before, after, rs[k].source) && SameAt(before, after, rs[k].dest)
           && SameAt(before, after, rs[k].backup);
  }

  lemma OthersStayUnchanged(start: Files, before: Files, after: Files, rs: seq<FileReplacement>, i: nat)
    requires i < |rs| && OthersUnchanged(start, before, rs) && OnlyTouches(before, after, rs[i])
    ensures OthersUnchanged(start, after, rs)
  {
    forall p | forall k :: 0 <= k < |rs| ==> p != rs[k].source && p != rs[k].dest && p != rs[k].backup
      ensures SameAt(start, after, p)
    {
      assert SameAt(before, after, p);
      assert SameAt(start, before, p);
    }
  }

  /** `later` goes on from `d`: the recorded states are kept, and every new one keeps every original. */
  ghost predicate GoesOn(start: Files, d: Disk, later: Disk, rs: seq<FileReplacement>) {
    && |d.history| <= |later.history| && later.history[..|d.history|] == d.history
    && d.faults <= later.faults
    && KeptThroughout(start, later.history, |d.history|, rs)
  }

  lemma GoesOnSame(start: Files, d: Disk, rs: seq<FileReplacement>)
    ensures GoesOn(start, d, d, rs)
  {
  }

  lemma GoesOnStep(start: Files, d: Disk, files: Files, ok: bool, rs: seq<FileReplacement>)
    requires AllKept(start, files, rs)
    ensures GoesOn(start, d, Recorded(d, files, ok), rs)
  {
    hide AllKept;
  }

  lemma GoesOnJoined(start: Files, a: Disk, b: Disk, c: Disk, rs: seq<FileReplacement>)
    requires GoesOn(start, a, b, rs) && GoesOn(start, b, c, rs)
    ensures GoesOn(start, a, c, rs)
  {
    hide AllKept;
    assert c.history[..|a.history|] == c.history[..|b.history|][..|a.history|];
    assert forall h :: 0 <= h < |b.history| ==> c.history[h] == b.history[h];
  }

  // ------------------------------------------------------------- rollback

  /** In reverse order: replacements from `n` on are dealt with, those below still hold. */
  ghost predicate RollingBack(start: Files, now: Files, rs: seq<FileReplacement>, n: nat, m: nat, clean: bool) {
    && n <= m <= |rs|
    && (forall k :: 0 <= k < n ==> Installed(start, now, rs[k]) || Parked(start, now, rs[k]))
    && (clean ==> forall k :: n <= k < |rs| ==> Restored(start, now, rs[k]))
    && AllKept(start, now, rs)
    && OthersUnchanged(start, now, rs)
  }

  /** Removing the new file leaves the original parked at its backup. */
  lemma RemoveStep(start: Files, before: Files, after: Files, rs: seq<FileReplacement>, i: nat, m: nat, clean: bool)
    requires PathsDistinct(rs) && i < |rs| && RollingBack(start, before, rs, i + 1, m, clean) && rs[i].dest in before
    requires after == before || after == before - {rs[i].dest}
    ensures after == before - {rs[i].dest} ==> Parked(start, after, rs[i])
    ensures RollingBack(start, after, rs, i, m, false)
    ensures after == before - {rs[i].dest} ==> RollingBack(start, after, rs, i + 1, m, clean)
  {
    hide OthersUnchanged;
    assert OnlyTouches(before, after, rs[i]);
    OthersStayUnchanged(start, before, after, rs, i);
    forall k | 0 <= k < |rs| && k != i
      ensures k < i ==> Installed(start, after, rs[k]) || Parked(start, after, rs[k])
      ensures clean && k > i ==> Restored(start, after, rs[k])
      ensures OriginalKept(start, after, rs[k])
    {
      OthersKeepTheirState(start, before, after, rs, i, k);
    }
  }

  /** With the destination empty, the replacement is parked. */
  lemma RestoreStep(start: Files, before: Files, parked: Files, rs: seq<FileReplacement>, i: nat, m: nat, clean: bool)
    requires i < |rs| && RollingBack(start, before, rs, i + 1, m, clean)
    requires rs[i].dest in before ==> parked == before - {rs[i].dest} && RollingBack(start, parked, rs, i + 1, m, clean)
    requires rs[i].dest !in before ==> parked == before
    ensures Parked(start, parked, rs[i])
    ensures RollingBack(start, parked, rs, i + 1, m, clean) && RollingBack(start, parked, rs, i, m, false)
  {
    hide OthersUnchanged;
    assert Installed(start, before, rs[i]) || Parked(start, before, rs[i]);
  }

  lemma RestoredStep(start: Files, parked: Files, after: Files, rs: seq<FileReplacement>, i: nat, m: nat, clean: bool)
    requires PathsDistinct(rs) && i < |rs| && RollingBack(start, parked, rs, i + 1, m, clean)
             && Parked(start, parked, rs[i])
    requires rs[i].backup in parked && after == Renamed(parked, rs[i].backup, rs[i].dest)
    ensures RollingBack(start, after, rs, i, m, clean)
  {
    hide OthersUnchanged;
    assert OnlyTouches(parked, after, rs[i]);
    OthersStayUnchanged(start, parked, after, rs, i);
    assert Restored(start, after, rs[i]) && OriginalKept(start, after, rs[i]);
    forall k | 0 <= k < |rs| && k != i
      ensures k < i ==> Installed(start, after, rs[k]) || Parked(start, after, rs[k])
      ensures clean && k > i ==> Restored(start, after, rs[k])
      ensures OriginalKept(start, after, rs[k])
    {
      OthersKeepTheirState(start, parked, after, rs, i, k);
    }
  }

  /** What one undo and a whole rollback leave behind, whichever operations fail. */
  ghost predicate RolledFrom(start: Files, d: Disk, later: Disk, ok: bool, rs: seq<FileReplacement>) {
    && GoesOn(start, d, later, rs) && (ok <==> later.faults == d.faults)
    && AllKept(start, later.files, rs) && OthersUnchanged(start, later.files, rs)
  }

  lemma UndoMeaning(
    fails: Schedule, start: Files, d: Disk, rs: seq<FileReplacement>, n: nat, m: nat, clean: bool)
    requires PathsDistinct(rs) && 0 < n <= |rs| && RollingBack(start, d.files, rs, n, m, clean)
    ensures var undone := Undo(fails, d, rs[n - 1]);
            && RolledFrom(start, d, undone.0, undone.1, rs)
            && RollingBack(start, undone.0.files, rs, n - 1, m, clean && undone.1)
  {
    hide OthersUnchanged, OnlyTouches, Installed, Parked, Restored, OriginalKept, KeptThroughout, PathsDistinct, GoesOn;
    var i, r := n - 1, rs[n - 1];
    GoesOnSame(start, d, rs);
    var removed := d;
    if r.dest in d.files {
      removed := TryRemove(fails, d, r.dest).0;
      RemoveStep(start, d.files, removed.files, rs, i, m, clean);
      GoesOnStep(start, d, removed.files, removed.faults == d.faults, rs);
    }
    if r.dest !in d.files || TryRemove(fails, d, r.dest).1 {
      RestoreStep(start, d.files, removed.files, rs, i, m, clean);
      var restored := TryRename(fails, removed, r.backup, r.dest);
      if restored.1 {
        RestoredStep(start, removed.files, restored.0.files, rs, i, m, clean);
      }
      GoesOnStep(start, removed, restored.0.files, restored.1, rs);
      GoesOnJoined(start, d, removed, restored.0, rs);
      assert restored.0.faults == removed.faults + if restored.1 then 0 else 1;
      assert removed.faults == d.faults;
      assert Undo(fails, d, r) == restored;
    }
  }

  lemma FaultsAdd(start: Files, a: Disk, b: Disk, c: Disk, rs: seq<FileReplacement>)
    requires GoesOn(start, a, b, rs) && GoesOn(start, b, c, rs)
    ensures c.faults == a.faults <==> b.faults == a.faults && c.faults == b.faults
  {
  }

  lemma {:induction false} RollBackMeaning(
    fails: Schedule, start: Files, d: Disk, rs: seq<FileReplacement>, n: nat, m: nat, clean: bool)
    requires PathsDistinct(rs) && n <= |rs| && RollingBack(start, d.files, rs, n, m, clean)
    ensures var rolled := RollBack(fails, d, rs, n);
            && RolledFrom(start, d, rolled.0, rolled.1, rs)
            && (clean && rolled.1 ==> forall k :: 0 <= k < |rs| ==> Restored(start, rolled.0.files, rs[k]))
    decreases n
  {
    hide OthersUnchanged, Undo, Installed, Parked, Restored, AllKept, PathsDistinct, GoesOn;
    GoesOnSame(start, d, rs);
    if n > 0 {
      var undone := Undo(fails, d, rs[n - 1]);
      UndoMeaning(fails, start, d, rs, n, m, clean);
      RollBackMeaning(fails, start, undone.0, rs, n - 1, m, clean && undone.1);
      var rolled := RollBack(fails, undone.0, rs, n - 1);
      GoesOnJoined(start, d, undone.0, rolled.0, rs);
      FaultsAdd(start, d, undone.0, rolled.0, rs);
    }
  }

  /** `rollback_replacements` for the first `m` replacements: it goes on after a failure and reports
      whether all were restored. */
  method RollbackReplacements(fs: FileSystem, rs: seq<FileReplacement>, m: nat) returns (clean: bool)
    requires m <= |rs|
    modifies fs
    ensures (fs.disk, clean) == RollBack(fs.fails, old(fs.disk), rs, m)
  {
    hide TryRemove, TryRename;
    clean := true;
    var i := m;
    while i > 0
      invariant 0 <= i <= m
      invariant var rest := RollBack(fs.fails, fs.disk, rs, i);
                RollBack(fs.fails, old(fs.disk), rs, m) == (rest.0, clean && rest.1)
    {
      i := i - 1;
      var r := rs[i];
      ghost var before := fs.disk;
      var removed := true;
      if r.dest in fs.disk.files {
        removed := fs.Remove(r.dest);
      }
      if !removed {
        clean := false;
      } else {
        var restored := fs.Rename(r.backup, r.dest);
        if !restored {
          clean := false;
        }
      }
      assert fs.disk == Undo(fs.fails, before, r).0;
    }
  }

  // ------------------------------------------------------------- the transaction

  lemma StepProgress(start: Files, before: Files, after: Files, rs: seq<FileReplacement>, i: nat)
    requires PathsDistinct(rs) && i < |rs| && Progress(start, before, rs, i) && OnlyTouches(before, after, rs[i])
    requires Untouched(start, after, rs[i])
    ensures Progress(start, after, rs, i)
  {
    hide OthersUnchanged, OnlyTouches, Installed, Untouched;
    OthersStayUnchanged(start, before, after, rs, i);
    forall k | 0 <= k < |rs| && k != i
      ensures k < i ==> Installed(start, after, rs[k])
      ensures k > i ==> Untouched(start, after, rs[k])
    {
      OthersKeepTheirState(start, before, after, rs, i, k);
    }
  }

  /** The original of replacement `i` is parked, everything else is where it was. */
  ghost predicate ParkedAt(start: Files, now: Files, rs: seq<FileReplacement>, i: nat) {
    && i < |rs|
    && (forall k :: 0 <= k < i ==> Installed(start, now, rs[k]))
    && (forall k :: i < k < |rs| ==> Untouched(start, now, rs[k]))
    && Parked(start, now, rs[i]) && SameAt(start, now, rs[i].source)
    && OthersUnchanged(start, now, rs)
  }

  lemma ParkStep(start: Files, before: Files, after: Files, rs: seq<FileReplacement>, i: nat)
    requires PathsDistinct(rs) && i < |rs| && Progress(start, before, rs, i)
    requires rs[i].dest in before && after == Renamed(before, rs[i].dest, rs[i].backup)
    ensures ParkedAt(start, after, rs, i)
  {
    hide OthersUnchanged, Installed;
    assert OnlyTouches(before, after, rs[i]);
    assert Untouched(start, before, rs[i]);
    OthersStayUnchanged(start, before, after, rs, i);
    forall k | 0 <= k < |rs| && k != i
      ensures k < i ==> Installed(start, after, rs[k])
      ensures k > i ==> Untouched(start, after, rs[k])
    {
      OthersKeepTheirState(start, before, after, rs, i, k);
    }
  }

  lemma InstallStep(start: Files, before: Files, after: Files, rs: seq<FileReplacement>, i: nat)
    requires PathsDistinct(rs) && ParkedAt(start, before, rs, i)
    requires rs[i].source in before && after == Renamed(before, rs[i].source, rs[i].dest)
    ensures Progress(start, after, rs, i + 1)
  {
    hide OthersUnchanged, Untouched;
    assert OnlyTouches(before, after, rs[i]);
    OthersStayUnchanged(start, before, after, rs, i);
    assert Installed(start, after, rs[i]);
    forall k | 0 <= k < |rs| && k != i
      ensures k < i ==> Installed(start, after, rs[k])
      ensures k > i ==> Untouched(start, after, rs[k])
    {
      OthersKeepTheirState(start, before, after, rs, i, k);
    }
  }

  lemma ReadyToRollBack(start: Files, now: Files, rs: seq<FileReplacement>, n: nat)
    ensures Progress(start, now, rs, n) ==> RollingBack(start, now, rs, n, n, true)
    ensures ParkedAt(start, now, rs, n) ==> RollingBack(start, now, rs, n + 1, n + 1, true)
  {
    hide OthersUnchanged;
  }

  /** What the caller finds, by outcome. A stale backup that cannot be removed ends the transaction without
      a rollback, so the replacements in front of it stay installed although the error says rolled back. */
  ghost predicate Settled(start: Files, now: Files, rs: seq<FileReplacement>, outcome: Outcome) {
    match outcome
    case Replaced => Progress(start, now, rs, |rs|)
    case Failed(RolledBack) => forall k :: 0 <= k < |rs| ==> Restored(start, now, rs[k])
    case Failed(StaleBackup(i)) => i < |rs| && Progress(start, now, rs, i) && rs[i].backup in now
    case Failed(RollbackFailed) => AllKept(start, now, rs)
  }

  /** The transaction succeeds exactly when no operation failed; one failure is rolled back, or met a stale
      backup; only a further failure, during the rollback, makes that fail too. */
  ghost predicate FaultsExplain(ended: Option<Failure>, faults: nat) {
    match ended
    case None => faults == 0
    case Some(StaleBackup(_)) => faults == 1
    case Some(RolledBack) => faults == 1
    case Some(RollbackFailed) => faults > 1
  }

  lemma ProgressLeavesOthers(start: Files, now: Files, rs: seq<FileReplacement>, n: nat)
    requires Progress(start, now, rs, n)
    ensures n <= |rs| && OthersUnchanged(start, now, rs)
  {
  }

  lemma StartProgress(start: Files, rs: seq<FileReplacement>)
    ensures Progress(start, start, rs, 0)
  {
  }

  lemma StaleStep(start: Files, before: Files, after: Files, rs: seq<FileReplacement>, i: nat)
    requires PathsDistinct(rs) && i < |rs| && Progress(start, before, rs, i)
    requires after == before || after == before - {rs[i].backup}
    ensures Progress(start, after, rs, i)
  {
    hide OthersUnchanged, Installed;
    assert OnlyTouches(before, after, rs[i]);
    assert Untouched(start, before, rs[i]);
    StepProgress(start, before, after, rs, i);
  }

  lemma ParkedKeeps(start: Files, now: Files, rs: seq<FileReplacement>, i: nat)
    requires ParkedAt(start, now, rs, i)
    ensures AllKept(start, now, rs)
  {
    hide OthersUnchanged;
  }

  // ------------------------------------------------------------- every run

  ghost predicate RanFrom(start: Files, d: Disk, later: Disk, ended: Option<Failure>, rs: seq<FileReplacement>) {
    && GoesOn(start, d, later, rs)
    && FaultsExplain(ended, later.faults - d.faults)
    && OthersUnchanged(start, later.files, rs)
    && (ended.Some? ==> Settled(start, later.files, rs, Failed(ended.value)))
  }

  lemma ClearedMeaning(fails: Schedule, start: Files, d: Disk, rs: seq<FileReplacement>, i: nat)
    requires PathsDistinct(rs) && i < |rs| && Progress(start, d.files, rs, i)
    ensures var cleared := Cleared(fails, d, rs[i]);
            && GoesOn(start, d, cleared.0, rs) && Progress(start, cleared.0.files, rs, i)
            && (cleared.1 <==> rs[i].backup !in cleared.0.files)
            && cleared.0.faults == d.faults + if cleared.1 then 0 else 1
  {
    hide AllKept, Progress, KeptThroughout, PathsDistinct, GoesOn;
    var cleared := Cleared(fails, d, rs[i]);
    GoesOnSame(start, d, rs);
    if rs[i].backup in d.files {
      StaleStep(start, d.files, cleared.0.files, rs, i);
      ProgressKeeps(start, cleared.0.files, rs, i);
      GoesOnStep(start, d, cleared.0.files, cleared.1, rs);
    }
  }

  lemma FaultsGrow(start: Files, a: Disk, b: Disk, rs: seq<FileReplacement>)
    requires GoesOn(start, a, b, rs)
    ensures a.faults <= b.faults
  {
  }

  /** From a failed rename on: the rollback of the first `m` replacements, one fault having happened. */
  lemma AbandonedMeaning(
    fails: Schedule, start: Files, d: Disk, failed: Disk, rs: seq<FileReplacement>, m: nat)
    requires PathsDistinct(rs) && m <= |rs| && RollingBack(start, failed.files, rs, m, m, true)
    requires GoesOn(start, d, failed, rs) && failed.faults == d.faults + 1
    ensures var ended := Abandoned(RollBack(fails, failed, rs, m));
            ended.1.Some? && RanFrom(start, d, ended.0, ended.1, rs)
  {
    hide OthersUnchanged, Restored, AllKept, RollingBack, PathsDistinct, KeptThroughout, GoesOn, RollBack;
    RollBackMeaning(fails, start, failed, rs, m, m, true);
    var rolled := RollBack(fails, failed, rs, m);
    GoesOnJoined(start, d, failed, rolled.0, rs);
    FaultsGrow(start, failed, rolled.0, rs);
  }

  lemma InstallMeaning(fails: Schedule, start: Files, d: Disk, parked: Disk, rs: seq<FileReplacement>, i: nat)
    requires PathsDistinct(rs) && ParkedAt(start, parked.files, rs, i)
    requires GoesOn(start, d, parked, rs) && parked.faults == d.faults && i < |rs|
    ensures var installed := TryRename(fails, parked, rs[i].source, rs[i].dest);
            if installed.1
            then RanFrom(start, d, installed.0, None, rs) && Progress(start, installed.0.files, rs, i + 1)
            else
              var ended := Abandoned(RollBack(fails, installed.0, rs, i + 1));
              RanFrom(start, d, ended.0, ended.1, rs)
  {
    hide OthersUnchanged, Restored, AllKept, RollingBack, Progress, ParkedAt, KeptThroughout, PathsDistinct, GoesOn,
      RollBack;
    var installed := TryRename(fails, parked, rs[i].source, rs[i].dest);
    ParkedKeeps(start, parked.files, rs, i);
    ReadyToRollBack(start, parked.files, rs, i);
    if installed.1 {
      InstallStep(start, parked.files, installed.0.files, rs, i);
      ProgressKeeps(start, installed.0.files, rs, i + 1);
      ProgressLeavesOthers(start, installed.0.files, rs, i + 1);
    }
    GoesOnStep(start, parked, installed.0.files, installed.1, rs);
    GoesOnJoined(start, d, parked, installed.0, rs);
    if !installed.1 {
      AbandonedMeaning(fails, start, d, installed.0, rs, i + 1);
    }
  }

  lemma TurnMeaning(fails: Schedule, start: Files, d: Disk, rs: seq<FileReplacement>, i: nat)
    requires PathsDistinct(rs) && i < |rs| && Progress(start, d.files, rs, i)
    ensures var turn := Turn(fails, d, rs, i);
            && RanFrom(start, d, turn.0, turn.1, rs)
            && (turn.1.None? ==> Progress(start, turn.0.files, rs, i + 1))
  {
    hide OthersUnchanged, Restored, AllKept, RollingBack, Progress, ParkedAt, KeptThroughout, PathsDistinct, GoesOn,
      Cleared, RollBack;
    var r := rs[i];
    ClearedMeaning(fails, start, d, rs, i);
    var cleared := Cleared(fails, d, r).0;
    ProgressLeavesOthers(start, cleared.files, rs, i);
    if Cleared(fails, d, r).1 {
      ProgressKeeps(start, cleared.files, rs, i);
      ReadyToRollBack(start, cleared.files, rs, i);
      var parked := TryRename(fails, cleared, r.dest, r.backup);
      if parked.1 {
        ParkStep(start, cleared.files, parked.0.files, rs, i);
        ParkedKeeps(start, parked.0.files, rs, i);
      }
      GoesOnStep(start, cleared, parked.0.files, parked.1, rs);
      GoesOnJoined(start, d, cleared, parked.0, rs);
      if !parked.1 {
        AbandonedMeaning(fails, start, d, parked.0, rs, i);
      } else {
        InstallMeaning(fails, start, d, parked.0, rs, i);
      }
    }
  }

  function FailureOf(outcome: Outcome): Option<Failure> {
    if outcome.Failed? then Some(outcome.failure) else None
  }

  /** Under every failure schedule: each recorded state keeps every original at its destination or backup,
      paths outside are untouched, and the final state is the one its outcome names. */
  lemma {:induction false} RunMeaning(fails: Schedule, start: Files, d: Disk, rs: seq<FileReplacement>, i: nat)
    requires PathsDistinct(rs) && i <= |rs| && Progress(start, d.files, rs, i)
    ensures var run := RunFrom(fails, d, rs, i);
            && RanFrom(start, d, run.0, FailureOf(run.1), rs)
            && Settled(start, run.0.files, rs, run.1)
    decreases |rs| - i
  {
    hide OthersUnchanged, Restored, AllKept, Progress, PathsDistinct, GoesOn, Turn;
    GoesOnSame(start, d, rs);
    ProgressLeavesOthers(start, d.files, rs, i);
    if i < |rs| {
      TurnMeaning(fails, start, d, rs, i);
      var turn := Turn(fails, d, rs, i);
      if turn.1.None? {
        RunMeaning(fails, start, turn.0, rs, i + 1);
        GoesOnJoined(start, d, turn.0, RunFrom(fails, turn.0, rs, i + 1).0, rs);
      }
    }
  }

  /** The body of the transaction's loop. */
  method ReplaceOne(fs: FileSystem, rs: seq<FileReplacement>, i: nat) returns (ended: Option<Failure>)
    requires i < |rs|
    modifies fs
    ensures (fs.disk, ended) == Turn(fs.fails, old(fs.disk), rs, i)
  {
    hide TryRemove, TryRename, RollBack;
    var r := rs[i];
    if r.backup in fs.disk.files {
      var removed := fs.Remove(r.backup);
      if !removed {
        return Some(StaleBackup(i));
      }
    }
    var parked := fs.Rename(r.dest, r.backup);
    if !parked {
      var clean := RollbackReplacements(fs, rs, i);
      return Some(if clean then RolledBack else RollbackFailed);
    }
    var installed := fs.Rename(r.source, r.dest);
    if !installed {
      var clean := RollbackReplacements(fs, rs, i + 1);
      return Some(if clean then RolledBack else RollbackFailed);
    }
    ended := None;
  }

  /** `replace_files_transaction`: the loop is the run under the file system's schedule, so all of the above
      holds of it. */
  method ReplaceFiles(fs: FileSystem, rs: seq<FileReplacement>) returns (outcome: Outcome)
    requires PathsDistinct(rs)
    modifies fs
    ensures (fs.disk, outcome) == RunFrom(fs.fails, old(fs.disk), rs, 0)
    ensures RanFrom(old(fs.disk).files, old(fs.disk), fs.disk, FailureOf(outcome), rs)
    ensures Settled(old(fs.disk).files, fs.disk.files, rs, outcome)
  {
    hide TryRemove, TryRename, RanFrom, Settled, PathsDistinct, RollBack, Progress;
    ghost var start := fs.disk;
    StartProgress(start.files, rs);
    RunMeaning(fs.fails, start.files, start, rs, 0);
    for i := 0 to |rs|
      invariant RunFrom(fs.fails, start, rs, 0) == RunFrom(fs.fails, fs.disk, rs, i)
    {
      ghost var before := fs.disk;
      var ended := ReplaceOne(fs, rs, i);
      if ended.Some? {
        return Failed(ended.value);
      }
    }
    outcome := Replaced;
  }

  // ------------------------------------------------------------- when the transaction is atomic

  /** Every replacement in front of `i` finds its source and its destination. */
  ghost predicate BothPresentBefore(start: Files, rs: seq<FileReplacement>, i: nat)
    requires i <= |rs|
  {
    forall k :: 0 <= k < i ==> rs[k].dest in start && rs[k].source in start
  }

  ghost predicate SameBytesBefore(start: Files, rs: seq<FileReplacement>, i: nat)
    requires i <= |rs|
  {
    forall k :: 0 <= k < i ==> rs[k].dest in start && rs[k].source in start && start[rs[k].source] == start[rs[k].dest]
  }

  /** The exit that rolls nothing back leaves every destination as it was exactly when no replacement in
      front of the stale backup changed its file's bytes; in particular when it is the first one. */
  lemma StaleExitRestoresIff(start: Files, now: Files, rs: seq<FileReplacement>, i: nat)
    requires Settled(start, now, rs, Failed(StaleBackup(i)))
    ensures (forall k :: 0 <= k < |rs| ==> Restored(start, now, rs[k])) <==> SameBytesBefore(start, rs, i)
    ensures rs[i].backup in start && BothPresentBefore(start, rs, i)
  {
    hide OthersUnchanged;
    assert forall k :: 0 <= k < i ==> Installed(start, now, rs[k]);
    assert forall k :: i <= k < |rs| ==> Untouched(start, now, rs[k]);
    if forall k :: 0 <= k < |rs| ==> Restored(start, now, rs[k]) {
      assert forall k :: 0 <= k < i ==> Restored(start, now, rs[k]);
    }
  }

  /** No stale backup stands where the replacements in front of it can all succeed and change a file. */
  ghost predicate StaleBackupsHarmless(start: Files, rs: seq<FileReplacement>) {
    forall i :: 0 <= i < |rs| && rs[i].backup in start && BothPresentBefore(start, rs, i) ==>
      SameBytesBefore(start, rs, i)
  }

  /** A failure that does not admit a failed rollback leaves every destination as it was. */
  ghost predicate EndsAtomic(fails: Schedule, start: Files, rs: seq<FileReplacement>) {
    var run := RunFrom(fails, Fresh(start), rs, 0);
    run.1.Failed? && run.1.failure != RollbackFailed ==>
      forall k :: 0 <= k < |rs| ==> Restored(start, run.0.files, rs[k])
  }

  lemma HarmlessIsAtomic(fails: Schedule, start: Files, rs: seq<FileReplacement>)
    requires PathsDistinct(rs) && StaleBackupsHarmless(start, rs)
    ensures EndsAtomic(fails, start, rs)
  {
    hide OthersUnchanged, PathsDistinct, Restored, RunFrom, GoesOn, FaultsExplain, Progress, SameBytesBefore,
      BothPresentBefore;
    var run := RunFrom(fails, Fresh(start), rs, 0);
    StartProgress(start, rs);
    RunMeaning(fails, start, Fresh(start), rs, 0);
    if run.1.Failed? && run.1.failure.StaleBackup? {
      StaleExitRestoresIff(start, run.0.files, rs, run.1.failure.index);
    }
  }

  /** The one operation that fails is the one that records state `n`. */
  function FailsAt(n: nat): Schedule {
    x => x == n
  }

  /** States recorded when the first `i` turns have succeeded. */
  function StatesBefore(start: Files, rs: seq<FileReplacement>, i: nat): nat
    requires i <= |rs|
  {
    if i == 0 then 1 else StatesBefore(start, rs, i - 1) + (if rs[i - 1].backup in start then 3 else 2)
  }

  /** Replacements from `i` on have all their files as at the start. */
  ghost predicate TailIntact(start: Files, now: Files, rs: seq<FileReplacement>, i: nat) {
    forall k :: i <= k < |rs| ==>
      SameAt(start, now, rs[k].source) && SameAt(start, now, rs[k].dest) && SameAt(start, now, rs[k].backup)
  }

  lemma TailStays(start: Files, before: Files, after: Files, rs: seq<FileReplacement>, i: nat)
    requires PathsDistinct(rs) && i < |rs| && TailIntact(start, before, rs, i) && OnlyTouches(before, after, rs[i])
    ensures TailIntact(start, after, rs, i + 1)
  {
    forall k | i < k < |rs|
      ensures SameAt(start, after, rs[k].source) && SameAt(start, after, rs[k].dest)
              && SameAt(start, after, rs[k].backup)
    {
      assert Apart(rs[k], rs[i]);
      assert SameAt(before, after, rs[k].source) && SameAt(before, after, rs[k].dest);
      assert SameAt(before, after, rs[k].backup);
    }
  }

  lemma TailHere(start: Files, now: Files, rs: seq<FileReplacement>, i: nat)
    requires i < |rs| && TailIntact(start, now, rs, i)
    ensures SameAt(start, now, rs[i].source) && SameAt(start, now, rs[i].dest) && SameAt(start, now, rs[i].backup)
  {
  }

  lemma CleanTurn(fails: Schedule, start: Files, d: Disk, rs: seq<FileReplacement>, i: nat)
    requires PathsDistinct(rs) && i < |rs| && TailIntact(start, d.files, rs, i)
    requires rs[i].dest in start && rs[i].source in start
    requires forall x :: |d.history| <= x < |d.history| + (if rs[i].backup in start then 3 else 2) ==> !fails(x)
    ensures var turn := Turn(fails, d, rs, i);
            && turn.1.None? && TailIntact(start, turn.0.files, rs, i + 1)
            && |turn.0.history| == |d.history| + (if rs[i].backup in start then 3 else 2)
  {
    hide TailIntact, RollBack, Abandoned;
    assert SameAt(start, d.files, rs[i].source) && SameAt(start, d.files, rs[i].dest)
           && SameAt(start, d.files, rs[i].backup)
      by { TailHere(start, d.files, rs, i); }
    var cleared := Cleared(fails, d, rs[i]);
    assert cleared.1 && rs[i].dest in cleared.0.files;
    var parked := TryRename(fails, cleared.0, rs[i].dest, rs[i].backup);
    assert parked.1 && rs[i].source in parked.0.files;
    var installed := TryRename(fails, parked.0, rs[i].source, rs[i].dest);
    assert installed.1 && Turn(fails, d, rs, i) == (installed.0, None);
    assert OnlyTouches(d.files, installed.0.files, rs[i]);
    TailStays(start, d.files, installed.0.files, rs, i);
  }

  lemma NothingMoved(start: Files, rs: seq<FileReplacement>)
    ensures TailIntact(start, start, rs, 0)
  {
  }

  /** With no failure before, and all files in place, the run gets to turn `i`. */
  lemma {:induction false} ReachesTurn(
    fails: Schedule, start: Files, rs: seq<FileReplacement>, i: nat) returns (d: Disk)
    requires PathsDistinct(rs) && i <= |rs| && BothPresentBefore(start, rs, i)
    requires forall x :: 0 <= x < StatesBefore(start, rs, i) ==> !fails(x)
    ensures RunFrom(fails, Fresh(start), rs, 0) == RunFrom(fails, d, rs, i)
    ensures TailIntact(start, d.files, rs, i) && |d.history| == StatesBefore(start, rs, i)
  {
    hide Turn, PathsDistinct, SameAt;
    if i == 0 {
      d := Fresh(start);
      NothingMoved(start, rs);
    } else {
      var before := ReachesTurn(fails, start, rs, i - 1);
      CleanTurn(fails, start, before, rs, i - 1);
      d := Turn(fails, before, rs, i - 1).0;
    }
  }

  /** The failing run: everything in front of `i` succeeds, then its stale backup cannot be removed. */
  lemma StaleExitReached(start: Files, rs: seq<FileReplacement>, i: nat)
    requires PathsDistinct(rs) && i < |rs| && rs[i].backup in start && BothPresentBefore(start, rs, i)
    ensures RunFrom(FailsAt(StatesBefore(start, rs, i)), Fresh(start), rs, 0).1 == Failed(StaleBackup(i))
  {
    hide BothPresentBefore, PathsDistinct, RollBack;
    var fails := FailsAt(StatesBefore(start, rs, i));
    var d := ReachesTurn(fails, start, rs, i);
    TailHere(start, d.files, rs, i);
    assert Turn(fails, d, rs, i).1 == Some(StaleBackup(i));
  }

  /** The transaction is atomic under every failure schedule if and only if the stale backups are harmless,
      which the caller can see in the files before the call. */
  lemma AtomicIff(start: Files, rs: seq<FileReplacement>)
    requires PathsDistinct(rs)
    ensures (forall fails :: EndsAtomic(fails, start, rs)) <==> StaleBackupsHarmless(start, rs)
  {
    hide OthersUnchanged, PathsDistinct, Restored, RunFrom, GoesOn, FaultsExplain, Progress, SameBytesBefore,
      BothPresentBefore, StatesBefore;
    if StaleBackupsHarmless(start, rs) {
      forall fails
        ensures EndsAtomic(fails, start, rs)
      {
        HarmlessIsAtomic(fails, start, rs);
      }
    } else {
      var i :| 0 <= i < |rs| && rs[i].backup in start && BothPresentBefore(start, rs, i)
        && !SameBytesBefore(start, rs, i);
      var fails := FailsAt(StatesBefore(start, rs, i));
      StaleExitReached(start, rs, i);
      StartProgress(start, rs);
      RunMeaning(fails, start, Fresh(start), rs, 0);
      StaleExitRestoresIff(start, RunFrom(fails, Fresh(start), rs, 0).0.files, rs, i);
      assert !EndsAtomic(fails, start, rs);
    }
  }

  /** A concrete run in which an error named rolled back leaves a new file in place: two renames succeed,
      then the third operation, the removal of the second replacement's stale backup, fails. */
  lemma StaleExitKeepsNewFile() returns (start: Files, rs: seq<FileReplacement>)
    ensures |rs| == 2 && PathsDistinct(rs) && rs[0].dest in start && rs[0].source in start
    ensures var run := RunFrom(FailsAt(3), Fresh(start), rs, 0);
            && run.1 == Failed(StaleBackup(1))
            && rs[0].dest in run.0.files && run.0.files[rs[0].dest] == start[rs[0].source] != start[rs[0].dest]
  {
    hide RunFrom, GoesOn, OthersUnchanged, FaultsExplain;
    rs := [FileReplacement("s", "d", "b"), FileReplacement("t", "e", "c")];
    start := map["s" := "new", "d" := "old", "c" := "stale"];
    assert start["s"][0] != start["d"][0];
    assert StatesBefore(start, rs, 0) == 1;
    assert StatesBefore(start, rs, 1) == 3;
    StaleExitReached(start, rs, 1);
    StartProgress(start, rs);
    RunMeaning(FailsAt(3), start, Fresh(start), rs, 0);
    var now := RunFrom(FailsAt(3), Fresh(start), rs, 0).0.files;
    assert Progress(start, now, rs, 1);
    assert Installed(start, now, rs[0]);
  }

  // ------------------------------------------------------------- with the version check

  lemma BackupRemoved(start: Files, before: Files, after: Files, rs: seq<FileReplacement>, i: nat)
    requires PathsDistinct(rs) && i < |rs| && OthersUnchanged(start, before, rs)
    requires after == before || after == before - {rs[i].backup}
    ensures OthersUnchanged(start, after, rs)
    ensures forall k :: 0 <= k < |rs| ==> SameAt(before, after, rs[k].dest)
  {
    hide OthersUnchanged;
    assert OnlyTouches(before, after, rs[i]);
    OthersStayUnchanged(start, before, after, rs, i);
    forall k | 0 <= k < |rs|
      ensures SameAt(before, after, rs[k].dest)
    {
      assert k != i ==> Apart(rs[k], rs[i]);
    }
  }

  /** `replace_installed_binaries` from the transaction on: a failing version check of the installed files
      rolls everything back; on success the backups are removed, as far as that works. Up to `done`, which is
      the end unless the files were replaced for good, every recorded state keeps every original. */
  method ReplaceAndCheck(fs: FileSystem, rs: seq<FileReplacement>, versionsRun: bool)
    returns (outcome: Outcome, ghost done: Disk)
    requires PathsDistinct(rs)
    modifies fs
    ensures GoesOn(old(fs.disk).files, old(fs.disk), done, rs)
    ensures |done.history| <= |fs.disk.history| && fs.disk.history[..|done.history|] == done.history
    ensures OthersUnchanged(old(fs.disk).files, fs.disk.files, rs)
    ensures outcome == Replaced ==> versionsRun && Progress(old(fs.disk).files, done.files, rs, |rs|) &&
                                    forall k :: 0 <= k < |rs| ==> SameAt(done.files, fs.disk.files, rs[k].dest)
    ensures outcome != Replaced ==> done == fs.disk && Settled(old(fs.disk).files, fs.disk.files, rs, outcome)
    ensures outcome != Replaced ==>
      || FaultsExplain(FailureOf(outcome), fs.disk.faults - old(fs.disk).faults)
      || (!versionsRun && FaultsExplain(FailureOf(outcome), 1 + fs.disk.faults - old(fs.disk).faults))
  {
    hide OthersUnchanged, OnlyTouches, Installed, Untouched, Parked, Restored, OriginalKept, AllKept, RollingBack,
      KeptThroughout, RunFrom, RollBack, GoesOn, PathsDistinct;
    ghost var start := fs.disk;
    outcome := ReplaceFiles(fs, rs);
    done := fs.disk;
    assert done.history[..|done.history|] == done.history;
    if outcome != Replaced {
      return;
    }
    ReadyToRollBack(start.files, done.files, rs, |rs|);
    if !versionsRun {
      RollBackMeaning(fs.fails, start.files, done, rs, |rs|, |rs|, true);
      var clean := RollbackReplacements(fs, rs, |rs|);
      GoesOnJoined(start.files, start, done, fs.disk, rs);
      FaultsGrow(start.files, done, fs.disk, rs);
      done := fs.disk;
      assert done.history[..|done.history|] == done.history;
      return if clean then Failed(RolledBack) else Failed(RollbackFailed), done;
    }
    for i := 0 to |rs|
      invariant OthersUnchanged(start.files, fs.disk.files, rs)
      invariant |done.history| <= |fs.disk.history| && fs.disk.history[..|done.history|] == done.history
      invariant forall k :: 0 <= k < |rs| ==> SameAt(done.files, fs.disk.files, rs[k].dest)
    {
      ghost var before := fs.disk;
      var removed := fs.Remove(rs[i].backup);
      assert fs.disk.history[..|done.history|] == before.history[..|done.history|];
      BackupRemoved(start.files, before.files, fs.disk.files, rs, i);
    }
  }
}
