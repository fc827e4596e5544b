/** internal/updater/updater.go, lines 220-235, 281-294 and 338-353: swapping the
    executable, rolling back, and trying a second source. */
module Updater {
  import opened Results

  /** A file that is missing, cut short, or a complete binary. */
  datatype File = Absent | Part | Whole(binary: string)

  /** The executable and its `.old` neighbour. */
  datatype Disk = Disk(exe: File, backup: File)

  datatype Name = Exe | Old

  /** What the outside world answers during one attempt: the downloaded and checked binary,
      if there is one, and which file operations succeed. */
  datatype Answers = Answers(
    extracted: Option<string>,
    removes: bool,
    renames: bool,
    opens: bool,
    creates: bool,
    copies: bool,
    restores: bool,
    cleans: bool)

  /** A crash here leaves a complete binary to start from or to restore. */
  predicate Safe(d: Disk) {
    d.exe.Whole? || d.backup.Whole?
  }

  // ---- one attempt, state by state ----

  function Get(d: Disk, n: Name): File {
    if n == Exe then d.exe else d.backup
  }

  function Put(d: Disk, n: Name, f: File): Disk {
    if n == Exe then d.(exe := f) else d.(backup := f)
  }

  function Last(d: Disk, trace: seq<Disk>): Disk {
    if trace == [] then d else trace[|trace| - 1]
  }

  predicate Copies(a: Answers) {
    a.opens && a.creates && a.copies
  }

  /** The states of copyFile: the target exists cut short before it is complete. */
  function CopyTrace(d: Disk, a: Answers, binary: string): seq<Disk> {
    if !a.opens || !a.creates then []
    else if !a.copies then [d.(exe := Part)]
    else [d.(exe := Part), d.(exe := Whole(binary))]
  }

  /** The state after each file operation of downloadAndVerify. */
  function Trace(d: Disk, a: Answers): seq<Disk> {
    if a.extracted.None? then []
    else
      var d1 := if a.removes then d.(backup := Absent) else d;
      if !a.renames || d1.exe == Absent then [d1]
      else
        var d2 := Disk(Absent, d1.exe);
        var copy := CopyTrace(d2, a, a.extracted.value);
        var d3 := Last(d2, copy);
        var d4 := if Copies(a) then (if a.cleans then d3.(backup := Absent) else d3)
                  else if a.restores then Disk(d3.backup, Absent)
                  else d3;
        [d1, d2] + copy + [d4]
  }

  predicate Succeeds(d: Disk, a: Answers) {
    a.extracted.Some? && a.renames && d.exe != Absent && Copies(a)
  }

  function Final(d: Disk, a: Answers): Disk {
    Last(d, Trace(d, a))
  }

  // ---- the code ----

  class FileSystem {
    var disk: Disk
    /** Every state the disk has been in since the object was made. */
    ghost var seen: seq<Disk>

    constructor (disk: Disk)
      ensures this.disk == disk && seen == []
    {
      this.disk := disk;
      seen := [];
    }

    method Set(d: Disk)
      modifies this
      ensures disk == d && seen == old(seen) + [d]
    {
      disk := d;
      seen := seen + [d];
    }

    /** `os.Remove`, its error ignored. */
    method Remove(n: Name, ok: bool)
      modifies this
      ensures disk == if ok then Put(old(disk), n, Absent) else old(disk)
      ensures seen == old(seen) + [disk]
    {
      Set(if ok then Put(disk, n, Absent) else disk);
    }

    /** `os.Rename`: replaces the target, fails without a source. */
    method Rename(from: Name, to: Name, ok: bool) returns (r: Result<()>)
      requires from != to
      modifies this
      ensures r.Ok? <==> ok && Get(old(disk), from) != Absent
      ensures r.Ok? ==>
                disk == Put(Put(old(disk), to, Get(old(disk), from)), from, Absent) && seen == old(seen) + [disk]
      ensures r.Err? ==> disk == old(disk) && seen == old(seen)
    {
      if !ok || Get(disk, from) == Absent {
        return Err("rename");
      }
      Set(Put(Put(disk, to, Get(disk, from)), from, Absent));
      return Ok(());
    }
  }

  method CopyFile(fs: FileSystem, binary: string, a: Answers) returns (r: Result<()>)
    modifies fs
    ensures r.Ok? <==> Copies(a)
    ensures fs.seen == old(fs.seen) + CopyTrace(old(fs.disk), a, binary)
    ensures fs.disk == Last(old(fs.disk), CopyTrace(old(fs.disk), a, binary))
  {
    if !a.opens {
      return Err("open");
    }
    if !a.creates {
      return Err("create");
    }
    fs.Set(fs.disk.(exe := Part));
    if !a.copies {
      return Err("copy");
    }
    fs.Set(fs.disk.(exe := Whole(binary)));
    return Ok(());
  }

  /** The trace of an attempt that got as far as copying. */
  lemma MovedTrace(d: Disk, a: Answers, d2: Disk, end: Disk, before: seq<Disk>, after_: seq<Disk>)
    requires a.extracted.Some? && a.renames && d.exe != Absent && d2 == Disk(Absent, d.exe)
    requires var d3 := Last(d2, CopyTrace(d2, a, a.extracted.value));
             end == if Copies(a) then (if a.cleans then d3.(backup := Absent) else d3)
                    else if a.restores then Disk(d3.backup, Absent) else d3
    requires var d1 := if a.removes then d.(backup := Absent) else d;
             after_ == before + [d1] + [d2] + CopyTrace(d2, a, a.extracted.value) + [end]
    ensures after_ == before + Trace(d, a) && Final(d, a) == end
  {
    var d1 := if a.removes then d.(backup := Absent) else d;
    var copy := CopyTrace(d2, a, a.extracted.value);
    assert Trace(d, a) == [d1, d2] + copy + [end];
    assert [d1] + [d2] == [d1, d2];
  }

  method DownloadAndVerify(fs: FileSystem, a: Answers) returns (r: Result<()>)
    modifies fs
    ensures r.Ok? <==> Succeeds(old(fs.disk), a)
    ensures fs.seen == old(fs.seen) + Trace(old(fs.disk), a)
    ensures fs.disk == Final(old(fs.disk), a)
  {
    if a.extracted.None? {
      return Err("download");
    }
    ghost var d, seen := fs.disk, fs.seen;
    fs.Remove(Old, a.removes);
    var moved := fs.Rename(Exe, Old, a.renames);
    if moved.Err? {
      return Err("rename current binary");
    }
    ghost var d2 := fs.disk;
    var copied := CopyFile(fs, a.extracted.value, a);
    if copied.Err? {
      var restored := fs.Rename(Old, Exe, a.restores);
      if restored.Err? { fs.Set(fs.disk); }
      MovedTrace(d, a, d2, fs.disk, seen, fs.seen);
      return Err("install new binary");
    }
    fs.Remove(Old, a.cleans);
    MovedTrace(d, a, d2, fs.disk, seen, fs.seen);
    return Ok(());
  }

  /** A second source is tried after a failure, if there is a token for it. */
  predicate Signals(d: Disk, first: Answers, second: Answers, token: bool) {
    Succeeds(d, first) || (token && Succeeds(Final(d, first), second))
  }

  function CheckTrace(d: Disk, first: Answers, second: Answers, token: bool): seq<Disk> {
    Trace(d, first) + if Succeeds(d, first) || !token then [] else Trace(Final(d, first), second)
  }

  method CheckDevelop(fs: FileSystem, first: Answers, second: Answers, token: bool) returns (restart: bool)
    modifies fs
    ensures restart == Signals(old(fs.disk), first, second, token)
    ensures fs.seen == old(fs.seen) + CheckTrace(old(fs.disk), first, second, token)
    ensures fs.disk == Last(old(fs.disk), CheckTrace(old(fs.disk), first, second, token))
  {
    ghost var d, seen := fs.disk, fs.seen;
    var r := DownloadAndVerify(fs, first);
    if r.Err? {
      if !token {
        return false;
      }
      ghost var mid := fs.disk;
      r := DownloadAndVerify(fs, second);
      LastAppends(d, Trace(d, first), Trace(mid, second));
      Associate(seen, Trace(d, first), Trace(mid, second));
      if r.Err? {
        return false;
      }
    }
    return true;
  }

  lemma Associate(a: seq<Disk>, b: seq<Disk>, c: seq<Disk>)
    ensures a + b + c == a + (b + c)
  {
  }

  lemma LastAppends(d: Disk, s: seq<Disk>, t: seq<Disk>)
    ensures Last(d, s + t) == Last(Last(d, s), t)
  {
    if t == [] { assert s + t == s; }
  }

  // ---- one attempt ----

  ghost predicate SafeThroughout(trace: seq<Disk>) {
    forall i :: 0 <= i < |trace| ==> Safe(trace[i])
  }

  lemma AppendSafe(s: seq<Disk>, t: seq<Disk>)
    ensures SafeThroughout(s + t) <==> SafeThroughout(s) && SafeThroughout(t)
  {
    if SafeThroughout(s + t) {
      forall i | 0 <= i < |s| ensures Safe(s[i]) { assert Safe((s + t)[i]); }
      forall i | 0 <= i < |t| ensures Safe(t[i]) { assert Safe((s + t)[|s| + i]); }
    }
  }

  /** Neither copying nor rolling back worked. */
  predicate DoubleFault(a: Answers) {
    a.extracted.Some? && a.renames && !Copies(a) && !a.restores
  }

  /** Started with a complete executable, an attempt passes only through states with a
      complete executable or a complete backup; success leaves the new executable, and
      failure the old one, in its place unless both the copy and the roll-back failed:
      then it is still the backup. */
  lemma AttemptIsCrashSafe(d: Disk, a: Answers)
    requires d.exe.Whole?
    ensures SafeThroughout(Trace(d, a)) && Safe(Final(d, a))
    ensures Succeeds(d, a) ==> Final(d, a).exe == Whole(a.extracted.value)
    ensures !Succeeds(d, a) && !DoubleFault(a) ==> Final(d, a).exe == d.exe
    ensures DoubleFault(a) ==> Final(d, a).backup == d.exe && !Final(d, a).exe.Whole?
  {
    if a.extracted.Some? && a.renames {
      var d1 := if a.removes then d.(backup := Absent) else d;
      var d2 := Disk(Absent, d.exe);
      var copy := CopyTrace(d2, a, a.extracted.value);
      CopyKeepsBackup(d2, a, a.extracted.value);
      assert Safe(d1) && Safe(d2);
      AppendSafe([d1, d2], copy);
      AppendSafe([d1, d2] + copy, [Final(d, a)]);
    }
  }

  /** copyFile writes the executable only. */
  lemma CopyKeepsBackup(d: Disk, a: Answers, binary: string)
    requires d.backup.Whole? && !d.exe.Whole?
    ensures SafeThroughout(CopyTrace(d, a, binary)) && Last(d, CopyTrace(d, a, binary)).backup == d.backup
    ensures Copies(a) ==> Last(d, CopyTrace(d, a, binary)).exe == Whole(binary)
    ensures !Copies(a) ==> !Last(d, CopyTrace(d, a, binary)).exe.Whole?
  {
  }

  // ---- trying again ----

  /** After a failed first attempt, no second attempt can lose the last complete binary
      exactly when the executable is complete again: otherwise the second attempt starts by
      removing the only backup. */
  lemma SecondAttemptIsSafeIffExeIsWhole(d: Disk, first: Answers)
    requires d.exe.Whole? && !Succeeds(d, first)
    ensures (forall second :: SafeThroughout(Trace(Final(d, first), second))) <==> Final(d, first).exe.Whole?
    ensures Final(d, first).exe.Whole? <==> !DoubleFault(first)
  {
    AttemptIsCrashSafe(d, first);
    var mid := Final(d, first);
    if mid.exe.Whole? {
      forall second ensures SafeThroughout(Trace(mid, second)) {
        AttemptIsCrashSafe(mid, second);
      }
    } else {
      RemovalLosesTheBackup(mid);
    }
  }

  lemma RemovalLosesTheBackup(mid: Disk)
    requires !mid.exe.Whole?
    ensures exists second :: !SafeThroughout(Trace(mid, second))
  {
    var second := Answers(Some("new"), true, false, false, false, false, false, false);
    assert Trace(mid, second)[0] == Disk(mid.exe, Absent);
    assert !SafeThroughout(Trace(mid, second));
  }

  /** An attempt that removes the backup, or moves an executable that is cut short over it. */
  predicate TakesBackup(a: Answers, cutShort: bool) {
    a.extracted.Some? && (a.removes || (a.renames && cutShort))
  }

  /** For given answers to both attempts: a complete binary is missing at some moment
      exactly if the first attempt faults twice, there is a second attempt, and that one
      removes the backup or moves a cut-short executable over it. */
  lemma CheckLosesTheBinaryIff(d: Disk, first: Answers, second: Answers, token: bool)
    requires d.exe.Whole?
    ensures !SafeThroughout(CheckTrace(d, first, second, token)) <==>
            token && DoubleFault(first) && TakesBackup(second, Final(d, first).exe == Part)
  {
    AttemptIsCrashSafe(d, first);
    var mid := Final(d, first);
    var s, t := Trace(d, first), Trace(mid, second);
    AppendSafe(s, t);
    AppendSafe(s, []);
    if mid.exe.Whole? {
      AttemptIsCrashSafe(mid, second);
    } else {
      FromBackupOnly(mid, second);
    }
  }

  lemma FromBackupOnly(mid: Disk, a: Answers)
    requires !mid.exe.Whole? && mid.backup.Whole?
    ensures !SafeThroughout(Trace(mid, a)) <==> TakesBackup(a, mid.exe == Part)
    ensures !TakesBackup(a, mid.exe == Part) ==> Final(mid, a) == mid
  {
    if a.extracted.Some? {
      var t := Trace(mid, a);
      assert t[0] == if a.removes then Disk(mid.exe, Absent) else mid;
      if a.removes {
        assert !Safe(t[0]);
      } else if a.renames && mid.exe == Part {
        assert t[1] == Disk(Absent, Part);
        assert !Safe(t[1]);
      } else {
        assert t == [mid];
      }
    }
  }

  /** What an attempt leaves on disk, by how far it gets: nothing changes without a checked
      download; then the old backup goes, if it can be removed; if the executable can be
      moved it becomes the backup; and then the new one is complete in place, with the
      backup cleaned away if possible, or the old one is back, or, if not even that works,
      the old one stays the backup. */
  lemma OutcomeOf(d: Disk, a: Answers)
    ensures a.extracted.None? ==> Final(d, a) == d
    ensures a.extracted.Some? && (!a.renames || d.exe == Absent) ==>
              Final(d, a) == Disk(d.exe, if a.removes then Absent else d.backup)
    ensures a.extracted.Some? && a.renames && d.exe != Absent ==>
              Final(d, a) ==
              if a.opens && a.creates && a.copies then
                Disk(Whole(a.extracted.value), if a.cleans then Absent else d.exe)
              else if a.restores then Disk(d.exe, Absent)
              else Disk(if a.opens && a.creates then Part else Absent, d.exe)
    ensures Succeeds(d, a) <==>
              a.extracted.Some? && a.renames && d.exe != Absent && a.opens && a.creates && a.copies
  {
  }

  /** An attempt that gets as far as a complete copy. */
  ghost predicate Installs(a: Answers) {
    a.extracted.Some? && a.renames && a.opens && a.creates && a.copies
  }

  /** A restart is signalled only with a complete new executable in place: the one the
      successful attempt extracted. */
  lemma RestartOnlyAfterSwap(d: Disk, first: Answers, second: Answers, token: bool)
    requires Signals(d, first, second, token)
    ensures var end := Last(d, CheckTrace(d, first, second, token));
            if Succeeds(d, first) then end.exe == Whole(first.extracted.value)
            else token && end.exe == Whole(second.extracted.value)
  {
    var mid := Final(d, first);
    if Succeeds(d, first) {
      SuccessInstalls(d, first);
      assert Trace(d, first) + [] == Trace(d, first);
    } else {
      SuccessInstalls(mid, second);
      LastAppends(d, Trace(d, first), Trace(mid, second));
    }
  }

  lemma SuccessInstalls(d: Disk, a: Answers)
    requires Succeeds(d, a)
    ensures Final(d, a).exe == Whole(a.extracted.value)
  {
  }

  /** From a complete executable, a restart is signalled exactly if the first attempt gets
      as far as a complete copy, or it does not, there is a token, and the second one does;
      which it cannot after a first attempt that left no executable. Then the binary
      extracted by that attempt is complete in place. */
  lemma RestartIff(d: Disk, first: Answers, second: Answers, token: bool)
    requires d.exe.Whole?
    ensures Signals(d, first, second, token) <==>
              || Installs(first)
              || (token && Installs(second)
                  && !(first.extracted.Some? && first.renames && !first.restores && !(first.opens && first.creates)))
    ensures Signals(d, first, second, token) ==>
              Last(d, CheckTrace(d, first, second, token)).exe
              == Whole(if Installs(first) then first.extracted.value else second.extracted.value)
  {
    OutcomeOf(d, first);
    OutcomeOf(Final(d, first), second);
    if Signals(d, first, second, token) {
      RestartOnlyAfterSwap(d, first, second, token);
    }
  }

  // ---- any number of attempts ----

  function Attempts(d: Disk, run: seq<Answers>): Disk
    decreases |run|
  {
    if run == [] then d else Attempts(Final(d, run[0]), run[1..])
  }

  function AttemptsTrace(d: Disk, run: seq<Answers>): seq<Disk>
    decreases |run|
  {
    if run == [] then [] else Trace(d, run[0]) + AttemptsTrace(Final(d, run[0]), run[1..])
  }

  /** The binary that should be in place after a run: the last one installed. */
  function Installed(binary: string, d: Disk, run: seq<Answers>): string
    decreases |run|
  {
    if run == [] then binary
    else
      var a := run[0];
      Installed(if Succeeds(d, a) then a.extracted.value else binary, Final(d, a), run[1..])
  }

  /** Over any run of attempts, as long as no roll-back fails after a failed copy, a
      complete binary is on disk at every moment, and the executable is always the last
      one installed. */
  lemma {:induction false} RunsAreSafe(d: Disk, run: seq<Answers>, binary: string)
    requires d.exe == Whole(binary)
    requires forall i :: 0 <= i < |run| ==> !DoubleFault(run[i])
    ensures SafeThroughout(AttemptsTrace(d, run))
    ensures Attempts(d, run).exe == Whole(Installed(binary, d, run))
    decreases |run|
  {
    if run == [] {
    } else {
      var a := run[0];
      AttemptIsCrashSafe(d, a);
      assert !DoubleFault(a);
      RunsAreSafe(Final(d, a), run[1..], if Succeeds(d, a) then a.extracted.value else binary);
      AppendSafe(Trace(d, a), AttemptsTrace(Final(d, a), run[1..]));
    }
  }

  // ---- exactly when a run loses the binary ----

  /** The first attempt of a run whose copy and roll-back both fail. */
  ghost predicate FirstFault(run: seq<Answers>, i: int) {
    0 <= i < |run| && DoubleFault(run[i]) && forall k :: 0 <= k < i ==> !DoubleFault(run[k])
  }

  /** A later attempt takes the backup; the copy that failed cut the executable short if
      it got as far as creating it. */
  ghost predicate TakenLater(run: seq<Answers>, i: int, j: int) {
    && FirstFault(run, i) && i < j < |run|
    && TakesBackup(run[j], run[i].opens && run[i].creates)
  }

  /** With the backup alone left, nothing changes until an attempt takes it. */
  lemma {:induction false} StuckUntilTaken(mid: Disk, run: seq<Answers>)
    requires !mid.exe.Whole? && mid.backup.Whole?
    ensures !SafeThroughout(AttemptsTrace(mid, run))
       <==> exists j :: 0 <= j < |run| && TakesBackup(run[j], mid.exe == Part)
    decreases |run|
  {
    if run == [] {
    } else {
      FromBackupOnly(mid, run[0]);
      AppendSafe(Trace(mid, run[0]), AttemptsTrace(Final(mid, run[0]), run[1..]));
      if !TakesBackup(run[0], mid.exe == Part) {
        StuckUntilTaken(mid, run[1..]);
        if j :| 0 <= j < |run| && TakesBackup(run[j], mid.exe == Part) {
          assert run[1..][j - 1] == run[j];
        }
      }
    }
  }

  lemma FaultLeavesBackup(d: Disk, a: Answers)
    requires d.exe.Whole? && DoubleFault(a)
    ensures !Final(d, a).exe.Whole? && Final(d, a).backup == d.exe
    ensures Final(d, a).exe == Part <==> a.opens && a.creates
  {
    AttemptIsCrashSafe(d, a);
  }

  lemma FaultFirst(run: seq<Answers>, cutShort: bool)
    requires run != [] && DoubleFault(run[0]) && cutShort == (run[0].opens && run[0].creates)
    ensures (exists i, j :: TakenLater(run, i, j))
            <==> exists j :: 0 <= j < |run[1..]| && TakesBackup(run[1..][j], cutShort)
  {
    if i, j :| TakenLater(run, i, j) {
      assert i == 0 && run[1..][j - 1] == run[j];
    }
    if j :| 0 <= j < |run[1..]| && TakesBackup(run[1..][j], cutShort) {
      assert FirstFault(run, 0) && run[j + 1] == run[1..][j];
      assert TakenLater(run, 0, j + 1);
    }
  }

  lemma NoFaultFirst(run: seq<Answers>)
    requires run != [] && !DoubleFault(run[0])
    ensures (exists i, j :: TakenLater(run, i, j)) <==> exists i, j :: TakenLater(run[1..], i, j)
  {
    if i, j :| TakenLater(run, i, j) {
      assert FirstFault(run[1..], i - 1);
      assert TakenLater(run[1..], i - 1, j - 1);
    }
    if i, j :| TakenLater(run[1..], i, j) {
      assert forall k :: 0 < k <= i ==> run[k] == run[1..][k - 1];
      assert FirstFault(run, i + 1);
      assert TakenLater(run, i + 1, j + 1);
    }
  }

  /** Over any run of attempts, a complete binary is missing at some moment exactly if
      after the first double fault some attempt takes the backup. */
  lemma {:induction false} RunLosesTheBinaryIff(d: Disk, run: seq<Answers>)
    requires d.exe.Whole?
    ensures !SafeThroughout(AttemptsTrace(d, run)) <==> exists i, j :: TakenLater(run, i, j)
    decreases |run|
  {
    if run == [] {
    } else {
      var a := run[0];
      AttemptIsCrashSafe(d, a);
      AppendSafe(Trace(d, a), AttemptsTrace(Final(d, a), run[1..]));
      if DoubleFault(a) {
        FaultLeavesBackup(d, a);
        StuckUntilTaken(Final(d, a), run[1..]);
        FaultFirst(run, a.opens && a.creates);
      } else {
        RunLosesTheBinaryIff(Final(d, a), run[1..]);
        NoFaultFirst(run);
      }
    }
  }
}
