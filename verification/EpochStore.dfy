/**
 The epoch repository as file-system steps. A run is any sequence of publishes, inserts and rollbacks, one at a
 time, cut off by a crash or an I/O error between any two file steps.
 */
module EpochStore {
  import opened Base

  datatype Row = Row(match_: seq<byte>, payload: seq<byte>)

  datatype File = MatchSegment | PayloadSegment | Manifest

  /** An epoch directory: the rows its files hold, and which of the files are there. */
  datatype Dir = Dir(rows: seq<Row>, files: set<File>) {
    predicate Complete() {
      files == {MatchSegment, PayloadSegment, Manifest}
    }
  }

  datatype Disk = Disk(dirs: map<nat, Dir>, temps: map<nat, Dir>, current: Option<nat>, currentTemp: Option<nat>)

  /** What the running operation is for. */
  datatype Job = Load | Insert(row: Row) | Back

  /** The next file step of the running operation. */
  datatype Pc =
    | Idle
    | ClearTemp(version: nat, rows: seq<Row>, job: Job)
    | MakeTemp(version: nat, rows: seq<Row>, job: Job)
    | WriteFile(version: nat, rows: seq<Row>, job: Job, file: File)
    | RenameDir(version: nat, rows: seq<Row>, job: Job)
    | WritePointer(version: nat, job: Job)
    | RenamePointer(version: nat, job: Job)
    | ListEpochs(keep: nat, row: Row)
    | Remove(victims: seq<nat>, row: Row)

  /**
   The disk and the running operation, with what the store should mean: the rows each version was published
   with, the rows a reader of CURRENT should see, and the inserted rows that were acknowledged.
   */
  datatype World = World(disk: Disk, pc: Pc, history: map<nat, seq<Row>>, table: Option<seq<Row>>, acked: seq<Row>)

  const RETENTION: nat := 8

  // ---- ascending versions -------------------------------------------------

  predicate StrictlyAscending(a: seq<nat>) {
    forall i, j :: 0 <= i < j < |a| ==> a[i] < a[j]
  }

  function Ascending(s: set<nat>): (a: seq<nat>)
    ensures |a| == |s|
  {
    if s == {} then [] else var m := Least(s); [m] + Ascending(s - {m})
  }

  lemma {:induction false} AscendingHolds(s: set<nat>)
    ensures (forall x :: x in Ascending(s) <==> x in s) && StrictlyAscending(Ascending(s))
  {
    if s != {} {
      var m := Least(s);
      var rest := Ascending(s - {m});
      AscendingHolds(s - {m});
      var a := Ascending(s);
      assert a == [m] + rest;
      assert forall i :: 0 <= i < |rest| ==> rest[i] in s - {m};
      forall i, j | 0 <= i < j < |a|
        ensures a[i] < a[j]
      {
        if i == 0 {
          assert a[j] == rest[j - 1];
        } else {
          assert a[i] == rest[i - 1] && a[j] == rest[j - 1];
        }
      }
    }
  }

  /** The versions that pruning removes: all but the highest few. */
  function Victims(versions: set<nat>, keep: nat): (v: seq<nat>)
    ensures |v| == if keep == 0 || |versions| <= keep then 0 else |versions| - keep
  {
    if keep == 0 || |versions| <= keep then [] else Ascending(versions)[..|versions| - keep]
  }

  /** Pruning takes the oldest versions: whatever it keeps is newer than whatever it removes. */
  lemma {:induction false} VictimsAreOldest(versions: set<nat>, keep: nat)
    ensures forall x, y :: x in Victims(versions, keep) && y in versions && y !in Victims(versions, keep) ==> x < y
  {
    var all, victims := Ascending(versions), Victims(versions, keep);
    AscendingHolds(versions);
    forall x, y | x in victims && y in versions && y !in victims
      ensures x < y
    {
      var i :| 0 <= i < |victims| && victims[i] == x;
      var j :| 0 <= j < |all| && all[j] == y;
      assert all[i] == x && j >= |victims|;
    }
  }

  // ---- steps --------------------------------------------------------------

  function NextVersion(d: Disk): (v: nat) {
    match d.current case Some(c) => c + 1 case None => 1
  }

  predicate OpensCurrent(d: Disk) {
    d.current.Some? && d.current.value in d.dirs && d.dirs[d.current.value].Complete()
  }

  datatype Action =
    | StartLoad(rows: seq<Row>)
    | StartInsert(row: Row)
    | StartRollback(version: nat)
    | Go
    | Unlink(file: File)
    | Crash
    | IoError
    | SyncError

  predicate Enabled(w: World, a: Action) {
    match a
    case StartLoad(_) => w.pc == Idle
    case StartInsert(_) => w.pc == Idle
    case StartRollback(_) => w.pc == Idle
    case Go => w.pc != Idle && VictimFiles(w) == {}
    case Unlink(file) => file in VictimFiles(w)
    case Crash => true
    case IoError => w.pc != Idle
    case SyncError => w.pc.RenameDir? || w.pc.RenamePointer?
  }

  /** The files left in the directory that is being removed. */
  function VictimFiles(w: World): (files: set<File>) {
    if w.pc.Remove? && w.pc.victims != [] && w.pc.victims[0] in w.disk.dirs then w.disk.dirs[w.pc.victims[0]].files
    else {}
  }

  /** A publish is refused when the next version is already there. */
  function StartPublish(w: World, rows: seq<Row>, job: Job): (r: World) {
    var v := NextVersion(w.disk);
    if v in w.disk.dirs then w else w.(pc := ClearTemp(v, rows, job))
  }

  /** The rows the new version should hold: an insert adds its row to what readers see. */
  function Intended(w: World, job: Job, rows: seq<Row>): (r: seq<Row>) {
    match job
    case Load => rows
    case Insert(row) => (if w.table.Some? then w.table.value else []) + [row]
    case Back => rows
  }

  function NextFile(file: File, version: nat, rows: seq<Row>, job: Job): (pc: Pc) {
    match file
    case MatchSegment => WriteFile(version, rows, job, PayloadSegment)
    case PayloadSegment => WriteFile(version, rows, job, Manifest)
    case Manifest => RenameDir(version, rows, job)
  }

  function Step(w: World): (r: World)
    requires Enabled(w, Go)
  {
    var d := w.disk;
    match w.pc
    case ClearTemp(v, rows, job) => w.(disk := d.(temps := d.temps - {v}), pc := MakeTemp(v, rows, job))
    case MakeTemp(v, rows, job) =>
      w.(disk := d.(temps := d.temps[v := Dir(rows, {})]), pc := WriteFile(v, rows, job, MatchSegment))
    case WriteFile(v, rows, job, file) =>
      var was := if v in d.temps then d.temps[v].files else {};
      w.(disk := d.(temps := d.temps[v := Dir(rows, was + {file})]), pc := NextFile(file, v, rows, job))
    case RenameDir(v, rows, job) =>
      if v !in d.temps then w.(pc := Idle)
      else
        World(d.(dirs := d.dirs[v := d.temps[v]], temps := d.temps - {v}), WritePointer(v, job),
              w.history[v := Intended(w, job, rows)], w.table, w.acked)
    case WritePointer(v, job) => w.(disk := d.(currentTemp := Some(v)), pc := RenamePointer(v, job))
    case RenamePointer(v, job) =>
      w.(disk := d.(current := d.currentTemp, currentTemp := None),
         table := Some(if v in w.history then w.history[v] else []),
         pc := if job.Insert? then ListEpochs(RETENTION, job.row) else Idle)
    case ListEpochs(keep, row) => w.(pc := Remove(Victims(d.dirs.Keys, keep), row))
    case Remove(victims, row) =>
      if victims == [] then w.(pc := Idle, acked := w.acked + [row])
      else w.(disk := d.(dirs := d.dirs - {victims[0]}), pc := Remove(victims[1..], row))
  }

  /**
   An I/O error stops a step before it has any effect; an error of the directory sync that follows a rename stops
   the operation although the rename took effect.
   */
  function Act(w: World, a: Action): (r: World)
    requires Enabled(w, a)
  {
    match a
    case StartLoad(rows) => StartPublish(w, rows, Load)
    case StartInsert(row) =>
      if OpensCurrent(w.disk) then StartPublish(w, w.disk.dirs[w.disk.current.value].rows + [row], Insert(row)) else w
    case StartRollback(v) =>
      if v in w.disk.dirs && w.disk.dirs[v].Complete() then w.(pc := WritePointer(v, Back)) else w
    case Go => Step(w)
    case Unlink(file) =>
      var v := w.pc.victims[0];
      w.(disk := w.disk.(dirs := w.disk.dirs[v := w.disk.dirs[v].(files := w.disk.dirs[v].files - {file})]))
    case Crash => w.(pc := Idle)
    case IoError =>
      if w.pc.WriteFile? || w.pc.RenameDir? || w.pc.MakeTemp? then
        w.(disk := w.disk.(temps := w.disk.temps - {w.pc.version}), pc := Idle)
      else w.(pc := Idle, acked := if Pruning(w.pc) then w.acked + [w.pc.row] else w.acked)
    case SyncError => Step(w).(pc := Idle)
  }

  /** An insert past its switch of CURRENT. Pruning is best effort, so an error there does not fail the insert. */
  predicate Pruning(pc: Pc) {
    pc.ListEpochs? || pc.Remove?
  }

  function Run(w: World, actions: seq<Action>): (r: World) {
    if actions == [] then w
    else
      var before := Run(w, actions[..|actions| - 1]);
      if Enabled(before, actions[|actions| - 1]) then Act(before, actions[|actions| - 1]) else before
  }

  ghost predicate Fresh(w: World) {
    w.disk.dirs == map[] && w.disk.current == None && w.pc == Idle && w.table == None && w.acked == []
  }

  // ---- the invariant ------------------------------------------------------

  /** Versions start at 1 and leave no gap. */
  ghost predicate Contiguous(dirs: map<nat, Dir>) {
    && 0 !in dirs
    && forall a: nat, b: nat, x: nat :: a in dirs && b in dirs && a <= x <= b ==> x in dirs
  }

  ghost predicate Highest(dirs: map<nat, Dir>, v: nat) {
    v in dirs && forall x :: x in dirs ==> x <= v
  }

  /** Only the oldest of several versions can have lost files. */
  ghost predicate MostlyComplete(dirs: map<nat, Dir>) {
    forall v :: v in dirs && !dirs[v].Complete() ==> v + 1 in dirs && forall x :: x in dirs ==> v <= x
  }

  /** What a reader gets: CURRENT names a complete epoch that holds the rows it was published with. */
  ghost predicate Readable(w: World) {
    match w.disk.current
    case Some(c) => c in w.disk.dirs && w.disk.dirs[c].Complete() && w.table == Some(w.disk.dirs[c].rows)
    case None => w.table == None && w.disk.dirs.Keys <= {1}
  }

  ghost predicate Immutable(w: World) {
    forall v :: v in w.disk.dirs ==> v in w.history && w.disk.dirs[v].rows == w.history[v]
  }

  /** The staged rows are the rows meant, for a version that is not there yet. */
  ghost predicate Staging(w: World, v: nat, rows: seq<Row>, job: Job) {
    && v !in w.disk.dirs && v == NextVersion(w.disk)
    && (job.Load? || (job.Insert? && w.table.Some? && rows == w.table.value + [job.row]))
  }

  ghost predicate Before(file: File, files: set<File>) {
    match file
    case MatchSegment => files == {}
    case PayloadSegment => files == {MatchSegment}
    case Manifest => files == {MatchSegment, PayloadSegment}
  }

  /** The victims are the lowest versions, and CURRENT is above them. */
  ghost predicate Lowest(d: Disk, victims: seq<nat>) {
    && d.current.Some? && StrictlyAscending(victims)
    && (forall x :: x in victims ==> x in d.dirs && x < d.current.value)
    && (forall x, y :: x in d.dirs && y in victims && x <= y ==> x in victims)
  }

  /** A published version that CURRENT is about to name holds the rows meant. */
  ghost predicate Pointing(w: World, v: nat, job: Job) {
    && v in w.disk.dirs && w.disk.dirs[v].Complete()
    && (job.Back? || Highest(w.disk.dirs, v))
    && (job.Insert? ==> w.table.Some? && v in w.history && w.history[v] == w.table.value + [job.row])
    && (job.Insert? ==> v == NextVersion(w.disk))
  }

  ghost predicate PcOk(w: World) {
    match w.pc
    case Idle => true
    case ClearTemp(v, rows, job) => Staging(w, v, rows, job)
    case MakeTemp(v, rows, job) => Staging(w, v, rows, job)
    case WriteFile(v, rows, job, file) =>
      Staging(w, v, rows, job) && v in w.disk.temps && w.disk.temps[v].rows == rows
          && Before(file, w.disk.temps[v].files)
    case RenameDir(v, rows, job) =>
      Staging(w, v, rows, job) && v in w.disk.temps && w.disk.temps[v].rows == rows && w.disk.temps[v].Complete()
    case WritePointer(v, job) => Pointing(w, v, job)
    case RenamePointer(v, job) => Pointing(w, v, job) && w.disk.currentTemp == Some(v)
    case ListEpochs(_, _) => w.disk.current.Some? && Highest(w.disk.dirs, w.disk.current.value)
    case Remove(victims, _) =>
      w.disk.current.Some? && Highest(w.disk.dirs, w.disk.current.value) && Lowest(w.disk, victims)
  }

  ghost predicate Inv(w: World) {
    Contiguous(w.disk.dirs) && MostlyComplete(w.disk.dirs) && Readable(w) && Immutable(w) && PcOk(w)
  }

  lemma {:induction false} NextIsAbove(w: World, v: nat)
    requires Contiguous(w.disk.dirs) && Readable(w) && v == NextVersion(w.disk) && v !in w.disk.dirs
    ensures forall x :: x in w.disk.dirs ==> x < v
    ensures w.disk.dirs != map[] ==> v - 1 in w.disk.dirs
  {
    if w.disk.current.None? {
      assert w.disk.dirs.Keys == {};
    }
  }

  lemma {:induction false} AddHighest(dirs: map<nat, Dir>, v: nat, dir: Dir)
    requires Contiguous(dirs) && MostlyComplete(dirs) && v > 0 && dir.Complete()
    requires (forall x :: x in dirs ==> x < v) && (dirs != map[] ==> v - 1 in dirs)
    ensures Contiguous(dirs[v := dir]) && MostlyComplete(dirs[v := dir]) && Highest(dirs[v := dir], v)
  {
    var after := dirs[v := dir];
    forall a: nat, b: nat, x: nat | a in after && b in after && a <= x <= b && x != v
      ensures x in after
    {
      assert a in dirs && v - 1 in dirs && a <= x <= v - 1;
    }
  }

  lemma {:induction false} DropLowest(dirs: map<nat, Dir>, v: nat)
    requires Contiguous(dirs) && MostlyComplete(dirs) && v in dirs && forall x :: x in dirs ==> v <= x
    ensures Contiguous(dirs - {v}) && MostlyComplete(dirs - {v})
  {
  }

  lemma {:induction false} ThinLowest(dirs: map<nat, Dir>, v: nat, dir: Dir)
    requires Contiguous(dirs) && MostlyComplete(dirs) && v in dirs && v + 1 in dirs && forall x :: x in dirs ==> v <= x
    ensures Contiguous(dirs[v := dir]) && MostlyComplete(dirs[v := dir])
  {
    assert dirs[v := dir].Keys == dirs.Keys;
  }

  lemma {:induction false} RenameDirKeepsInv(w: World)
    requires Inv(w) && w.pc.RenameDir?
    ensures Inv(Step(w))
  {
    var v := w.pc.version;
    NextIsAbove(w, v);
    AddHighest(w.disk.dirs, v, w.disk.temps[v]);
    hide Contiguous, MostlyComplete, Highest, Before, Lowest;
  }

  lemma {:induction false} VictimsAreLowest(d: Disk, keep: nat)
    requires d.current.Some? && Highest(d.dirs, d.current.value)
    ensures Lowest(d, Victims(d.dirs.Keys, keep))
  {
    var all, victims := Ascending(d.dirs.Keys), Victims(d.dirs.Keys, keep);
    AscendingHolds(d.dirs.Keys);
    if victims != [] {
      assert victims <= all && |victims| < |all|;
      var last := all[|all| - 1];
      assert last in d.dirs;
      assert forall x :: x in victims ==> x in all && x < last;
    }
  }

  lemma {:induction false} FirstVictimIsLowest(d: Disk, victims: seq<nat>)
    requires Contiguous(d.dirs) && Lowest(d, victims) && victims != [] && d.current.value in d.dirs
    ensures victims[0] in d.dirs && victims[0] + 1 in d.dirs && victims[0] != d.current.value
    ensures forall x :: x in d.dirs ==> victims[0] <= x
    ensures Lowest(d.(dirs := d.dirs - {victims[0]}), victims[1..])
  {
    var v := victims[0];
    assert v in victims;
    forall x | x in d.dirs
      ensures v <= x
    {
      assert x <= v ==> x in victims;
    }
    assert v <= v + 1 <= d.current.value;
    assert forall x :: x in victims <==> x == v || x in victims[1..];
    assert v !in victims[1..];
  }

  lemma {:induction false} UnlinkKeepsInv(w: World, file: File)
    requires Inv(w) && Enabled(w, Unlink(file))
    ensures Inv(Act(w, Unlink(file)))
  {
    var v := w.pc.victims[0];
    FirstVictimIsLowest(w.disk, w.pc.victims);
    ThinLowest(w.disk.dirs, v, w.disk.dirs[v].(files := w.disk.dirs[v].files - {file}));
    hide Contiguous, MostlyComplete, Staging, Before;
  }

  lemma {:induction false} RemoveKeepsInv(w: World)
    requires Inv(w) && w.pc.Remove? && w.pc.victims != [] && Enabled(w, Go)
    ensures Inv(Step(w))
  {
    FirstVictimIsLowest(w.disk, w.pc.victims);
    DropLowest(w.disk.dirs, w.pc.victims[0]);
    hide Contiguous, MostlyComplete, Staging, Before, Lowest;
  }

  /** Steps on the temporary directory leave everything a reader can see alone. */
  lemma {:induction false} StagingStepKeepsInv(w: World)
    requires Inv(w) && (w.pc.ClearTemp? || w.pc.MakeTemp? || w.pc.WriteFile?)
    ensures Inv(Step(w))
  {
    hide Contiguous, MostlyComplete, Lowest, Highest, Pointing, Immutable;
    assert Step(w).disk.dirs == w.disk.dirs && Step(w).disk.current == w.disk.current;
    hide Dir.Complete;
    assert Staging(Step(w), w.pc.version, w.pc.rows, w.pc.job);
    ImmutableStays(w, Step(w));
  }

  lemma {:induction false} ImmutableStays(w: World, w': World)
    requires Immutable(w) && w'.disk.dirs == w.disk.dirs && w'.history == w.history
    ensures Immutable(w')
  {
  }

  lemma {:induction false} PointerStepKeepsInv(w: World)
    requires Inv(w) && (w.pc.WritePointer? || w.pc.RenamePointer?)
    ensures Inv(Step(w))
  {
    hide Contiguous, MostlyComplete, Lowest, Highest, Staging;
    assert Step(w).disk.dirs == w.disk.dirs && Step(w).history == w.history;
  }

  lemma {:induction false} StepKeepsInv(w: World)
    requires Inv(w) && Enabled(w, Go)
    ensures Inv(Step(w))
  {
    hide Contiguous, MostlyComplete, Lowest, Highest, Staging, Pointing, Immutable, Readable;
    match w.pc
    case RenameDir(_, _, _) => RenameDirKeepsInv(w);
    case Remove(victims, _) =>
      if victims != [] {
        RemoveKeepsInv(w);
      } else {
        OnlyPcMoved(w, Step(w));
      }
    case ListEpochs(keep, _) =>
      VictimsAreLowest(w.disk, keep);
      OnlyPcMoved(w, Step(w));
    case WritePointer(_, _) => PointerStepKeepsInv(w);
    case RenamePointer(_, _) => PointerStepKeepsInv(w);
    case _ => StagingStepKeepsInv(w);
  }

  /** Disk, history and what readers see stay the same. */
  lemma {:induction false} OnlyPcMoved(w: World, w': World)
    requires Inv(w) && PcOk(w') && w'.disk == w.disk && w'.history == w.history && w'.table == w.table
    ensures Inv(w')
  {
    hide Contiguous, MostlyComplete, PcOk;
  }

  lemma {:induction false} ActKeepsInv(w: World, a: Action)
    requires Inv(w) && Enabled(w, a)
    ensures Inv(Act(w, a))
  {
    hide Contiguous, MostlyComplete, Lowest, Highest, Step;
    match a
    case Go => StepKeepsInv(w);
    case Unlink(file) => UnlinkKeepsInv(w, file);
    case SyncError => StepKeepsInv(w);
    case _ =>
  }

  lemma {:induction false} RunKeepsInv(w: World, actions: seq<Action>)
    requires Inv(w)
    ensures Inv(Run(w, actions))
  {
    hide Inv;
    if actions != [] {
      var before, a := Run(w, actions[..|actions| - 1]), actions[|actions| - 1];
      RunKeepsInv(w, actions[..|actions| - 1]);
      if Enabled(before, a) {
        ActKeepsInv(before, a);
      }
    }
  }

  /**
   However operations are cut off, the versions are contiguous, CURRENT names a complete epoch among them once it is
   set, and a reader sees exactly the rows of the last switch.
   */
  lemma {:induction false} AlwaysReadable(w: World, actions: seq<Action>)
    requires Fresh(w)
    ensures var r := Run(w, actions);
            Contiguous(r.disk.dirs) && Readable(r) && Immutable(r) && MostlyComplete(r.disk.dirs)
  {
    assert Inv(w);
    RunKeepsInv(w, actions);
  }

  predicate Switches(w: World, a: Action) {
    w.pc.RenamePointer? && (a.Go? || a.SyncError?)
  }

  /** What opening CURRENT yields. */
  function Seen(d: Disk): (rows: Option<seq<Row>>) {
    if OpensCurrent(d) then Some(d.dirs[d.current.value].rows) else None
  }

  /** Readers see a change only at the switch of CURRENT, and then all of it. */
  lemma {:induction false} OnlyTheSwitchShows(w: World, a: Action)
    requires Inv(w) && Enabled(w, a)
    ensures !Switches(w, a) ==> Seen(Act(w, a).disk) == Seen(w.disk)
    ensures Switches(w, a) ==> Seen(Act(w, a).disk) == Some(w.disk.dirs[w.pc.version].rows)
    ensures Switches(w, a) && w.pc.job.Insert? ==> Seen(Act(w, a).disk) == Some(Seen(w.disk).value + [w.pc.job.row])
  {
    ActKeepsInv(w, a);
    hide Contiguous, MostlyComplete, Lowest, Highest, PcOk;
    SeenIsTable(w);
    SeenIsTable(Act(w, a));
    if w.pc.RenamePointer? {
      assert PcOk(w);
    }
  }

  lemma {:induction false} SeenIsTable(w: World)
    requires Inv(w)
    ensures Seen(w.disk) == w.table
  {
  }

  // ---- which publishes go through -----------------------------------------

  /** CURRENT is the newest version, or nothing was ever published. */
  ghost predicate AtNewest(d: Disk) {
    match d.current case Some(c) => Highest(d.dirs, c) case None => d.dirs == map[]
  }

  /** A publish is accepted exactly when CURRENT is the newest version. */
  lemma {:induction false} PublishIffNewest(w: World, rows: seq<Row>, row: Row)
    requires Inv(w) && w.pc == Idle
    ensures Act(w, StartLoad(rows)) == w <==> !AtNewest(w.disk)
    ensures Act(w, StartInsert(row)) == w <==> !AtNewest(w.disk) || w.disk.current == None
  {
    var v := NextVersion(w.disk);
    if v !in w.disk.dirs {
      NextIsAbove(w, v);
      assert w.disk.current.None? ==> w.disk.dirs == map[];
    } else {
      assert w.disk.dirs != map[];
    }
  }

  /** Without a rollback a store that is behind its newest version stays exactly as it is. */
  lemma {:induction false} BehindStaysBehind(w: World, actions: seq<Action>)
    requires Inv(w) && w.pc == Idle && !AtNewest(w.disk)
    requires forall i :: 0 <= i < |actions| ==> !actions[i].StartRollback?
    ensures Run(w, actions) == w
  {
    if actions != [] {
      BehindStaysBehind(w, actions[..|actions| - 1]);
      var a := actions[|actions| - 1];
      hide Inv, AtNewest;
      match a
      case StartLoad(rows) => PublishIffNewest(w, rows, Row([], []));
      case StartInsert(row) => PublishIffNewest(w, [], row);
      case _ =>
    }
  }

  function Taken(w: World, a: Action): (r: World) {
    if Enabled(w, a) then Act(w, a) else w
  }

  lemma {:induction false} RunFirst(w: World, a: Action, rest: seq<Action>)
    ensures Run(w, [a] + rest) == Run(Taken(w, a), rest)
    decreases |rest|
  {
    var actions, n := [a] + rest, |rest|;
    if rest == [] {
      assert actions == [a] && actions[..0] == [];
    } else {
      RunFirst(w, a, rest[..n - 1]);
      assert actions[..n] == [a] + rest[..n - 1];
    }
  }

  function Gos(n: nat): (actions: seq<Action>) {
    if n == 0 then [] else [Go] + Gos(n - 1)
  }

  /** Building a directory takes six file steps. */
  lemma {:induction false} DirectoryAppears(w: World)
    requires w.pc.ClearTemp?
    ensures var r, v := Run(w, Gos(6)), w.pc.version;
            && r.pc == WritePointer(v, w.pc.job) && r.disk.current == w.disk.current
            && r.disk.dirs == w.disk.dirs[v := Dir(w.pc.rows, {MatchSegment, PayloadSegment, Manifest})]
  {
    RunFirst(w, Go, Gos(5));
    RunFirst(Step(w), Go, Gos(4));
    hide Run;
    FilesAppear(Step(Step(w)));
  }

  lemma {:induction false} FilesAppear(w: World)
    requires w.pc.WriteFile? && w.pc.file == MatchSegment && w.pc.version in w.disk.temps
    requires w.disk.temps[w.pc.version].files == {}
    ensures var r, v := Run(w, Gos(4)), w.pc.version;
            && r.pc == WritePointer(v, w.pc.job) && r.disk.current == w.disk.current
            && r.disk.dirs == w.disk.dirs[v := Dir(w.pc.rows, {MatchSegment, PayloadSegment, Manifest})]
  {
    var v, w1, w2 := w.pc.version, Step(w), Step(Step(w));
    var w3 := Step(w2);
    RunFirst(w, Go, Gos(3));
    RunFirst(w1, Go, Gos(2));
    RunFirst(w2, Go, Gos(1));
    RunFirst(w3, Go, Gos(0));
    assert Run(Step(w3), Gos(0)) == Step(w3);
    hide Run;
    assert w3.disk.temps[v].files == {MatchSegment, PayloadSegment, Manifest};
  }

  /** Moving CURRENT takes two. */
  lemma {:induction false} PointerMoves(w: World)
    requires w.pc.WritePointer? && !w.pc.job.Insert?
    ensures var r := Run(w, Gos(2));
            && r.pc == Idle && r.disk.current == Some(w.pc.version) && r.disk.dirs == w.disk.dirs
            && r.table == Some(if w.pc.version in w.history then w.history[w.pc.version] else [])
  {
    RunFirst(w, Go, Gos(1));
    RunFirst(Step(w), Go, Gos(0));
    assert Run(Step(Step(w)), Gos(0)) == Step(Step(w));
    hide Run;
  }

  /** A load that crashes between the rename of its directory and the switch leaves the store behind. */
  lemma {:induction false} CrashLeavesBehind(w: World, rows: seq<Row>)
    requires Inv(w) && w.pc == Idle && AtNewest(w.disk)
    ensures var r := Run(w, [StartLoad(rows)] + Gos(6) + [Crash]); r.pc == Idle && !AtNewest(r.disk)
  {
    var actions := [StartLoad(rows)] + Gos(6);
    PublishIffNewest(w, rows, Row([], []));
    RunFirst(w, StartLoad(rows), Gos(6));
    DirectoryAppears(Act(w, StartLoad(rows)));
    assert (actions + [Crash])[..|actions|] == actions;
    hide Inv, Gos;
    assert Run(w, actions + [Crash]) == Act(Run(w, actions), Crash);
    assert NextVersion(w.disk) in Run(w, actions).disk.dirs;
  }

  /** A rollback leaves the store behind exactly when it is not to the newest version. */
  lemma {:induction false} RollbackLeavesBehind(w: World, v: nat)
    requires Inv(w) && w.pc == Idle && v in w.disk.dirs && w.disk.dirs[v].Complete()
    ensures var r := Run(w, [StartRollback(v)] + Gos(2));
            && r.pc == Idle && r.table == Some(w.history[v])
            && (AtNewest(r.disk) <==> Highest(w.disk.dirs, v))
  {
    assert v in w.history;
    hide Inv;
    var w1 := w.(pc := WritePointer(v, Back));
    RunFirst(w, StartRollback(v), Gos(2));
    PointerMoves(w1);
    hide Run;
  }

  lemma {:induction false} RunInTurn(w: World, first: seq<Action>, second: seq<Action>)
    ensures Run(w, first + second) == Run(Run(w, first), second)
    decreases |second|
  {
    if second == [] {
      assert first + second == first;
    } else {
      var n := |second| - 1;
      RunInTurn(w, first, second[..n]);
      assert (first + second)[..|first + second| - 1] == first + second[..n];
    }
  }

  function LoadSteps(rows: seq<Row>): (actions: seq<Action>) {
    [StartLoad(rows)] + (Gos(6) + Gos(2))
  }

  lemma {:induction false} LoadCompletes(w: World, rows: seq<Row>)
    requires Inv(w) && w.pc == Idle && AtNewest(w.disk)
    ensures var r, v := Run(w, LoadSteps(rows)), NextVersion(w.disk);
            && r.pc == Idle && r.disk.current == Some(v) && Highest(r.disk.dirs, v)
            && r.disk.dirs == w.disk.dirs[v := Dir(rows, {MatchSegment, PayloadSegment, Manifest})]
  {
    PublishIffNewest(w, rows, Row([], []));
    NextIsAbove(w, NextVersion(w.disk));
    var w1 := Act(w, StartLoad(rows));
    RunFirst(w, StartLoad(rows), Gos(6) + Gos(2));
    DirectoryAppears(w1);
    RunInTurn(w1, Gos(6), Gos(2));
    hide Run, Inv, Gos;
    PointerMoves(Run(w1, Gos(6)));
  }

  /** Both happen: a new store is behind after a first load that crashes, and after two loads and a rollback. */
  lemma {:induction false} BehindIsReached(w: World, rows: seq<Row>)
    requires Fresh(w)
    ensures var r := Run(w, [StartLoad(rows)] + Gos(6) + [Crash]); r.pc == Idle && !AtNewest(r.disk)
    ensures var r := Run(w, LoadSteps(rows) + LoadSteps(rows) + ([StartRollback(1)] + Gos(2)));
            r.pc == Idle && !AtNewest(r.disk)
  {
    assert Inv(w);
    CrashLeavesBehind(w, rows);
    var load := LoadSteps(rows);
    LoadCompletes(w, rows);
    RunKeepsInv(w, load);
    var once := Run(w, load);
    LoadCompletes(once, rows);
    RunKeepsInv(once, load);
    var twice := Run(once, load);
    assert 1 in twice.disk.dirs && 2 in twice.disk.dirs && !Highest(twice.disk.dirs, 1);
    RollbackLeavesBehind(twice, 1);
    RunInTurn(w, load, load);
    RunInTurn(w, load + load, [StartRollback(1)] + Gos(2));
  }

  lemma {:induction false} HighestIsComplete(w: World, v: nat)
    requires Inv(w) && Highest(w.disk.dirs, v)
    ensures w.disk.dirs[v].Complete()
  {
    assert v + 1 !in w.disk.dirs;
  }

  /** A rollback to the newest version, which is always there to open, gets such a store going again. */
  lemma {:induction false} RollbackToNewestHelps(w: World, v: nat)
    requires Inv(w) && w.pc == Idle && Highest(w.disk.dirs, v)
    ensures var r := Run(w, [StartRollback(v)] + Gos(2));
            r.pc == Idle && AtNewest(r.disk) && r.table == Some(w.history[v])
  {
    HighestIsComplete(w, v);
    RollbackLeavesBehind(w, v);
  }

  // ---- inserts ------------------------------------------------------------

  /** What became of an insert that switched CURRENT. */
  datatype Fate = Acknowledged | CutOff | StillPruning

  datatype Commit = Commit(row: Row, fate: Fate)

  /**
   The inserts of a run that switched CURRENT, in order. One is cut off by a failed sync after its switch or by a
   crash while it prunes; otherwise it is acknowledged once pruning ends, whether pruning worked or not.
   */
  function Commits(w: World, actions: seq<Action>): (commits: seq<Commit>) {
    if actions == [] then []
    else
      var before, a := Run(w, actions[..|actions| - 1]), actions[|actions| - 1];
      var commits := Commits(w, actions[..|actions| - 1]);
      if !Enabled(before, a) then commits
      else if Switches(before, a) && before.pc.job.Insert? then
        commits + [Commit(before.pc.job.row, if a.Go? then StillPruning else CutOff)]
      else if Pruning(before.pc) && !Pruning(Act(before, a).pc) && commits != [] then
        commits[..|commits| - 1] + [Commit(before.pc.row, if a.Crash? then CutOff else Acknowledged)]
      else commits
  }

  function RowsOf(commits: seq<Commit>): (rows: seq<Row>)
    ensures |rows| == |commits| && forall i :: 0 <= i < |rows| ==> rows[i] == commits[i].row
  {
    if commits == [] then [] else RowsOf(commits[..|commits| - 1]) + [commits[|commits| - 1].row]
  }

  function AckedRows(commits: seq<Commit>): (rows: seq<Row>) {
    if commits == [] then []
    else
      var last := commits[|commits| - 1];
      AckedRows(commits[..|commits| - 1]) + if last.fate == Acknowledged then [last.row] else []
  }

  predicate OfInsert(a: Action) {
    !a.StartLoad? && !a.StartRollback?
  }

  predicate Inserting(pc: Pc) {
    pc.Idle? || Pruning(pc) || pc.job.Insert?
  }

  /** Every commit is settled, except the one that is pruning. */
  ghost predicate Settled(pc: Pc, commits: seq<Commit>) {
    && (forall i :: 0 <= i < |commits| && commits[i].fate == StillPruning ==> i == |commits| - 1 && Pruning(pc))
    && (Pruning(pc) ==> commits != [] && commits[|commits| - 1] == Commit(pc.row, StillPruning))
  }

  ghost predicate InsertsSoFar(w: World, w': World, commits: seq<Commit>) {
    && w.disk.current.Some? && w.table.Some?
    && w'.disk.current == Some(w.disk.current.value + |commits|)
    && w'.table == Some(w.table.value + RowsOf(commits))
    && w'.acked == w.acked + AckedRows(commits)
    && Settled(w'.pc, commits) && Inserting(w'.pc)
  }

  lemma {:induction false} OneCommitMore(commits: seq<Commit>, commit: Commit)
    ensures RowsOf(commits + [commit]) == RowsOf(commits) + [commit.row]
    ensures AckedRows(commits + [commit])
            == AckedRows(commits) + if commit.fate == Acknowledged then [commit.row] else []
  {
    assert (commits + [commit])[..|commits|] == commits;
  }

  lemma {:induction false} SwitchStep(w: World, w': World, a: Action, commits: seq<Commit>)
    requires Inv(w') && InsertsSoFar(w, w', commits) && Enabled(w', a)
    requires Switches(w', a) && w'.pc.job.Insert?
    ensures InsertsSoFar(w, Act(w', a), commits + [Commit(w'.pc.job.row, if a.Go? then StillPruning else CutOff)])
  {
    hide Contiguous, MostlyComplete, Highest, Immutable, RowsOf, AckedRows;
    var row := w'.pc.job.row;
    OneCommitMore(commits, Commit(row, if a.Go? then StillPruning else CutOff));
    assert w.table.value + (RowsOf(commits) + [row]) == w.table.value + RowsOf(commits) + [row];
    assert AckedRows(commits) + [] == AckedRows(commits);
  }

  lemma {:induction false} SettleStep(w: World, w': World, a: Action, commits: seq<Commit>)
    requires InsertsSoFar(w, w', commits) && Enabled(w', a) && Pruning(w'.pc) && !Pruning(Act(w', a).pc)
    ensures commits != []
    ensures InsertsSoFar(w, Act(w', a),
                         commits[..|commits| - 1] + [Commit(w'.pc.row, if a.Crash? then CutOff else Acknowledged)])
  {
    hide RowsOf, AckedRows;
    var row, settled := w'.pc.row, commits[..|commits| - 1];
    assert settled + [Commit(row, StillPruning)] == commits;
    OneCommitMore(settled, Commit(row, StillPruning));
    OneCommitMore(settled, Commit(row, if a.Crash? then CutOff else Acknowledged));
    assert AckedRows(settled) + [] == AckedRows(settled);
    assert w.acked + (AckedRows(settled) + [row]) == w.acked + AckedRows(settled) + [row];
  }

  lemma {:induction false} QuietStep(w: World, w': World, a: Action, commits: seq<Commit>)
    requires InsertsSoFar(w, w', commits) && Enabled(w', a) && OfInsert(a)
    requires !(Switches(w', a) && w'.pc.job.Insert?) && !(Pruning(w'.pc) && !Pruning(Act(w', a).pc))
    ensures InsertsSoFar(w, Act(w', a), commits)
  {
    hide RowsOf, AckedRows, Victims;
  }

  /**
   Inserts in any number, interleaved at the lock and cut off anywhere by crashes and I/O errors: readers see the rows
   there were, then exactly the rows of the inserts that switched CURRENT, in order, and the version has grown by one
   for each. The acknowledged rows are those of the commits that were not cut off and are not still pruning.
   */
  lemma {:induction false} InsertsAppend(w: World, actions: seq<Action>)
    requires Inv(w) && w.pc == Idle && w.disk.current.Some?
    requires forall i :: 0 <= i < |actions| ==> OfInsert(actions[i])
    ensures Inv(Run(w, actions)) && InsertsSoFar(w, Run(w, actions), Commits(w, actions))
  {
    if actions == [] {
      assert w.table.value + [] == w.table.value && w.acked + [] == w.acked;
    } else {
      var before, a := Run(w, actions[..|actions| - 1]), actions[|actions| - 1];
      var commits := Commits(w, actions[..|actions| - 1]);
      InsertsAppend(w, actions[..|actions| - 1]);
      assert OfInsert(a);
      hide Inv, InsertsSoFar, OfInsert;
      if Enabled(before, a) {
        ActKeepsInv(before, a);
        if Switches(before, a) && before.pc.job.Insert? {
          SwitchStep(w, before, a, commits);
        } else if Pruning(before.pc) && !Pruning(Act(before, a).pc) {
          SettleStep(w, before, a, commits);
        } else {
          QuietStep(w, before, a, commits);
        }
      }
    }
  }

  predicate CutsOff(a: Action) {
    a.Crash? || a.SyncError?
  }

  lemma {:induction false} NothingCutOff(w: World, actions: seq<Action>)
    requires forall i :: 0 <= i < |actions| ==> !CutsOff(actions[i])
    ensures forall i :: 0 <= i < |Commits(w, actions)| ==> Commits(w, actions)[i].fate != CutOff
  {
    if actions != [] {
      NothingCutOff(w, actions[..|actions| - 1]);
      assert !CutsOff(actions[|actions| - 1]);
      hide Run, Act;
    }
  }

  lemma {:induction false} AllAcked(commits: seq<Commit>)
    requires forall i :: 0 <= i < |commits| ==> commits[i].fate == Acknowledged
    ensures AckedRows(commits) == RowsOf(commits)
  {
    if commits != [] {
      AllAcked(commits[..|commits| - 1]);
    }
  }

  /** Without a crash or a failed sync nothing is cut off: once idle, the added rows are the acknowledged rows. */
  lemma {:induction false} AckedAreAdded(w: World, actions: seq<Action>)
    requires Inv(w) && w.pc == Idle && w.disk.current.Some? && Run(w, actions).pc == Idle
    requires forall i :: 0 <= i < |actions| ==> OfInsert(actions[i]) && !CutsOff(actions[i])
    ensures var after, added := Run(w, actions), RowsOf(Commits(w, actions));
            && after.table == Some(w.table.value + added) && after.acked == w.acked + added
            && after.disk.current == Some(w.disk.current.value + |added|)
  {
    var commits := Commits(w, actions);
    InsertsAppend(w, actions);
    NothingCutOff(w, actions);
    hide Inv, Run, Commits, OfInsert, CutsOff;
    forall i | 0 <= i < |commits|
      ensures commits[i].fate == Acknowledged
    {
      assert commits[i].fate != CutOff && commits[i].fate != StillPruning;
    }
    AllAcked(commits);
  }

  // ---- the repository -----------------------------------------------------

  const ALL_FILES: set<File> := {MatchSegment, PayloadSegment, Manifest}

  /**
   The repository's operations, each file step taken together with the step of the machine above. Publishing takes any
   version; the machine's invariant is kept when it is the next one, which is what every caller asks for.
   */
  class LocalEpochRepository {
    var disk: Disk
    ghost var world: World

    ghost predicate Tied()
      reads this
    {
      world.disk == disk
    }

    ghost predicate Valid()
      reads this
    {
      Tied() && Inv(world)
    }

    /** Opens a root directory that is empty or was left behind by earlier runs. */
    constructor (root: Disk, ghost past: World)
      requires Inv(past) && past.disk == root
      ensures Valid() && disk == root && world == past.(pc := Idle)
    {
      disk := root;
      world := past.(pc := Idle);
      new;
      ActKeepsInv(past, Crash);
    }

    method SetCurrent(version: nat)
      requires Tied() && world.pc.WritePointer? && world.pc.version == version
      modifies this
      ensures Tied() && (old(Inv(world)) ==> Inv(world))
      ensures disk == old(disk).(current := Some(version), currentTemp := None)
      ensures old(Inv(world)) ==> version in old(world).history
      ensures world == old(world).(
                         disk := disk,
                         pc := if old(world).pc.job.Insert? then ListEpochs(RETENTION, old(world).pc.job.row) else Idle,
                         table := Some(if version in old(world).history then old(world).history[version] else []))
    {
      ghost var valid := Inv(world);
      if valid {
        PointerStepKeepsInv(world);
        PointerStepKeepsInv(Step(world));
        assert version in world.history;
      }
      hide Inv;
      disk := disk.(currentTemp := Some(version));
      world := Act(world, Go);
      disk := disk.(current := disk.currentTemp, currentTemp := None);
      world := Act(world, Go);
    }

    /** An empty temporary directory, whatever an earlier attempt left there. */
    method PrepareTemp(rows: seq<Row>, version: nat)
      requires Tied() && world.pc.ClearTemp? && world.pc.version == version && world.pc.rows == rows
      modifies this
      ensures Tied() && (old(Inv(world)) ==> Inv(world))
      ensures disk == old(disk).(temps := old(disk).temps[version := Dir(rows, {})])
      ensures world == old(world).(disk := disk, pc := WriteFile(version, rows, old(world).pc.job, MatchSegment))
    {
      if Inv(world) {
        StagingStepKeepsInv(world);
        StagingStepKeepsInv(Step(world));
      }
      hide Inv;
      ghost var before := disk;
      disk := disk.(temps := disk.temps - {version});
      world := Act(world, Go);
      disk := disk.(temps := disk.temps[version := Dir(rows, {})]);
      world := Act(world, Go);
      assert disk.temps == before.temps[version := Dir(rows, {})];
    }

    method WriteStaged(rows: seq<Row>, version: nat, file: File)
      requires Tied() && world.pc.WriteFile? && world.pc.version == version
      requires world.pc.rows == rows && world.pc.file == file && version in disk.temps
      modifies this
      ensures Tied() && (old(Inv(world)) ==> Inv(world))
      ensures disk == old(disk).(
                        temps := old(disk).temps[version := Dir(rows, old(disk).temps[version].files + {file})])
      ensures world == old(world).(disk := disk, pc := NextFile(file, version, rows, old(world).pc.job))
    {
      if Inv(world) {
        StepKeepsInv(world);
      }
      hide Inv;
      disk := disk.(temps := disk.temps[version := Dir(rows, disk.temps[version].files + {file})]);
      world := Act(world, Go);
    }

    /** The whole directory appears at once. */
    method RenameTemp(rows: seq<Row>, version: nat)
      requires Tied() && world.pc.RenameDir? && world.pc.version == version && world.pc.rows == rows
      requires version in disk.temps && Intended(world, world.pc.job, rows) == rows
      modifies this
      ensures Tied() && (old(Inv(world)) ==> Inv(world))
      ensures disk == old(disk).(dirs := old(disk).dirs[version := old(disk).temps[version]],
                                 temps := old(disk).temps - {version})
      ensures world == old(world).(disk := disk, pc := WritePointer(version, old(world).pc.job),
                                   history := old(world).history[version := rows])
    {
      if Inv(world) {
        RenameDirKeepsInv(world);
      }
      hide Inv;
      disk := disk.(dirs := disk.dirs[version := disk.temps[version]], temps := disk.temps - {version});
      world := Act(world, Go);
    }

    /** Builds the temporary directory and renames it into place. */
    method BuildEpoch(rows: seq<Row>, version: nat)
      requires Tied() && world.pc.ClearTemp? && world.pc.version == version && world.pc.rows == rows
      requires Intended(world, world.pc.job, rows) == rows
      modifies this
      ensures Tied() && (old(Inv(world)) ==> Inv(world))
      ensures disk == old(disk).(dirs := old(disk).dirs[version := Dir(rows, ALL_FILES)],
                                 temps := old(disk).temps - {version})
      ensures world == old(world).(disk := disk, pc := WritePointer(version, old(world).pc.job),
                                   history := old(world).history[version := rows])
    {
      hide Inv, Act;
      ghost var before := disk;
      PrepareTemp(rows, version);
      WriteStaged(rows, version, MatchSegment);
      WriteStaged(rows, version, PayloadSegment);
      WriteStaged(rows, version, Manifest);
      assert disk.temps[version].files == ALL_FILES;
      RenameTemp(rows, version);
      assert disk.temps == before.temps - {version};
    }

    method Publish(rows: seq<Row>, version: nat, ghost job: Job) returns (r: Result<()>)
      requires Tied() && world.pc == Idle && !job.Back? && Intended(world, job, rows) == rows
      requires job.Insert? ==> world.table.Some?
      modifies this
      ensures Tied() && (old(Inv(world)) && version == NextVersion(old(disk)) ==> Inv(world))
      ensures version in old(disk).dirs ==> r == Err(AlreadyExists) && disk == old(disk) && world == old(world)
      ensures version !in old(disk).dirs ==>
                && r == Ok(()) && Seen(disk) == Some(rows) && disk.current == Some(version)
                && disk.dirs == old(disk).dirs[version := Dir(rows, ALL_FILES)]
                && disk.temps == old(disk).temps - {version} && disk.currentTemp == None
                && world.pc == (if job.Insert? then ListEpochs(RETENTION, job.row) else Idle)
                && world.acked == old(world).acked && world.table == Some(rows)
      ensures old(Inv(world)) && version == NextVersion(old(disk)) && r.Ok? ==> Highest(disk.dirs, version)
    {
      if version in disk.dirs {
        return Err(AlreadyExists);
      }
      ghost var next := Inv(world) && version == NextVersion(disk);
      world := world.(pc := ClearTemp(version, rows, job));
      if next {
        NextIsAbove(world, version);
        assert Inv(world);
      }
      hide Inv, Intended;
      BuildEpoch(rows, version);
      SetCurrent(version);
      r := Ok(());
    }

    method Rollback(version: nat) returns (r: Result<()>)
      requires Valid() && world.pc == Idle
      modifies this
      ensures Valid() && world.pc == Idle && disk.dirs == old(disk).dirs
      ensures r == if version in disk.dirs && disk.dirs[version].Complete() then Ok(()) else Err(NotFound)
      ensures r.Err? ==> disk == old(disk)
      ensures r.Ok? ==> disk.current == Some(version) && Seen(disk) == Some(old(world).history[version])
    {
      if version !in disk.dirs || disk.dirs[version].files != ALL_FILES {
        return Err(NotFound);
      }
      hide Contiguous, MostlyComplete, Lowest, Before, Staging;
      world := Act(world, StartRollback(version));
      SetCurrent(version);
      SeenIsTable(world);
      r := Ok(());
    }

    /** Unlinks one file of the first victim. */
    method UnlinkOne(version: nat, file: File)
      requires Valid() && world.pc.Remove? && world.pc.victims != [] && world.pc.victims[0] == version
      requires version in disk.dirs && file in disk.dirs[version].files
      modifies this
      ensures Valid() && world == old(world).(disk := disk) && disk == old(disk).(dirs := disk.dirs)
      ensures version in disk.dirs && disk.dirs == old(disk).dirs[version := disk.dirs[version]]
      ensures disk.dirs[version].files == old(disk).dirs[version].files - {file}
    {
      UnlinkKeepsInv(world, file);
      hide Inv;
      disk := disk.(dirs := disk.dirs[version := disk.dirs[version].(files := disk.dirs[version].files - {file})]);
      world := Act(world, Unlink(file));
    }

    /** Unlinks the files of the first victim in any order. */
    method UnlinkAll(version: nat)
      requires Valid() && world.pc.Remove? && world.pc.victims != [] && world.pc.victims[0] == version
      requires version in disk.dirs
      modifies this
      ensures Valid() && world == old(world).(disk := disk) && disk == old(disk).(dirs := disk.dirs)
      ensures version in disk.dirs && disk.dirs[version].files == {}
      ensures disk.dirs - {version} == old(disk).dirs - {version}
    {
      hide Inv;
      while disk.dirs[version].files != {}
        invariant Valid() && version in disk.dirs && world == old(world).(disk := disk)
        invariant disk.dirs - {version} == old(disk).dirs - {version} && disk == old(disk).(dirs := disk.dirs)
        decreases |disk.dirs[version].files|
      {
        var file :| file in disk.dirs[version].files;
        ghost var was := disk.dirs[version].files;
        UnlinkOne(version, file);
        assert disk.dirs[version].files < was;
      }
    }

    /** Removes the first victim: its files, then the directory. */
    method RemoveAll(version: nat)
      requires Valid() && world.pc.Remove? && world.pc.victims != [] && world.pc.victims[0] == version
      modifies this
      ensures Valid() && disk == old(disk).(dirs := old(disk).dirs - {version})
      ensures world == old(world).(disk := disk, pc := Remove(old(world).pc.victims[1..], old(world).pc.row))
    {
      FirstVictimIsLowest(disk, world.pc.victims);
      hide Inv;
      UnlinkAll(version);
      StepKeepsInv(world);
      disk := disk.(dirs := disk.dirs - {version});
      world := Act(world, Go);
    }

    /** Keeps the highest versions; keeping none of them means keeping all. */
    method Prune(keep: nat)
      requires Valid() && world.pc.ListEpochs? && world.pc.keep == keep
      modifies this
      ensures Valid() && world.pc == Idle && world.acked == old(world).acked + [old(world).pc.row]
      ensures disk == old(disk).(dirs := disk.dirs) && Seen(disk) == Seen(old(disk))
      ensures forall v :: v in disk.dirs <==> v in old(disk).dirs && v !in Victims(old(disk).dirs.Keys, keep)
    {
      hide Contiguous, MostlyComplete, Readable, Immutable, Highest, Lowest, Pointing, Staging, Victims, Inv, Seen;
      ghost var row := world.pc.row;
      var victims := Victims(disk.dirs.Keys, keep);
      StepKeepsInv(world);
      world := Act(world, Go);
      var i := 0;
      while i < |victims|
        invariant 0 <= i <= |victims| && Valid() && world.pc == Remove(victims[i..], row)
        invariant disk == old(disk).(dirs := disk.dirs) && world == old(world).(disk := disk, pc := world.pc)
        invariant forall v :: v in disk.dirs <==> v in old(disk).dirs && v !in victims[..i]
      {
        assert victims[i..][1..] == victims[i + 1..];
        assert victims[..i + 1] == victims[..i] + [victims[i]];
        RemoveAll(victims[i]);
        i := i + 1;
      }
      StepKeepsInv(world);
      world := Act(world, Go);
      SeenIsTable(world);
      SeenIsTable(old(world));
    }

    /** The cells may fail to parse or to encode; the row is what they encode to. */
    method InsertRowAndPublish(encoded: Result<Row>) returns (r: Result<(nat, nat)>)
      requires Valid() && world.pc == Idle
      modifies this
      ensures Valid() && world.pc == Idle
      ensures r.Err? ==> disk == old(disk) && world == old(world)
      ensures Seen(old(disk)).None? ==> r == Err(NotFound)
      ensures Seen(old(disk)).Some? && encoded.Err? ==> r == Err(encoded.error)
      ensures Seen(old(disk)).Some? && encoded.Ok? ==> (r == Err(AlreadyExists) <==> !old(AtNewest(disk)))
      ensures r.Err? <==> Seen(old(disk)).None? || encoded.Err? || !old(AtNewest(disk))
      ensures r.Ok? ==>
                && Seen(disk) == Some(Seen(old(disk)).value + [encoded.value])
                && r.value == (old(disk).current.value + 1, |Seen(disk).value|) && disk.current == Some(r.value.0)
                && world.acked == old(world).acked + [encoded.value]
    {
      if disk.current.None? || disk.current.value !in disk.dirs || disk.dirs[disk.current.value].files != ALL_FILES {
        return Err(NotFound);
      }
      SeenIsTable(world);
      if encoded.Err? {
        return Err(encoded.error);
      }
      var rows := disk.dirs[disk.current.value].rows;
      var next := disk.current.value + 1;
      PublishIffNewest(world, rows, encoded.value);
      hide Inv, AtNewest;
      var published := Publish(rows + [encoded.value], next, Insert(encoded.value));
      if published.Err? {
        return Err(AlreadyExists);
      }
      Prune(RETENTION);
      r := Ok((next, |rows| + 1));
    }
  }
}
