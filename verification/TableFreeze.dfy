/**
 * The optimistic concurrency protocol around FREEZE (table.py): change times of metadata files are collected first,
 * tables are then listed, read and frozen while other clients alter, exchange, drop and create tables, and a table
 * is backed up only if its file still has the collected change time.
 */
module TableFreeze {
  import opened Bytes

  type Path = string

  type Name = string

  /** A metadata file: the table it defines, the table's UUID (its data directory), the statement, the change time. */
  datatype File = File(name: Name, uuid: string, statement: string, stamp: nat)

  type Catalog = map<Path, File>

  /** A row of system.tables. */
  datatype Row = Row(uuid: string, path: Path)

  datatype ChangeTime = ChangeTime(path: Path, stamp: nat)

  /** How far the backup of one table has come; `hits` are the UUIDs its FREEZE queries found under the name. */
  datatype Job =
    | Listed(row: Row)
    | Freezing(row: Row, statement: string, hits: set<string>)
    | Included(row: Row, statement: string, hits: set<string>)
    | Skipped

  datatype Phase = Collecting | Running(snapshot: Catalog, since: nat) | Aborted

  datatype State = State(catalog: Catalog, clock: nat, phase: Phase, expected: map<Name, ChangeTime>, jobs: map<Name,
                         Job>)

  datatype Step =
    | Environment(catalog: Catalog, clock: nat)
    | Stat(name: Name, path: Path)
    | EndCollect
    | ListAgain(name: Name, path: Path)
    | ReadStatement(name: Name)
    | FreezePiece(name: Name, path: Path)
    | FreezeFails(name: Name)
    | Check(name: Name)

  // ---------- the steps

  /** Names and UUIDs identify tables, and no file is younger than the clock. */
  ghost predicate WellFormed(c: Catalog, clock: nat) {
    && (forall p <- c :: c[p].stamp <= clock)
    && (forall p, q | p in c && q in c && p != q :: c[p].name != c[q].name && c[p].uuid != c[q].uuid)
  }

  /** Other clients: every file they touch gets a change time that was never seen before. */
  ghost predicate Interferes(s: State, c: Catalog, clock: nat) {
    && clock >= s.clock && WellFormed(c, clock)
    && forall p <- c :: (p in s.catalog && c[p] == s.catalog[p]) || c[p].stamp > s.clock
  }

  /** _check_metadata_change_time without the existence check. */
  predicate Unchanged(s: State, name: Name, row: Row)
    requires name in s.expected
  {
    row.path in s.catalog && ChangeTime(row.path, s.catalog[row.path].stamp) == s.expected[name]
  }

  predicate TableExists(s: State, name: Name) {
    exists p <- s.catalog :: s.catalog[p].name == name
  }

  ghost predicate Enabled(s: State, step: Step) {
    match step
    case Environment(c, clock) => Interferes(s, c, clock)
    case Stat(_, _) => s.phase.Collecting?
    case EndCollect => s.phase.Collecting?
    case ListAgain(name, path) =>
      s.phase.Running? && name in s.expected && name !in s.jobs && path in s.catalog && s.catalog[path].name == name
    case ReadStatement(name) => s.phase.Running? && name in s.jobs && s.jobs[name].Listed?
    case FreezePiece(name, path) =>
      s.phase.Running? && name in s.jobs && s.jobs[name].Freezing? && path in s.catalog && s.catalog[path].name == name
    case FreezeFails(name) => s.phase.Running? && name in s.jobs && s.jobs[name].Freezing? && name in s.expected
    case Check(name) => s.phase.Running? && name in s.jobs && s.jobs[name].Freezing? && name in s.expected
  }

  ghost function Apply(s: State, step: Step): State
    requires Enabled(s, step)
  {
    match step
    case Environment(c, clock) => s.(catalog := c, clock := clock)
    case Stat(name, path) =>
      if path in s.catalog then s.(expected := s.expected[name := ChangeTime(path, s.catalog[path].stamp)]) else s
    case EndCollect => s.(phase := Running(s.catalog, s.clock))
    case ListAgain(name, path) => s.(jobs := s.jobs[name := Listed(Row(s.catalog[path].uuid, path))])
    case ReadStatement(name) =>
      var row := s.jobs[name].row;
      s.(jobs := s.jobs[name := if row.path in s.catalog && s.catalog[row.path].statement != ""
                                then Freezing(row, s.catalog[row.path].statement, {}) else Skipped])
    case FreezePiece(name, path) =>
      var Freezing(row, statement, hits) := s.jobs[name];
      s.(jobs := s.jobs[name := Freezing(row, statement, hits + {s.catalog[path].uuid})])
    case FreezeFails(name) =>
      if Unchanged(s, name, s.jobs[name].row) && TableExists(s, name) then s.(phase := Aborted)
      else s.(jobs := s.jobs[name := Skipped])
    case Check(name) =>
      var job := s.jobs[name];
      s.(jobs := s.jobs[name := if Unchanged(s, name, job.row) then Included(job.row, job.statement, job.hits)
          else Skipped])
  }

  ghost predicate IsRun(s: State, steps: seq<Step>)
    decreases |steps|
  {
    steps == [] || (Enabled(s, steps[0]) && IsRun(Apply(s, steps[0]), steps[1..]))
  }

  ghost function RunTo(s: State, steps: seq<Step>): State
    requires IsRun(s, steps)
    decreases |steps|
  {
    if steps == [] then s else RunTo(Apply(s, steps[0]), steps[1..])
  }

  ghost predicate Initial(s: State) {
    WellFormed(s.catalog, s.clock) && s.phase.Collecting? && s.expected == map[] && s.jobs == map[]
  }

  // ---------- what every step keeps

  /** The file has not been touched since collection ended. */
  predicate Old(s: State, path: Path)
    requires s.phase.Running?
  {
    path in s.catalog && s.catalog[path].stamp <= s.phase.since
  }

  predicate InSnapshot(s: State, name: Name, row: Row)
    requires s.phase.Running?
  {
    && row.path in s.phase.snapshot && s.phase.snapshot[row.path].name == name
    && s.phase.snapshot[row.path].uuid == row.uuid
  }

  /** As long as its file is old, everything known about a table is what the snapshot says. */
  ghost predicate JobInv(s: State, name: Name)
    requires s.phase.Running? && name in s.jobs
  {
    match s.jobs[name]
    case Listed(row) => Old(s, row.path) ==> InSnapshot(s, name, row)
    case Freezing(row, statement, hits) =>
      Old(s, row.path) ==>
        InSnapshot(s, name, row) && s.phase.snapshot[row.path].statement == statement && hits <= {row.uuid}
    case Included(row, statement, hits) =>
      InSnapshot(s, name, row) && s.phase.snapshot[row.path].statement == statement && hits <= {row.uuid}
    case Skipped => true
  }

  ghost predicate Inv(s: State) {
    && WellFormed(s.catalog, s.clock)
    && (s.phase.Collecting? ==> s.jobs == map[] && forall n <- s.expected :: s.expected[n].stamp <= s.clock)
    && (s.phase.Running? ==>
          && s.phase.since <= s.clock && WellFormed(s.phase.snapshot, s.phase.since)
          && (forall n <- s.expected :: s.expected[n].stamp <= s.phase.since)
          && (forall p | Old(s, p) :: p in s.phase.snapshot && s.phase.snapshot[p] == s.catalog[p])
          && (forall n <- s.jobs :: JobInv(s, n)))
  }

  lemma EnvironmentKeeps(s: State, c: Catalog, clock: nat)
    requires Inv(s) && Interferes(s, c, clock)
    ensures Inv(s.(catalog := c, clock := clock))
  {
    var t := s.(catalog := c, clock := clock);
    if s.phase.Running? {
      forall p | Old(t, p)
        ensures Old(s, p) && t.catalog[p] == s.catalog[p]
      {
      }
      forall n <- t.jobs
        ensures JobInv(t, n)
      {
        assert JobInv(s, n);
      }
    }
  }

  lemma StepKeeps(s: State, step: Step)
    requires Inv(s) && Enabled(s, step)
    ensures Inv(Apply(s, step))
  {
    match step
    case Environment(c, clock) => EnvironmentKeeps(s, c, clock);
    case Stat(_, _) =>
    case EndCollect =>
    case _ =>
      var t := Apply(s, step);
      if t.phase.Running? {
        forall n <- t.jobs
          ensures JobInv(t, n)
        {
          JobKeeps(s, step, n);
        }
      }
  }

  lemma JobKeeps(s: State, step: Step, n: Name)
    requires Inv(s) && Enabled(s, step) && s.phase.Running? && !step.Environment?
    requires Apply(s, step).phase.Running? && n in Apply(s, step).jobs
    ensures JobInv(Apply(s, step), n)
  {
    if n in s.jobs {
      assert JobInv(s, n);
    }
  }

  lemma {:induction false} RunKeeps(s: State, steps: seq<Step>)
    requires Inv(s) && IsRun(s, steps)
    ensures Inv(RunTo(s, steps))
    decreases |steps|
  {
    if steps != [] {
      StepKeeps(s, steps[0]);
      RunKeeps(Apply(s, steps[0]), steps[1..]);
    }
  }

  // ---------- the results

  /**
   * What is backed up is part of the catalog at one instant, the end of collection: every included table had its
   * name, UUID and statement then, and every FREEZE for it found the data of that UUID.
   */
  lemma IncludedIsSnapshot(init: State, steps: seq<Step>, name: Name)
    requires Initial(init) && IsRun(init, steps)
    requires var s := RunTo(init, steps); s.phase.Running? && name in s.jobs && s.jobs[name].Included?
    ensures var s := RunTo(init, steps);
            var Included(row, statement, hits) := s.jobs[name];
            && row.path in s.phase.snapshot
            && var file := s.phase.snapshot[row.path];
               file.name == name && file.uuid == row.uuid && file.statement == statement && hits <= {file.uuid}
  {
    RunKeeps(init, steps);
    assert JobInv(RunTo(init, steps), name);
  }

  /** No table is backed up under two names, whatever was exchanged or renamed meanwhile. */
  lemma NoTableTwice(init: State, steps: seq<Step>, a: Name, b: Name)
    requires Initial(init) && IsRun(init, steps) && a != b
    requires var s := RunTo(init, steps);
             s.phase.Running? && a in s.jobs && b in s.jobs && s.jobs[a].Included? && s.jobs[b].Included?
    ensures var s := RunTo(init, steps);
            s.jobs[a].row.uuid != s.jobs[b].row.uuid && s.jobs[a].hits !! s.jobs[b].hits
  {
    RunKeeps(init, steps);
    IncludedIsSnapshot(init, steps, a);
    IncludedIsSnapshot(init, steps, b);
  }

  // ---------- which tables are backed up

  /** What the last successful Stat of a name saw along a run. */
  ghost function Seen(s: State, steps: seq<Step>, name: Name, before: Option<ChangeTime>): Option<ChangeTime>
    requires IsRun(s, steps)
    decreases |steps|
  {
    if steps == [] then before
    else
      var now := if steps[0].Stat? && steps[0].name == name && steps[0].path in s.catalog
                 then Some(ChangeTime(steps[0].path, s.catalog[steps[0].path].stamp)) else before;
      Seen(Apply(s, steps[0]), steps[1..], name, now)
  }

  function Looked(m: map<Name, ChangeTime>, name: Name): Option<ChangeTime> {
    if name in m then Some(m[name]) else None
  }

  lemma {:induction false} ExpectedIsSeen(s: State, steps: seq<Step>, name: Name)
    requires IsRun(s, steps)
    ensures Looked(RunTo(s, steps).expected, name) == Seen(s, steps, name, Looked(s.expected, name))
    decreases |steps|
  {
    if steps != [] {
      ExpectedIsSeen(Apply(s, steps[0]), steps[1..], name);
    }
  }

  /**
   * After the check a table is in the backup, as listed, read and frozen, exactly if the file at its path is there with
   * the path and the change time that were seen while change times were collected.
   */
  lemma CheckedIncludedIff(init: State, steps: seq<Step>, name: Name)
    requires Initial(init) && IsRun(init, steps) && Enabled(RunTo(init, steps), Check(name))
    ensures var s := RunTo(init, steps);
            var Freezing(row, statement, hits) := s.jobs[name];
            var after := Apply(s, Check(name)).jobs[name];
            && (after.Included? <==>
                  && row.path in s.catalog
                  && Seen(init, steps, name, None) == Some(ChangeTime(row.path, s.catalog[row.path].stamp)))
            && (after.Included? ==> after.row == row && after.statement == statement && after.hits == hits)
            && (!after.Included? ==> after.Skipped?)
  {
    ExpectedIsSeen(init, steps, name);
  }

  /** A failed FREEZE ends the backup exactly if the table is there, its file as it was seen; else it is skipped. */
  lemma FailedFreezeAbortsIff(init: State, steps: seq<Step>, name: Name)
    requires Initial(init) && IsRun(init, steps) && Enabled(RunTo(init, steps), FreezeFails(name))
    ensures var s := RunTo(init, steps);
            var after := Apply(s, FreezeFails(name));
            && (after.phase.Aborted? <==>
                  && s.jobs[name].row.path in s.catalog && (exists p <- s.catalog :: s.catalog[p].name == name)
                  && Seen(init, steps, name, None)
                     == Some(ChangeTime(s.jobs[name].row.path, s.catalog[s.jobs[name].row.path].stamp)))
            && (!after.phase.Aborted? ==> after.phase == s.phase && after.jobs == s.jobs[name := Skipped])
  {
    ExpectedIsSeen(init, steps, name);
  }

  /**
   * Nobody touches the file at `path`, its name is looked up at no other path, and no FREEZE of the name fails. Other
   * clients may do anything else.
   */
  ghost predicate LeavesAlone(s: State, step: Step, name: Name, path: Path) {
    match step
    case Environment(c, _) => path in s.catalog && path in c && c[path] == s.catalog[path]
    case Stat(n, p) => n == name ==> p == path
    case FreezeFails(n) => n != name
    case _ => true
  }

  ghost predicate Undisturbed(s: State, steps: seq<Step>, name: Name, path: Path)
    requires IsRun(s, steps)
    decreases |steps|
  {
    steps == [] || (LeavesAlone(s, steps[0], name, path) && Undisturbed(Apply(s, steps[0]), steps[1..], name, path))
  }

  /** A job that knows of the table what its file says. */
  predicate TrueTo(job: Job, path: Path, file: File) {
    match job
    case Listed(row) => row == Row(file.uuid, path)
    case Freezing(row, statement, hits) =>
      row == Row(file.uuid, path) && statement == file.statement && hits <= {file.uuid}
    case Included(row, statement, hits) =>
      row == Row(file.uuid, path) && statement == file.statement && hits <= {file.uuid}
    case Skipped => false
  }

  ghost predicate OnTrack(s: State, name: Name, path: Path, file: File) {
    && WellFormed(s.catalog, s.clock) && file.name == name && file.statement != ""
    && path in s.catalog && s.catalog[path] == file
    && name in s.expected && s.expected[name] == ChangeTime(path, file.stamp)
    && (s.phase.Running? ==> path in s.phase.snapshot && s.phase.snapshot[path] == file)
    && (name in s.jobs ==> TrueTo(s.jobs[name], path, file))
  }

  lemma StaysOnTrack(s: State, step: Step, name: Name, path: Path, file: File)
    requires OnTrack(s, name, path, file) && Enabled(s, step) && LeavesAlone(s, step, name, path)
    ensures OnTrack(Apply(s, step), name, path, file)
    ensures name in s.jobs ==> name in Apply(s, step).jobs
  {
  }

  /** The table has been frozen: the one FREEZE found is its data. */
  predicate Frozen(s: State, name: Name, uuid: string) {
    name in s.jobs && (s.jobs[name].Freezing? || s.jobs[name].Included?) && s.jobs[name].hits == {uuid}
  }

  predicate IsIncluded(s: State, name: Name) {
    name in s.jobs && s.jobs[name].Included?
  }

  lemma StepProgress(s: State, step: Step, name: Name, path: Path, file: File)
    requires OnTrack(s, name, path, file) && Enabled(s, step) && LeavesAlone(s, step, name, path)
    ensures Frozen(s, name, file.uuid) || (step.FreezePiece? && step.name == name) ==>
              Frozen(Apply(s, step), name, file.uuid)
    ensures IsIncluded(s, name) || step == Check(name) ==> IsIncluded(Apply(s, step), name)
  {
    StaysOnTrack(s, step, name, path, file);
  }

  predicate Freezes(steps: seq<Step>, name: Name) {
    exists step <- steps :: step.FreezePiece? && step.name == name
  }

  lemma {:induction false} RunOnTrack(s: State, steps: seq<Step>, name: Name, path: Path, file: File)
    requires OnTrack(s, name, path, file) && IsRun(s, steps) && Undisturbed(s, steps, name, path)
    ensures OnTrack(RunTo(s, steps), name, path, file)
    ensures Frozen(s, name, file.uuid) || Freezes(steps, name) ==> Frozen(RunTo(s, steps), name, file.uuid)
    ensures IsIncluded(s, name) || Check(name) in steps ==> IsIncluded(RunTo(s, steps), name)
    decreases |steps|
  {
    if steps != [] {
      assert steps == [steps[0]] + steps[1..];
      StaysOnTrack(s, steps[0], name, path, file);
      StepProgress(s, steps[0], name, path, file);
      RunOnTrack(Apply(s, steps[0]), steps[1..], name, path, file);
    }
  }

  /**
   * A table that is left alone gets backed up. In every run in which nobody touches its file from when its change time
   * was collected, once it has been frozen and checked it is in the backup, under its path and UUID, with the statement
   * of the snapshot, and FREEZE has found exactly its data; whatever else other clients do.
   */
  lemma UndisturbedIsIncluded(init: State, past: seq<Step>, steps: seq<Step>, name: Name, path: Path)
    requires Initial(init) && IsRun(init, past) && RunTo(init, past).phase.Collecting?
    requires var s := RunTo(init, past);
             && path in s.catalog && s.catalog[path].name == name && s.catalog[path].statement != ""
             && IsRun(s, [Stat(name, path)] + steps) && Undisturbed(s, [Stat(name, path)] + steps, name, path)
    requires Freezes(steps, name) && Check(name) in steps
    ensures var file := RunTo(init, past).catalog[path];
            var end := RunTo(RunTo(init, past), [Stat(name, path)] + steps);
            && name in end.jobs && end.jobs[name] == Included(Row(file.uuid, path), file.statement, {file.uuid})
            && (end.phase.Running? ==> path in end.phase.snapshot && end.phase.snapshot[path] == file)
  {
    var s := RunTo(init, past);
    var t := Apply(s, Stat(name, path));
    RunKeeps(init, past);
    assert ([Stat(name, path)] + steps)[1..] == steps;
    RunOnTrack(t, steps, name, path, s.catalog[path]);
  }

  /** Left alone altogether, any table with a statement can be taken through to the end. */
  lemma QuietRunIncludes(init: State, past: seq<Step>, name: Name, path: Path)
    requires Initial(init) && IsRun(init, past) && RunTo(init, past).phase.Collecting?
    requires var s := RunTo(init, past);
             path in s.catalog && s.catalog[path].name == name && s.catalog[path].statement != ""
    ensures var s := RunTo(init, past);
            var steps := [Stat(name, path), EndCollect, ListAgain(name, path), ReadStatement(name),
                          FreezePiece(name, path), Check(name)];
            && IsRun(s, steps) && RunTo(s, steps).phase == Running(s.catalog, s.clock)
            && var file := s.catalog[path];
               RunTo(s, steps).jobs == map[name := Included(Row(file.uuid, path), file.statement, {file.uuid})]
  {
    RunKeeps(init, past);
    var s := RunTo(init, past);
    var s1 := Apply(s, Stat(name, path));
    var s2 := Apply(s1, EndCollect);
    QuietFreeze(s2, name, path);
    RunOne(s1, EndCollect, [ListAgain(name, path), ReadStatement(name), FreezePiece(name, path), Check(name)]);
    RunOne(s, Stat(name, path),
           [EndCollect, ListAgain(name, path), ReadStatement(name), FreezePiece(name, path), Check(name)]);
  }

  lemma QuietFreeze(s: State, name: Name, path: Path)
    requires s.phase.Running? && s.jobs == map[] && name in s.expected && path in s.catalog
    requires s.catalog[path].name == name && s.catalog[path].statement != ""
    requires s.expected[name] == ChangeTime(path, s.catalog[path].stamp)
    ensures var steps := [ListAgain(name, path), ReadStatement(name), FreezePiece(name, path), Check(name)];
            var file := s.catalog[path];
            && IsRun(s, steps) && RunTo(s, steps).phase == s.phase
            && RunTo(s, steps).jobs == map[name := Included(Row(file.uuid, path), file.statement, {file.uuid})]
  {
    var file := s.catalog[path];
    var s3 := Apply(s, ListAgain(name, path));
    var s4 := Apply(s3, ReadStatement(name));
    var s5 := Apply(s4, FreezePiece(name, path));
    assert {} + {file.uuid} == {file.uuid};
    assert s5.jobs == map[name := Freezing(Row(file.uuid, path), file.statement, {file.uuid})];
    RunOne(s5, Check(name), []);
    RunOne(s4, FreezePiece(name, path), [Check(name)]);
    RunOne(s3, ReadStatement(name), [FreezePiece(name, path), Check(name)]);
    RunOne(s, ListAgain(name, path), [ReadStatement(name), FreezePiece(name, path), Check(name)]);
  }

  lemma RunOne(s: State, step: Step, rest: seq<Step>)
    requires Enabled(s, step) && IsRun(Apply(s, step), rest)
    ensures IsRun(s, [step] + rest) && RunTo(s, [step] + rest) == RunTo(Apply(s, step), rest)
  {
    assert ([step] + rest)[1..] == rest;
  }
}
