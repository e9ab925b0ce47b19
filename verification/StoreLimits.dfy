/**
 * Where the guarantees of StoreSafety end: a full metadata file whose light one is gone is not listed by any command,
 * and its links are protected by none; a light file whose full one is gone stops every deletion, and comes about only
 * if a bulk deletion takes the keys of a backup out of their order.
 */
module StoreLimits {
  import opened Bytes
  import opened BackupStore
  import opened StoreMachine
  import opened StoreSafety
  import opened Commands

  const KEY := PartKey("db", "table", "all_1_1_0")
  const OWN := PartMeta("sum", 1, None, None)
  const LINKED := PartMeta("sum", 1, Some("old"), None)
  const OLD := BackupMeta(Created, 1, "host", false, {}, map[], map[KEY := OWN])
  const NEW := BackupMeta(Created, 2, "host", false, {}, map[], map[KEY := LINKED])
  const DATA := ObjectKey("old", KEY)

  const ONE := Store(map["old" := LightOf(OLD)], map["old" := OLD], map[DATA := Blob("sum", 1)])
  const BOTH := ONE.(light := ONE.light["new" := LightOf(NEW)], full := ONE.full["new" := NEW])
  const MARKED_LIGHT := BOTH.light["new" := LightOf(NEW.(state := Deleting))]
  const ORPHANED := BOTH.(light := ONE.light, full := ONE.full["new" := NEW.(state := Deleting)])

  // ---------- the order of deletion

  /**
   * The files under the prefix of a backup are listed by key and deleted in that order: backup_light_struct.json,
   * backup_struct.json, then the data.
   */
  predicate ItemInOrder(s: Store, b: string, item: Item) {
    match item
    case LightFile => true
    case FullFile => b !in s.light
    case DataObject(_) => b !in s.light && b !in s.full
  }

  /** Where a whole backup is deleted, the step takes the next file of the listing. */
  predicate InListingOrder(st: State, step: Step) {
    match step
    case Drop(item) =>
      InHand(st.control) && Kept(st.control, Head(st.control)) == {} ==>
        ItemInOrder(st.store, Head(st.control), item)
    case DropStray(name, item) => ItemInOrder(st.store, name, item)
    case _ => true
  }

  predicate Orderly(st: State, steps: seq<Step>)
    requires IsRun(st, steps)
    decreases |steps|
  {
    steps == [] || (InListingOrder(st, steps[0]) && Orderly(Apply(st, steps[0]), steps[1..]))
  }

  /** The step takes the full metadata of a backup that is listed. */
  predicate Loses(st: State, step: Step) {
    match step
    case Drop(item) => item == FullFile && InHand(st.control) && Head(st.control) in st.store.light
    case DropStray(name, item) => item == FullFile && name in st.store.light
    case _ => false
  }

  predicate NoneLoses(st: State, steps: seq<Step>)
    requires IsRun(st, steps)
    decreases |steps|
  {
    steps == [] || (!Loses(st, steps[0]) && NoneLoses(Apply(st, steps[0]), steps[1..]))
  }

  /** At every moment of the run every listed backup has its full metadata. */
  predicate ReadableThroughout(st: State, steps: seq<Step>)
    requires IsRun(st, steps)
    decreases |steps|
  {
    && st.store.light.Keys <= st.store.full.Keys
    && (steps == [] || ReadableThroughout(Apply(st, steps[0]), steps[1..]))
  }

  /** Every listed backup has its full metadata, and so will those that a command is about to list. */
  ghost predicate Readable(st: State) {
    && st.store.light.Keys <= st.store.full.Keys
    && (st.control.Backup? && st.control.published ==> st.control.name in st.store.full)
    && (InHand(st.control) && (st.control.stage.Marking? || st.control.stage.Trimmed?) ==>
          Head(st.control) in st.store.full)
  }

  lemma ReadableStep(st: State, step: Step)
    requires Readable(st) && Enabled(st, step)
    ensures if Loses(st, step) then !(Apply(st, step).store.light.Keys <= Apply(st, step).store.full.Keys)
            else Readable(Apply(st, step))
  {
  }

  /**
   * Every listed backup has its full metadata, which is all that `delete` and `purge` need to complete, at every moment
   * of a run with stops and kills anywhere, exactly if no step takes the full file of a backup before its light one.
   */
  lemma {:induction false} ReadableThroughoutIff(st: State, steps: seq<Step>)
    requires Readable(st) && IsRun(st, steps)
    ensures ReadableThroughout(st, steps) <==> NoneLoses(st, steps)
    decreases |steps|
  {
    if steps != [] {
      ReadableStep(st, steps[0]);
      if !Loses(st, steps[0]) {
        ReadableThroughoutIff(Apply(st, steps[0]), steps[1..]);
      }
    }
  }

  /** Deletion in the order of the listing is one way to see to that. */
  lemma {:induction false} OrderlyLosesNone(st: State, steps: seq<Step>)
    requires IsRun(st, steps) && Orderly(st, steps)
    ensures NoneLoses(st, steps)
    decreases |steps|
  {
    if steps != [] {
      OrderlyLosesNone(Apply(st, steps[0]), steps[1..]);
    }
  }

  lemma {:induction false} ReadableAtEnd(st: State, steps: seq<Step>)
    requires IsRun(st, steps) && ReadableThroughout(st, steps)
    ensures RunTo(st, steps).store.light.Keys <= RunTo(st, steps).store.full.Keys
    decreases |steps|
  {
    if steps != [] {
      ReadableAtEnd(Apply(st, steps[0]), steps[1..]);
    }
  }

  // ---------- two runs

  lemma {:induction false} OrderlySnoc(st: State, steps: seq<Step>, step: Step)
    requires IsRun(st, steps) && Orderly(st, steps)
    requires Enabled(RunTo(st, steps), step) && InListingOrder(RunTo(st, steps), step)
    ensures IsRun(st, steps + [step]) && Orderly(st, steps + [step])
    decreases |steps|
  {
    RunSnoc(st, steps, step);
    if steps == [] {
      assert [step][1..] == [];
    } else {
      assert (steps + [step])[1..] == steps[1..] + [step];
      OrderlySnoc(Apply(st, steps[0]), steps[1..], step);
    }
  }

  lemma Extend(steps: seq<Step>, step: Step) returns (more: seq<Step>)
    requires IsRun(EMPTY, steps) && Enabled(RunTo(EMPTY, steps), step)
    ensures IsRun(EMPTY, more) && RunTo(EMPTY, more) == Apply(RunTo(EMPTY, steps), step)
    ensures Orderly(EMPTY, steps) && InListingOrder(RunTo(EMPTY, steps), step) ==> Orderly(EMPTY, more)
  {
    RunSnoc(EMPTY, steps, step);
    more := steps + [step];
    if Orderly(EMPTY, steps) && InListingOrder(RunTo(EMPTY, steps), step) {
      OrderlySnoc(EMPTY, steps, step);
    }
  }

  /** An orderly run to the given state. */
  ghost predicate Reaches(steps: seq<Step>, st: State) {
    IsRun(EMPTY, steps) && Orderly(EMPTY, steps) && RunTo(EMPTY, steps) == st
  }

  const OLD_MADE := Control.Backup("old", OLD, {}, map[KEY := Blob("sum", 1)], false)
  const NEW_MADE := Control.Backup("new", NEW, {"old"}, map[], false)

  lemma FirstBackupMade() returns (steps: seq<Step>)
    ensures Reaches(steps, State(Store(map[], map[], ONE.objects), OLD_MADE))
  {
    steps := [];
    steps := Extend(steps, BeginBackup("old", "host", 1, false, {}));
    steps := Extend(steps, UploadPart(KEY, Blob("sum", 1)));
    steps := Extend(steps, AddOwn(KEY, OWN));
    steps := Extend(steps, SetState(Created));
  }

  lemma FirstBackup() returns (steps: seq<Step>)
    ensures Reaches(steps, State(ONE, Idle))
  {
    steps := FirstBackupMade();
    steps := Extend(steps, SaveFull);
    steps := Extend(steps, SaveLight);
    steps := Extend(steps, Stop);
    assert RunTo(EMPTY, steps).store.full == ONE.full;
  }

  lemma SecondBackupMade() returns (steps: seq<Step>)
    ensures Reaches(steps, State(ONE, NEW_MADE))
  {
    steps := FirstBackup();
    steps := Extend(steps, BeginBackup("new", "host", 2, false, {"old"}));
    steps := Extend(steps, AddLink(KEY, "old", KEY));
    steps := Extend(steps, SetState(Created));
  }

  lemma SecondBackupSaved() returns (steps: seq<Step>)
    ensures Reaches(steps, State(ONE.(full := BOTH.full), NEW_MADE.(published := true)))
  {
    steps := SecondBackupMade();
    steps := Extend(steps, SaveFull);
    assert RunTo(EMPTY, steps).store.full == BOTH.full;
  }

  lemma SecondBackup() returns (steps: seq<Step>)
    ensures Reaches(steps, State(BOTH, Idle))
  {
    steps := SecondBackupSaved();
    steps := Extend(steps, SaveLight);
    steps := Extend(steps, Stop);
  }

  lemma NobodyLinks()
    ensures References(BOTH, set x <- ["new"] :: x, "new") == {}
    ensures References(ORPHANED, set x <- ["old"] :: x, "old") == {}
  {
    assert "old" in ["old"];
    assert "new" in ["new"];
    forall b | b in ORPHANED.light
      ensures b == "old"
    {
    }
  }

  const DELETING_NEW := Control.Delete(BOTH, ["new"], CollectReferences(BOTH, ["new"]), 0, Waiting)
  const DELETING_OLD := Control.Delete(ORPHANED, ["old"], CollectReferences(ORPHANED, ["old"]), 0, Waiting)

  lemma NewBegun() returns (steps: seq<Step>)
    ensures Reaches(steps, State(BOTH, DELETING_NEW))
  {
    steps := SecondBackup();
    steps := Extend(steps, BeginDelete(["new"]));
  }

  lemma NewMarkedFull() returns (steps: seq<Step>)
    ensures Reaches(steps, State(BOTH.(full := ORPHANED.full),
                                 DELETING_NEW.(stage := Marking(NEW.(state := Deleting)))))
  {
    steps := NewBegun();
    steps := Extend(steps, MarkFull);
    assert RunTo(EMPTY, steps).store.full == ORPHANED.full;
  }

  lemma NewMarked() returns (steps: seq<Step>)
    ensures Reaches(steps, State(BOTH.(light := MARKED_LIGHT, full := ORPHANED.full),
                                 DELETING_NEW.(stage := Dropping(NEW.(state := Deleting)))))
  {
    steps := NewMarkedFull();
    steps := Extend(steps, MarkLight);
    assert RunTo(EMPTY, steps).store.light == MARKED_LIGHT;
  }

  lemma NewLightGone() returns (steps: seq<Step>)
    ensures Reaches(steps, State(ORPHANED, DELETING_NEW.(stage := Dropping(NEW.(state := Deleting)))))
  {
    NobodyLinks();
    steps := NewMarked();
    steps := Extend(steps, Drop(LightFile));
    assert RunTo(EMPTY, steps).store.light == ORPHANED.light;
  }

  /** The deletion of the newer backup is killed when its light metadata has just gone. */
  lemma KilledDeletion() returns (steps: seq<Step>)
    ensures Reaches(steps, State(ORPHANED, Idle))
  {
    steps := NewLightGone();
    steps := Extend(steps, Stop);
  }

  lemma OldBegun() returns (steps: seq<Step>)
    ensures Reaches(steps, State(ORPHANED, DELETING_OLD))
  {
    steps := KilledDeletion();
    steps := Extend(steps, BeginDelete(["old"]));
  }

  const OLD_MARKED := ORPHANED.(light := map["old" := LightOf(OLD.(state := Deleting))],
                                full := ORPHANED.full["old" := OLD.(state := Deleting)])

  lemma OldMarkedFull() returns (steps: seq<Step>)
    ensures Reaches(steps, State(ORPHANED.(full := OLD_MARKED.full),
                                 DELETING_OLD.(stage := Marking(OLD.(state := Deleting)))))
  {
    steps := OldBegun();
    steps := Extend(steps, MarkFull);
  }

  lemma OldMarked() returns (steps: seq<Step>)
    ensures Reaches(steps, State(OLD_MARKED, DELETING_OLD.(stage := Dropping(OLD.(state := Deleting)))))
  {
    steps := OldMarkedFull();
    steps := Extend(steps, MarkLight);
    assert RunTo(EMPTY, steps).store.light == OLD_MARKED.light;
  }

  lemma LightAloneLoses(steps: seq<Step>)
    requires IsRun(EMPTY, steps) && !(RunTo(EMPTY, steps).store.light.Keys <= RunTo(EMPTY, steps).store.full.Keys)
    ensures !NoneLoses(EMPTY, steps) && !Orderly(EMPTY, steps)
  {
    ReadableThroughoutIff(EMPTY, steps);
    if NoneLoses(EMPTY, steps) {
      ReadableAtEnd(EMPTY, steps);
    }
    if Orderly(EMPTY, steps) {
      OrderlyLosesNone(EMPTY, steps);
    }
  }

  /**
   * One bulk request may hold both metadata files; S3 takes its keys in no promised order, and an answer with errors
   * for single keys passes for a success. A request broken off half way can thus leave the light file without the full
   * one: from then on every command that gets as far as deleting fails, for it can neither read that backup's links
   * nor mark the backup. By ReadableThroughoutIff nothing else brings this about.
   */
  lemma LightWithoutFull() returns (steps: seq<Step>)
    ensures IsRun(EMPTY, steps) && RunTo(EMPTY, steps).control == Idle
    ensures "new" in RunTo(EMPTY, steps).store.light && "new" !in RunTo(EMPTY, steps).store.full
    ensures !NoneLoses(EMPTY, steps) && !Orderly(EMPTY, steps)
  {
    NobodyLinks();
    steps := NewMarked();
    steps := Extend(steps, Drop(FullFile));
    steps := Extend(steps, Stop);
    LightAloneLoses(steps);
  }

  /**
   * Links are protected for listed backups only: here is a run, its files deleted in the order of the listing, with
   * one kill, after which stored full metadata links to an object that is gone. LinkedPartsResolve says that this
   * cannot happen to a listed backup.
   */
  lemma OrphanedLinkDangles() returns (steps: seq<Step>)
    ensures IsRun(EMPTY, steps) && Orderly(EMPTY, steps)
    ensures var s := RunTo(EMPTY, steps).store;
            && "new" in s.full && !Listed(s, "new")
            && KEY in s.full["new"].parts && s.full["new"].parts[KEY].link == Some("old")
            && Resolve("new", KEY, s.full["new"].parts[KEY]) !in s.objects
  {
    NobodyLinks();
    steps := OldMarked();
    steps := Extend(steps, Drop(LightFile));
    steps := Extend(steps, Drop(FullFile));
    steps := Extend(steps, Drop(DataObject(KEY)));
  }

  /**
   * A listing made before such a run names both backups. A window taken from it still admits the orphan as a donor, for
   * its full metadata is there and the owner of its part is in the window; and the link made leads nowhere.
   */
  lemma StaleWindowMisleads() returns (steps: seq<Step>)
    ensures IsRun(EMPTY, steps) && Orderly(EMPTY, steps)
    ensures var s := RunTo(EMPTY, steps).store;
            && !NoOrphans(s, BOTH.light.Keys) && Donates(s, BOTH.light.Keys, KEY, "new", KEY)
            && Resolve("", KEY, LinkTo(KEY, "new", KEY, s.full["new"].parts[KEY])) !in s.objects
  {
    steps := OrphanedLinkDangles();
    assert "new" in BOTH.light.Keys && "old" in BOTH.light.Keys;
  }

  /**
   * When an object survives a worked-through deletion, said in terms of the storage before it: exactly if its backup
   * is not deleted, or some retained listed backup links to it.
   */
  lemma ObjectSurvivesIff(start: Store, order: seq<string>, s: Store, target: ObjectKey)
    requires WorkedThrough(start, order, s) && target in start.objects
    requires target.backup in order ==>
               && Listed(start, target.backup) && target.part in start.full[target.backup].parts
               && start.full[target.backup].parts[target.part].link == None
    ensures target in s.objects <==>
            target.backup !in order || target.part in References(start, set x <- order :: x, target.backup)
  {
    var c := Control.Delete(start, order, CollectReferences(start, order), |order|, Waiting);
    assert Begun(c) == order;
    if target.backup in order {
      DeletionExact(s, c, target.backup, target.part);
    }
  }

  /**
   * When the link of an unlisted backup survives a deletion: its target stays exactly if the owner is not deleted, or
   * some retained listed backup links to the same part. The unlisted metadata itself stays as it is.
   */
  lemma UnlistedLinkSurvivesIff(start: Store, order: seq<string>, s: Store, b: string, key: PartKey)
    requires WorkedThrough(start, order, s)
    requires b in start.full && b !in start.light && key in start.full[b].parts
    requires var target := Resolve(b, key, start.full[b].parts[key]);
             && start.full[b].parts[key].link.Some? && target in start.objects
             && (target.backup in order ==>
                   && Listed(start, target.backup) && target.part in start.full[target.backup].parts
                   && start.full[target.backup].parts[target.part].link == None)
    ensures b in s.full && s.full[b] == start.full[b]
    ensures var target := Resolve(b, key, start.full[b].parts[key]);
            target in s.objects <==>
            target.backup !in order || target.part in References(start, set x <- order :: x, target.backup)
  {
    var c := Control.Delete(start, order, CollectReferences(start, order), |order|, Waiting);
    assert Begun(c) == order;
    ObjectSurvivesIff(start, order, s, Resolve(b, key, start.full[b].parts[key]));
  }
}
