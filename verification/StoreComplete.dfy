/**
 * Own parts over whole runs. StoreSafety speaks of linked parts in backups of any state; here it is all parts, own and
 * linked, of the backups that are not being deleted.
 */
module StoreComplete {
  import opened Bytes
  import opened BackupStore
  import opened StoreMachine
  import opened StoreSafety

  /** A backup that no deletion has set to work on, as far as its full metadata tells. */
  predicate Undeleted(s: Store, b: string) {
    Listed(s, b) && s.full[b].state != Deleting && s.full[b].state != PartiallyDeleted
  }

  /** Each own part of such a backup has its object. */
  ghost predicate OwnStored(s: Store) {
    forall b, key | Undeleted(s, b) && key in s.full[b].parts && s.full[b].parts[key].link == None ::
      ObjectKey(b, key) in s.objects
  }

  /** The step takes the data of an own part from a backup that still is listed and not marked: only `purge` can. */
  predicate TakesOwn(st: State, step: Step) {
    match step
    case DropStray(b, DataObject(key)) =>
      && Undeleted(st.store, b) && key in st.store.full[b].parts && st.store.full[b].parts[key].link == None
      && ObjectKey(b, key) in st.store.objects
    case _ => false
  }

  predicate NoneTakesOwn(st: State, steps: seq<Step>)
    requires IsRun(st, steps)
    decreases |steps|
  {
    steps == [] || (!TakesOwn(st, steps[0]) && NoneTakesOwn(Apply(st, steps[0]), steps[1..]))
  }

  ghost predicate OwnStoredThroughout(st: State, steps: seq<Step>)
    requires IsRun(st, steps)
    decreases |steps|
  {
    OwnStored(st.store) && (steps == [] || OwnStoredThroughout(Apply(st, steps[0]), steps[1..]))
  }

  ghost predicate StartOwnStored(c: Control) {
    c.Delete? ==> OwnStored(c.start)
  }

  ghost predicate OwnInv(st: State) {
    Inv(st) && OwnStored(st.store) && StartOwnStored(st.control)
  }

  /** A deletion marks a backup before it takes anything of it. */
  lemma DeletionKeepsOwn(s: Store, c: Control)
    requires c.Delete? && DeleteInv(s, c) && OwnStored(c.start)
    ensures OwnStored(s)
  {
    forall b, key | Undeleted(s, b) && key in s.full[b].parts && s.full[b].parts[key].link == None
      ensures ObjectKey(b, key) in s.objects
    {
      if Touched(c, b) {
        BegunIsMarked(s, c, b);
      } else {
        assert Undeleted(c.start, b);
      }
    }
  }

  lemma BegunIsMarked(s: Store, c: Control, b: string)
    requires c.Delete? && DeleteInv(s, c) && Touched(c, b)
    ensures !Undeleted(s, b)
  {
    var i := BegunIsFinishedOrHead(c, b);
    if i < c.done {
      assert IsDeleted(s, c, c.order[i]);
    } else {
      assert HeadInv(s, c);
    }
  }

  lemma BackupKeepsOwn(s: Store, c: Control, step: Step)
    requires c.Backup? && BackupInv(s, c) && EnabledBackup(s, c, step) && OwnStored(s)
    ensures OwnStored(ApplyBackup(s, c, step).store)
  {
    var t := ApplyBackup(s, c, step).store;
    forall b, key | Undeleted(t, b) && key in t.full[b].parts && t.full[b].parts[key].link == None
      ensures ObjectKey(b, key) in t.objects
    {
      if b == c.name {
        assert key in c.mem.parts && c.mem.parts[key] == t.full[b].parts[key];
      } else {
        assert Undeleted(s, b);
      }
    }
  }

  lemma StrayKeepsOwn(s: Store, b: string, item: Item)
    requires OwnStored(s)
    ensures OwnStored(DropItem(s, b, item)) <==> !TakesOwn(State(s, Idle), DropStray(b, item))
  {
    var t := DropItem(s, b, item);
    if TakesOwn(State(s, Idle), DropStray(b, item)) {
      assert Undeleted(t, b);
    } else {
      forall x, key | Undeleted(t, x) && key in t.full[x].parts && t.full[x].parts[key].link == None
        ensures ObjectKey(x, key) in t.objects
      {
        assert Undeleted(s, x);
      }
    }
  }

  lemma DeleteKeepsOwn(s: Store, c: Control, step: Step)
    requires InHand(c) && DeleteInv(s, c) && RefsCorrect(c) && EnabledDelete(s, c, step) && OwnStored(c.start)
    ensures OwnStored(ApplyDelete(s, c, step).store)
  {
    DeleteStepKeeps(s, c, step);
    var next := ApplyDelete(s, c, step);
    if step == TrimLight {
      SaveHeadLight(s, c);
      DeletionKeepsOwn(next.store, c);
    } else {
      DeletionKeepsOwn(next.store, next.control);
    }
  }

  lemma OwnAfterStep(st: State, step: Step)
    requires OwnInv(st) && Enabled(st, step)
    ensures OwnStored(Apply(st, step).store) <==> !TakesOwn(st, step)
  {
    match step
    case DropStray(b, item) => StrayKeepsOwn(st.store, b, item);
    case BeginBackup(_, _, _, _, _) =>
    case BeginDelete(_) =>
    case Stop =>
    case _ =>
      if st.control.Backup? {
        BackupKeepsOwn(st.store, st.control, step);
      } else {
        DeleteKeepsOwn(st.store, st.control, step);
      }
  }

  lemma StartStays(st: State, step: Step)
    requires Enabled(st, step)
    ensures var c := Apply(st, step).control;
            c.Delete? ==> c.start == st.store || (st.control.Delete? && c.start == st.control.start)
  {
  }

  lemma OwnStep(st: State, step: Step)
    requires OwnInv(st) && Enabled(st, step)
    ensures if TakesOwn(st, step) then !OwnStored(Apply(st, step).store) else OwnInv(Apply(st, step))
  {
    StepKeeps(st, step);
    OwnAfterStep(st, step);
    StartStays(st, step);
  }

  /**
   * At every moment of a run each own part of a listed backup that is not being deleted is stored, exactly if `purge`
   * takes no data of a backup it has found besides the names while that backup is still listed.
   */
  lemma {:induction false} OwnStoredThroughoutIff(st: State, steps: seq<Step>)
    requires OwnInv(st) && IsRun(st, steps)
    ensures OwnStoredThroughout(st, steps) <==> NoneTakesOwn(st, steps)
    ensures NoneTakesOwn(st, steps) ==> OwnInv(RunTo(st, steps))
    decreases |steps|
  {
    if steps != [] {
      OwnStep(st, steps[0]);
      if !TakesOwn(st, steps[0]) {
        OwnStoredThroughoutIff(Apply(st, steps[0]), steps[1..]);
      }
    }
  }

  /**
   * Safety of whole backups. After any run, with stops and kills anywhere, every part of every listed backup that is
   * not being deleted, own or linked, leads to data with its checksum.
   */
  lemma UndeletedPartsResolve(steps: seq<Step>, b: string, key: PartKey)
    requires IsRun(EMPTY, steps) && NoneTakesOwn(EMPTY, steps)
    requires Undeleted(RunTo(EMPTY, steps).store, b) && key in RunTo(EMPTY, steps).store.full[b].parts
    ensures var s := RunTo(EMPTY, steps).store;
            var target := Resolve(b, key, s.full[b].parts[key]);
            target in s.objects && s.objects[target].checksum == s.full[b].parts[key].checksum
  {
    OwnStoredThroughoutIff(EMPTY, steps);
    var s := RunTo(EMPTY, steps).store;
    InvSound(RunTo(EMPTY, steps));
    if s.full[b].parts[key].link.Some? {
      assert LinkSound(s, s.full[b].time, key, s.full[b].parts[key]);
    }
  }
}
