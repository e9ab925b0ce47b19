/**
 * What `purge` does to backups that appear between its reading the names and its taking the lock. It deletes them
 * unseen: their links are counted by nobody, and their files go in the pool beside the deletions it chooses.
 */
module PurgeRace {
  import opened Bytes
  import opened BackupStore
  import opened StoreMachine
  import opened StoreSafety
  import opened Commands
  import opened StoreLimits

  // ---------- a stray is newer than every backup known early

  /** A backup that was not there when the names were read has started after all that were. */
  predicate StraysNewer(s: Store, early: set<string>) {
    forall b, c | b in s.light && c in s.light && b !in early && c in early :: s.light[c].time < s.light[b].time
  }

  /** No backup is begun under a name that was there early. */
  predicate NoneReborn(steps: seq<Step>, early: set<string>) {
    forall step <- steps | step.BeginBackup? :: step.name !in early
  }

  ghost predicate NewerSoFar(st: State, early: set<string>) {
    && StraysNewer(st.store, early)
    && (st.control.Backup? && st.control.name in early ==> st.store.light.Keys <= early)
  }

  /** A deletion lists no backup anew and changes no start time. */
  lemma DeletionStaysNewer(s: Store, c: Control, t: Store, d: Control, early: set<string>)
    requires c.Delete? && DeleteInv(s, c) && d.Delete? && DeleteInv(t, d) && d.start == c.start
    requires t.light.Keys <= s.light.Keys && StraysNewer(s, early)
    ensures StraysNewer(t, early)
  {
    TimesSurvive(s, c);
    TimesSurvive(t, d);
  }

  lemma HeadStillListed(s: Store, c: Control)
    requires InHand(c) && DeleteInv(s, c) && (c.stage.Marking? || c.stage.Trimmed?)
    ensures Head(c) in s.light
  {
    assert HeadInv(s, c);
  }

  lemma LightOnlyShrinks(s: Store, c: Control, step: Step)
    requires InHand(c) && EnabledDelete(s, c, step)
    requires c.stage.Marking? || c.stage.Trimmed? ==> Head(c) in s.light
    ensures ApplyDelete(s, c, step).store.light.Keys <= s.light.Keys
  {
  }

  lemma DeletionListsNone(s: Store, c: Control, step: Step)
    requires InHand(c) && DeleteInv(s, c) && EnabledDelete(s, c, step)
    ensures ApplyDelete(s, c, step).store.light.Keys <= s.light.Keys
  {
    if c.stage.Marking? || c.stage.Trimmed? {
      HeadStillListed(s, c);
    }
    LightOnlyShrinks(s, c, step);
  }

  lemma NewerStep(st: State, step: Step, early: set<string>)
    requires Inv(st) && NewerSoFar(st, early) && Enabled(st, step)
    requires step.BeginBackup? ==> step.name !in early
    ensures NewerSoFar(Apply(st, step), early)
  {
    var next := Apply(st, step);
    StepKeeps(st, step);
    if InHand(st.control) && step != Stop {
      DeletionListsNone(st.store, st.control, step);
      if step == TrimLight {
        SaveHeadLight(st.store, st.control);
        DeletionStaysNewer(st.store, st.control, next.store, st.control, early);
      } else {
        DeletionStaysNewer(st.store, st.control, next.store, next.control, early);
      }
    }
  }

  lemma {:induction false} NewerRun(st: State, steps: seq<Step>, early: set<string>)
    requires Inv(st) && NewerSoFar(st, early) && IsRun(st, steps) && NoneReborn(steps, early)
    ensures NewerSoFar(RunTo(st, steps), early)
    decreases |steps|
  {
    if steps != [] {
      StepKeeps(st, steps[0]);
      NewerStep(st, steps[0], early);
      NewerRun(Apply(st, steps[0]), steps[1..], early);
    }
  }

  /**
   * `purge` reads the names at some moment of a run; other commands go on until it has the lock. If no backup is begun
   * again under one of those names, what it finds listed besides them is newer than all of them.
   */
  lemma StraysAreNewer(past: seq<Step>, meanwhile: seq<Step>, early: set<string>)
    requires IsRun(EMPTY, past) && IsRun(RunTo(EMPTY, past), meanwhile)
    requires RunTo(EMPTY, past).store.light.Keys <= early && NoneReborn(meanwhile, early)
    ensures StraysNewer(RunTo(RunTo(EMPTY, past), meanwhile).store, early)
  {
    RunKeeps(EMPTY, past);
    NewerRun(RunTo(EMPTY, past), meanwhile, early);
  }

  // ---------- which links survive

  /**
   * The strays go unseen; the storage left is sound exactly if no known backup links to one of them. By StraysAreNewer
   * that is so unless a name was used again.
   */
  lemma KnownSoundIff(s: Store, early: set<string>)
    requires Sound(s)
    ensures Sound(Known(s, early)) <==> StraysUnlinked(s, early)
    ensures StraysNewer(s, early) ==> StraysUnlinked(s, early)
  {
    var t := Known(s, early);
    forall b, key | b in s.light && b in s.full && b in early && key in s.full[b].parts
                    && s.full[b].parts[key].link.Some?
      ensures LinkSound(s, s.full[b].time, key, s.full[b].parts[key])
      ensures LinkSound(t, t.full[b].time, key, t.full[b].parts[key])
              <==> s.full[b].parts[key].link.value !in Strays(s, early)
    {
      assert Listed(s, b) && LinkSound(s, s.full[b].time, key, s.full[b].parts[key]);
    }
    forall b, key | b in s.light && b in s.full && b in early && key in s.full[b].parts
                    && s.full[b].parts[key].link.Some? && StraysNewer(s, early)
      ensures s.full[b].parts[key].link.value !in Strays(s, early)
    {
      assert LinkSound(s, s.full[b].time, key, s.full[b].parts[key]);
    }
    if Sound(t) {
      forall b, key | b in s.light && b in s.full && b in early && key in s.full[b].parts
                      && s.full[b].parts[key].link.Some?
        ensures s.full[b].parts[key].link.value !in Strays(s, early)
      {
        assert Listed(t, b) && LinkSound(t, t.full[b].time, key, t.full[b].parts[key]);
      }
    }
  }

  // ---------- strays go beside the chosen deletions

  /** A step of `purge` itself, or the deletion of a stray's file that the pool gets to meanwhile. */
  datatype MixedStep = Chosen(step: Step) | StrayFile(name: string, item: Item)

  /** What the policy looks at, and the command in hand. */
  function View(st: State, strays: set<string>): State {
    State(Without(st.store, strays), st.control)
  }

  predicate MixedEnabled(st: State, strays: set<string>, m: MixedStep) {
    match m
    case Chosen(BeginDelete(order)) => Enabled(View(st, strays), BeginDelete(order))
    case Chosen(Stop) => true
    case Chosen(step) => InHand(st.control) && EnabledDelete(st.store, st.control, step)
    case StrayFile(name, _) => name in strays
  }

  /** The list and the links to respect are made from the known backups; other steps work on all of the storage. */
  function MixedApply(st: State, strays: set<string>, m: MixedStep): State
    requires MixedEnabled(st, strays, m)
  {
    match m
    case Chosen(BeginDelete(order)) => st.(control := Apply(View(st, strays), BeginDelete(order)).control)
    case Chosen(Stop) => st.(control := Idle)
    case Chosen(step) => ApplyDelete(st.store, st.control, step)
    case StrayFile(name, item) => st.(store := DropItem(st.store, name, item))
  }

  predicate IsMixedRun(st: State, strays: set<string>, steps: seq<MixedStep>)
    decreases |steps|
  {
    steps == [] ||
    (MixedEnabled(st, strays, steps[0]) && IsMixedRun(MixedApply(st, strays, steps[0]), strays, steps[1..]))
  }

  function MixedRunTo(st: State, strays: set<string>, steps: seq<MixedStep>): State
    requires IsMixedRun(st, strays, steps)
    decreases |steps|
  {
    if steps == [] then st else MixedRunTo(MixedApply(st, strays, steps[0]), strays, steps[1..])
  }

  ghost predicate MixedInv(st: State, strays: set<string>) {
    && Inv(View(st, strays)) && !st.control.Backup?
    && (st.control.Delete? ==> st.control.start.light.Keys !! strays)
  }

  lemma NothingLeftApart(s: Store, b: string, strays: set<string>)
    requires b !in strays
    ensures NothingLeft(s, b) <==> NothingLeft(Without(s, strays), b)
  {
  }

  lemma DropApart(s: Store, b: string, item: Item, strays: set<string>)
    requires b !in strays
    ensures Without(DropItem(s, b, item), strays) == DropItem(Without(s, strays), b, item)
  {
    assert Without(DropItem(s, b, item), strays).light == DropItem(Without(s, strays), b, item).light;
    assert Without(DropItem(s, b, item), strays).full == DropItem(Without(s, strays), b, item).full;
    assert Without(DropItem(s, b, item), strays).objects == DropItem(Without(s, strays), b, item).objects;
  }

  lemma SaveApart(s: Store, b: string, full: BackupMeta, light: LightMeta, strays: set<string>)
    requires b !in strays
    ensures var t := Without(s, strays);
            && Without(s.(full := s.full[b := full]), strays) == t.(full := t.full[b := full])
            && Without(s.(light := s.light[b := light]), strays) == t.(light := t.light[b := light])
  {
    var t := Without(s, strays);
    assert Without(s.(full := s.full[b := full]), strays).full == t.full[b := full];
    assert Without(s.(light := s.light[b := light]), strays).light == t.light[b := light];
  }

  lemma EnabledApart(s: Store, c: Control, step: Step, strays: set<string>)
    requires InHand(c) && Head(c) !in strays
    ensures EnabledDelete(s, c, step) <==> EnabledDelete(Without(s, strays), c, step)
  {
    NothingLeftApart(s, Head(c), strays);
  }

  /** A step on a backup that is no stray does to the known backups what it would do without the strays. */
  lemma ChosenCommutes(s: Store, c: Control, step: Step, strays: set<string>)
    requires InHand(c) && Head(c) !in strays && EnabledDelete(s, c, step)
    ensures EnabledDelete(Without(s, strays), c, step)
    ensures View(ApplyDelete(s, c, step), strays) == ApplyDelete(Without(s, strays), c, step)
  {
    var b := Head(c);
    EnabledApart(s, c, step, strays);
    match step
    case MarkFull =>
      var mem := s.full[b].(state := Deleting);
      SaveApart(s, b, mem, LightOf(mem), strays);
    case MarkLight => SaveApart(s, b, c.stage.mem, LightOf(c.stage.mem), strays);
    case Drop(item) => DropApart(s, b, item, strays);
    case DroppedAll =>
    case TrimFull(removed) =>
      var mem := c.stage.mem.(state := PartiallyDeleted, parts := c.stage.mem.parts - removed);
      SaveApart(s, b, mem, LightOf(mem), strays);
    case TrimLight => SaveApart(s, b, c.stage.mem, LightOf(c.stage.mem), strays);
  }

  lemma HeadIsKnown(st: State, strays: set<string>)
    requires MixedInv(st, strays) && InHand(st.control)
    ensures Head(st.control) !in strays
  {
    assert Head(st.control) in st.control.order;
  }

  lemma MixedStepKeeps(st: State, strays: set<string>, m: MixedStep)
    requires MixedInv(st, strays) && MixedEnabled(st, strays, m)
    ensures MixedInv(MixedApply(st, strays, m), strays)
  {
    match m
    case Chosen(BeginDelete(order)) => StepKeeps(View(st, strays), BeginDelete(order));
    case Chosen(Stop) => StepKeeps(View(st, strays), Stop);
    case Chosen(step) =>
      HeadIsKnown(st, strays);
      ChosenCommutes(st.store, st.control, step, strays);
      StepKeeps(View(st, strays), step);
    case StrayFile(name, item) => StrayFilesApart(st.store, strays, name, item);
  }

  lemma {:induction false} MixedRunKeeps(st: State, strays: set<string>, steps: seq<MixedStep>)
    requires MixedInv(st, strays) && IsMixedRun(st, strays, steps)
    ensures MixedInv(MixedRunTo(st, strays, steps), strays)
    decreases |steps|
  {
    if steps != [] {
      MixedStepKeeps(st, strays, steps[0]);
      MixedRunKeeps(MixedApply(st, strays, steps[0]), strays, steps[1..]);
    }
  }

  lemma MixedStart(s: Store, early: set<string>)
    requires Sound(s) && StraysUnlinked(s, early)
    ensures MixedInv(State(s, Idle), Strays(s, early))
  {
    KnownSoundIff(s, early);
  }

  /**
   * `purge` as it runs, from when it has seen which backups are strays: its own steps and the deletions of strays'
   * files in any order, with stops anywhere. At every moment the links of all other listed backups are sound.
   */
  lemma KnownLinksResolve(s: Store, early: set<string>, steps: seq<MixedStep>, b: string, key: PartKey)
    requires Sound(s) && StraysUnlinked(s, early) && IsMixedRun(State(s, Idle), Strays(s, early), steps)
    requires var t := MixedRunTo(State(s, Idle), Strays(s, early), steps).store;
             Listed(t, b) && b !in Strays(s, early) && key in t.full[b].parts && t.full[b].parts[key].link.Some?
    ensures var t := MixedRunTo(State(s, Idle), Strays(s, early), steps).store;
            LinkSound(t, t.full[b].time, key, t.full[b].parts[key])
  {
    var st := MixedRunTo(State(s, Idle), Strays(s, early), steps);
    MixedStart(s, early);
    MixedRunKeeps(State(s, Idle), Strays(s, early), steps);
    InvSound(View(st, Strays(s, early)));
    LinkSoundApart(st.store, Strays(s, early), b, key);
  }

  lemma LinkSoundApart(t: Store, strays: set<string>, b: string, key: PartKey)
    requires Sound(Without(t, strays)) && b !in strays
    requires Listed(t, b) && key in t.full[b].parts && t.full[b].parts[key].link.Some?
    ensures LinkSound(t, t.full[b].time, key, t.full[b].parts[key])
  {
    var u := Without(t, strays);
    assert Listed(u, b) && u.full[b] == t.full[b];
    assert LinkSound(u, u.full[b].time, key, u.full[b].parts[key]);
  }

  // ---------- what the policy keeps stays whole

  /** No list takes backup `b`. */
  predicate NeverChosen(steps: seq<MixedStep>, b: string) {
    forall m <- steps | m.Chosen? && m.step.BeginDelete? :: b !in m.step.order
  }

  /** Backup `b` is as it was in `s`, and a deletion in hand goes on from a storage in which it was so too. */
  ghost predicate StillIntact(s: Store, st: State, strays: set<string>, b: string)
    requires b in s.full
  {
    && Intact(s, Without(st.store, strays), b)
    && (st.control.Delete? ==>
          && b !in st.control.order && Listed(st.control.start, b) && Intact(s, st.control.start, b)
          && GoesOn(View(st, strays), st.control.start, st.control.order))
  }

  lemma IntactOn(s: Store, t: Store, u: Store, b: string)
    requires b in s.full && Intact(s, t, b) && Intact(t, u, b)
    ensures Intact(s, u, b)
  {
  }

  lemma BeginGoesOn(st: State, order: seq<string>)
    requires Inv(st) && Enabled(st, BeginDelete(order))
    ensures var n := Apply(st, BeginDelete(order)); GoesOn(n, n.control.start, n.control.order)
  {
    StepKeeps(st, BeginDelete(order));
  }

  lemma ChosenStillIntact(s: Store, st: State, strays: set<string>, step: Step, b: string)
    requires MixedInv(st, strays) && MixedEnabled(st, strays, Chosen(step)) && !step.BeginDelete?
    requires b in s.full && StillIntact(s, st, strays, b)
    ensures StillIntact(s, MixedApply(st, strays, Chosen(step)), strays, b)
  {
    if step != Stop {
      var c := st.control;
      HeadIsKnown(st, strays);
      ChosenCommutes(st.store, c, step, strays);
      StepGoesOn(View(st, strays), step, c.start, c.order);
      var u := Without(MixedApply(st, strays, Chosen(step)).store, strays);
      UnderwayRetains(c.start, c.order, u);
      IntactOn(s, c.start, u, b);
    }
  }

  lemma MixedStillIntact(s: Store, st: State, strays: set<string>, m: MixedStep, b: string)
    requires MixedInv(st, strays) && MixedEnabled(st, strays, m) && b in s.full && StillIntact(s, st, strays, b)
    requires m.Chosen? && m.step.BeginDelete? ==> b !in m.step.order
    ensures StillIntact(s, MixedApply(st, strays, m), strays, b)
  {
    match m
    case Chosen(BeginDelete(order)) => BeginGoesOn(View(st, strays), order);
    case Chosen(step) => ChosenStillIntact(s, st, strays, step, b);
    case StrayFile(name, item) => StrayFilesApart(st.store, strays, name, item);
  }

  lemma {:induction false} MixedRunStillIntact(s: Store, st: State, strays: set<string>, steps: seq<MixedStep>,
                                               b: string)
    requires MixedInv(st, strays) && IsMixedRun(st, strays, steps) && NeverChosen(steps, b)
    requires b in s.full && StillIntact(s, st, strays, b)
    ensures StillIntact(s, MixedRunTo(st, strays, steps), strays, b)
    decreases |steps|
  {
    if steps != [] {
      MixedStepKeeps(st, strays, steps[0]);
      MixedStillIntact(s, st, strays, steps[0], b);
      MixedRunStillIntact(s, MixedApply(st, strays, steps[0]), strays, steps[1..], b);
    }
  }

  /** Beside the strays too: each known backup that the policy keeps has at every moment all it had. */
  lemma KnownKeptIntact(s: Store, early: set<string>, steps: seq<MixedStep>, b: string)
    requires Sound(s) && StraysUnlinked(s, early) && IsMixedRun(State(s, Idle), Strays(s, early), steps)
    requires Listed(s, b) && b in early && NeverChosen(steps, b)
    ensures Intact(s, MixedRunTo(State(s, Idle), Strays(s, early), steps).store, b)
  {
    var strays := Strays(s, early);
    var t := MixedRunTo(State(s, Idle), strays, steps).store;
    MixedStart(s, early);
    MixedRunStillIntact(Known(s, early), State(s, Idle), strays, steps, b);
    assert Intact(Known(s, early), Without(t, strays), b);
    IntactAmongKnown(s, early, Without(t, strays), b);
    IntactWithStrays(s, early, t, b);
  }

  lemma IntactWithStrays(s: Store, early: set<string>, t: Store, b: string)
    requires Sound(s) && StraysUnlinked(s, early) && Listed(s, b) && b in early
    requires Intact(s, Without(t, Strays(s, early)), b)
    ensures Intact(s, t, b)
  {
  }
}
