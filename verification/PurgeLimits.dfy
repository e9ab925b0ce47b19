/** Where the guarantees of PurgeRace end: the links of the strays themselves, and names that are used again. */
module PurgeLimits {
  import opened Bytes
  import opened BackupStore
  import opened StoreMachine
  import opened StoreSafety
  import opened Commands
  import opened StoreLimits
  import opened PurgeRace

  // ---------- the links of a stray

  /**
   * A stray's own links have no protection. If `purge` has worked through its list but a kill has left the stray's
   * metadata, its link to a known backup still leads to data exactly if that backup was not deleted, or a retained
   * known backup links to the same part.
   */
  lemma StrayLinkSurvivesIff(s: Store, early: set<string>, order: seq<string>, t: Store, b: string, key: PartKey)
    requires Sound(s) && WorkedThrough(Known(s, early), order, Without(t, Strays(s, early)))
    requires Listed(s, b) && b !in early && key in s.full[b].parts && s.full[b].parts[key].link.Some?
    requires s.full[b].parts[key].link.value in early
    ensures var target := Resolve(b, key, s.full[b].parts[key]);
            target in t.objects <==>
            || target.backup !in order
            || target.part in References(Known(s, early), set x <- order :: x, target.backup)
  {
    var target := Resolve(b, key, s.full[b].parts[key]);
    assert LinkSound(s, s.full[b].time, key, s.full[b].parts[key]);
    assert Listed(Known(s, early), target.backup);
    ObjectSurvivesIff(Known(s, early), order, Without(t, Strays(s, early)), target);
    assert target in t.objects <==> target in Without(t, Strays(s, early)).objects;
  }

  lemma {:induction false} MixedSnoc(st: State, strays: set<string>, steps: seq<MixedStep>, m: MixedStep)
    requires IsMixedRun(st, strays, steps) && MixedEnabled(MixedRunTo(st, strays, steps), strays, m)
    ensures IsMixedRun(st, strays, steps + [m])
    ensures MixedRunTo(st, strays, steps + [m]) == MixedApply(MixedRunTo(st, strays, steps), strays, m)
    decreases |steps|
  {
    if steps == [] {
      assert [m][1..] == [];
    } else {
      assert (steps + [m])[1..] == steps[1..] + [m];
      MixedSnoc(MixedApply(st, strays, steps[0]), strays, steps[1..], m);
    }
  }

  /** A run of `purge` on the two backups, the newer one a stray, up to the given state. */
  ghost predicate PurgeReaches(steps: seq<MixedStep>, st: State) {
    IsMixedRun(State(BOTH, Idle), {"new"}, steps) && MixedRunTo(State(BOTH, Idle), {"new"}, steps) == st
  }

  lemma PurgeOn(steps: seq<MixedStep>, st: State, step: Step) returns (more: seq<MixedStep>)
    requires PurgeReaches(steps, st) && MixedEnabled(st, {"new"}, Chosen(step))
    ensures PurgeReaches(more, MixedApply(st, {"new"}, Chosen(step)))
  {
    MixedSnoc(State(BOTH, Idle), {"new"}, steps, Chosen(step));
    more := steps + [Chosen(step)];
  }

  const OLD_DELETING := OLD.(state := Deleting)
  const CHOSEN_OLD := Control.Delete(ONE, ["old"], CollectReferences(ONE, ["old"]), 0, Waiting)
  const OLD_MARKED_BESIDE := BOTH.(light := BOTH.light["old" := LightOf(OLD_DELETING)],
                                   full := BOTH.full["old" := OLD_DELETING])
  const STRAY_LEFT := Store(map["new" := LightOf(NEW)], map["new" := NEW], map[])

  lemma OnlyOldIsKnown()
    ensures Strays(BOTH, {"old"}) == {"new"} && Known(BOTH, {"old"}) == ONE
    ensures CollectReferences(ONE, ["old"])["old"] == {}
  {
    assert "new" in BOTH.light;
    assert Known(BOTH, {"old"}).light == ONE.light && Known(BOTH, {"old"}).full == ONE.full;
    assert Known(BOTH, {"old"}).objects == ONE.objects;
    assert "old" in ["old"];
  }

  lemma OldChosen() returns (steps: seq<MixedStep>)
    ensures PurgeReaches(steps, State(BOTH, CHOSEN_OLD))
  {
    OnlyOldIsKnown();
    steps := [];
    steps := PurgeOn(steps, State(BOTH, Idle), BeginDelete(["old"]));
  }

  lemma OldMarkedFullBesideStray() returns (steps: seq<MixedStep>)
    ensures PurgeReaches(steps, State(BOTH.(full := OLD_MARKED_BESIDE.full),
                                      CHOSEN_OLD.(stage := Marking(OLD_DELETING))))
  {
    steps := OldChosen();
    steps := PurgeOn(steps, State(BOTH, CHOSEN_OLD), MarkFull);
  }

  lemma OldMarkedBesideStray() returns (steps: seq<MixedStep>)
    ensures PurgeReaches(steps, State(OLD_MARKED_BESIDE, CHOSEN_OLD.(stage := Dropping(OLD_DELETING))))
  {
    steps := OldMarkedFullBesideStray();
    steps := PurgeOn(steps, State(BOTH.(full := OLD_MARKED_BESIDE.full), CHOSEN_OLD.(stage := Marking(OLD_DELETING))),
        MarkLight);
  }

  lemma OldLightDropped() returns (steps: seq<MixedStep>)
    ensures PurgeReaches(steps, State(OLD_MARKED_BESIDE.(light := STRAY_LEFT.light),
                                      CHOSEN_OLD.(stage := Dropping(OLD_DELETING))))
  {
    OnlyOldIsKnown();
    steps := OldMarkedBesideStray();
    steps := PurgeOn(steps, State(OLD_MARKED_BESIDE, CHOSEN_OLD.(stage := Dropping(OLD_DELETING))), Drop(LightFile));
    assert OLD_MARKED_BESIDE.light - {"old"} == STRAY_LEFT.light;
  }

  lemma OldFullDropped() returns (steps: seq<MixedStep>)
    ensures PurgeReaches(steps, State(STRAY_LEFT.(objects := BOTH.objects),
                                      CHOSEN_OLD.(stage := Dropping(OLD_DELETING))))
  {
    OnlyOldIsKnown();
    steps := OldLightDropped();
    steps := PurgeOn(steps, State(OLD_MARKED_BESIDE.(light := STRAY_LEFT.light),
                                  CHOSEN_OLD.(stage := Dropping(OLD_DELETING))), Drop(FullFile));
    assert OLD_MARKED_BESIDE.full - {"old"} == STRAY_LEFT.full;
  }

  lemma OldDropped() returns (steps: seq<MixedStep>)
    ensures PurgeReaches(steps, State(STRAY_LEFT, CHOSEN_OLD.(stage := Dropping(OLD_DELETING))))
  {
    OnlyOldIsKnown();
    steps := OldFullDropped();
    steps := PurgeOn(steps, State(STRAY_LEFT.(objects := BOTH.objects), CHOSEN_OLD.(stage := Dropping(OLD_DELETING))),
        Drop(DataObject(KEY)));
    assert BOTH.objects - {DATA} == map[];
  }

  lemma OldGone() returns (steps: seq<MixedStep>)
    ensures PurgeReaches(steps, State(STRAY_LEFT, CHOSEN_OLD.(done := 1)))
  {
    OnlyOldIsKnown();
    steps := OldDropped();
    steps := PurgeOn(steps, State(STRAY_LEFT, CHOSEN_OLD.(stage := Dropping(OLD_DELETING))), DroppedAll);
  }

  lemma StrayUnlinked()
    ensures StraysUnlinked(BOTH, {"old"})
  {
  }

  lemma StrayRunWorkedThrough(steps: seq<MixedStep>, st: State)
    requires PurgeReaches(steps, st) && st.control == CHOSEN_OLD.(done := 1)
    ensures WorkedThrough(ONE, ["old"], Without(st.store, {"new"}))
  {
    OnlyOldIsKnown();
    var begun := SecondBackup();
    RunKeeps(EMPTY, begun);
    MixedStart(BOTH, {"old"});
    MixedRunKeeps(State(BOTH, Idle), {"new"}, steps);
  }

  /**
   * `purge` knows of the older backup only and deletes it. The newer one links to it and is to go as well, but the
   * process is killed before the pool gets to its files: it stays listed as CREATED, and its link dangles.
   */
  lemma StrayLinkDangles() returns (steps: seq<MixedStep>)
    ensures Strays(BOTH, {"old"}) == {"new"} && StraysUnlinked(BOTH, {"old"})
    ensures PurgeReaches(steps, State(STRAY_LEFT, Idle))
    ensures WorkedThrough(Known(BOTH, {"old"}), ["old"], Without(STRAY_LEFT, {"new"}))
    ensures Listed(STRAY_LEFT, "new") && STRAY_LEFT.full["new"].state == Created
    ensures Resolve("new", KEY, STRAY_LEFT.full["new"].parts[KEY]) !in STRAY_LEFT.objects
  {
    OnlyOldIsKnown();
    steps := OldGone();
    StrayRunWorkedThrough(steps, State(STRAY_LEFT, CHOSEN_OLD.(done := 1)));
    steps := PurgeOn(steps, State(STRAY_LEFT, CHOSEN_OLD.(done := 1)), Stop);
    StrayUnlinked();
  }

  // ---------- a name used again

  lemma ExtendFrom(st: State, steps: seq<Step>, step: Step) returns (more: seq<Step>)
    requires IsRun(st, steps) && Enabled(RunTo(st, steps), step)
    ensures IsRun(st, more) && RunTo(st, more) == Apply(RunTo(st, steps), step)
  {
    RunSnoc(st, steps, step);
    more := steps + [step];
  }

  const FIRST_NEW := BackupMeta(Created, 0, "host", false, {}, map[], map[])
  const FIRST := Store(map["new" := LightOf(FIRST_NEW)], map["new" := FIRST_NEW], map[])

  /** A first backup under the later name, with nothing in it. */
  lemma FirstNew() returns (past: seq<Step>)
    ensures IsRun(EMPTY, past) && RunTo(EMPTY, past) == State(FIRST, Idle)
  {
    past := [];
    past := ExtendFrom(EMPTY, past, BeginBackup("new", "host", 0, false, {}));
    past := ExtendFrom(EMPTY, past, SetState(Created));
    past := ExtendFrom(EMPTY, past, SaveFull);
    past := ExtendFrom(EMPTY, past, SaveLight);
    past := ExtendFrom(EMPTY, past, Stop);
  }

  const FIRST_DELETING := FIRST_NEW.(state := Deleting)
  const CHOSEN_FIRST := Control.Delete(FIRST, ["new"], CollectReferences(FIRST, ["new"]), 0, Waiting)
  const FIRST_MARKED := Store(map["new" := LightOf(FIRST_DELETING)], map["new" := FIRST_DELETING], map[])

  lemma FirstNewMarked() returns (steps: seq<Step>)
    ensures IsRun(State(FIRST, Idle), steps)
    ensures RunTo(State(FIRST, Idle), steps) == State(FIRST_MARKED, CHOSEN_FIRST.(stage := Dropping(FIRST_DELETING)))
  {
    var st := State(FIRST, Idle);
    steps := [];
    steps := ExtendFrom(st, steps, BeginDelete(["new"]));
    steps := ExtendFrom(st, steps, MarkFull);
    steps := ExtendFrom(st, steps, MarkLight);
    assert RunTo(st, steps).store.full == FIRST_MARKED.full;
    assert RunTo(st, steps).store.light == FIRST_MARKED.light;
  }

  lemma FirstNewGone() returns (steps: seq<Step>)
    ensures IsRun(State(FIRST, Idle), steps) && RunTo(State(FIRST, Idle), steps) == EMPTY
  {
    var st := State(FIRST, Idle);
    steps := FirstNewMarked();
    assert "new" in ["new"] && CollectReferences(FIRST, ["new"])["new"] == {};
    steps := ExtendFrom(st, steps, Drop(LightFile));
    steps := ExtendFrom(st, steps, Drop(FullFile));
    steps := ExtendFrom(st, steps, DroppedAll);
    steps := ExtendFrom(st, steps, Stop);
    assert RunTo(st, steps).store == EMPTY.store;
  }

  /**
   * If a name is used again meanwhile, a stray may be older than a known backup that links to it. Here `purge` reads
   * the names when there is one backup, "new". Until it has the lock that one is deleted, and two are made: "old", and
   * a second "new" that links to it. `purge` takes "old" for a stray, and the link of "new" dangles.
   */
  lemma RebornLinkDangles() returns (past: seq<Step>, meanwhile: seq<Step>)
    ensures IsRun(EMPTY, past) && RunTo(EMPTY, past).store.light.Keys == {"new"}
    ensures IsRun(RunTo(EMPTY, past), meanwhile) && RunTo(RunTo(EMPTY, past), meanwhile) == State(BOTH, Idle)
    ensures Sound(BOTH) && Strays(BOTH, {"new"}) == {"old"} && !StraysNewer(BOTH, {"new"})
    ensures var t := Known(BOTH, {"new"});
            Listed(t, "new") && Resolve("new", KEY, t.full["new"].parts[KEY]) !in t.objects
  {
    past := FirstNew();
    var gone := FirstNewGone();
    var second := SecondBackup();
    RunKeeps(EMPTY, second);
    meanwhile := gone + second;
    RunConcat(State(FIRST, Idle), gone, second);
    assert "old" in BOTH.light && "old" !in {"new"};
    assert "old" in Strays(BOTH, {"new"});
  }
}
