/**
 * The backup, delete and purge commands of ch_backup.py, statement by statement over the machine of StoreMachine.
 * Every storage operation may raise or the process may be killed at it; the steps taken are recorded, so that
 * whatever happens the storage is one that StoreSafety speaks about.
 */
module Commands {
  import opened Bytes
  import opened BackupStore
  import opened StoreMachine
  import opened StoreSafety
  import opened Selection
  import DedupScan

  /** What becomes of a storage operation. */
  datatype Fault = Fine | Raises | Kills

  datatype Outcome = Done | Raised | Killed

  datatype CommandResult = Completed | AlreadyExists | NotFound | NoPolicy | TypeError | Failed | Dead

  // ---------- the commands

  lemma {:induction false} RunSnoc(st: State, steps: seq<Step>, step: Step)
    requires IsRun(st, steps) && Enabled(RunTo(st, steps), step)
    ensures IsRun(st, steps + [step]) && RunTo(st, steps + [step]) == Apply(RunTo(st, steps), step)
    decreases |steps|
  {
    if steps == [] {
      assert [step][1..] == [];
    } else {
      assert (steps + [step])[1..] == steps[1..] + [step];
      RunSnoc(Apply(st, steps[0]), steps[1..], step);
    }
  }

  /** The state once a command has worked through `order`, chosen when the storage was `start`. */
  ghost predicate WorkedThrough(start: Store, order: seq<string>, s: Store) {
    DeleteInv(s, Delete(start, order, CollectReferences(start, order), |order|, Waiting))
  }

  /** A state of the storage that the deletion of `order`, chosen when it was `start`, has come to so far. */
  ghost predicate Underway(start: Store, order: seq<string>, s: Store) {
    exists c: Control :: c.Delete? && c.start == start && c.order == order && RefsCorrect(c) && DeleteInv(s, c)
  }

  /** Since `before` no command has begun. */
  ghost predicate Continues(before: seq<Step>, after: seq<Step>) {
    before <= after && forall i | |before| <= i < |after| :: !Begins(after[i])
  }

  predicate Begins(step: Step) {
    step.BeginBackup? || step.BeginDelete? || step.DropStray?
  }

  lemma ContinuesOn(a: seq<Step>, b: seq<Step>, c: seq<Step>)
    requires Continues(a, b) && Continues(b, c)
    ensures Continues(a, c)
  {
    forall i | |a| <= i < |c|
      ensures !Begins(c[i])
    {
      if i < |b| {
        assert b[i] == c[i];
      }
    }
  }

  /** The deletion goes on, or has stopped. */
  ghost predicate GoesOn(st: State, start: Store, order: seq<string>) {
    && Inv(st) && !st.control.Backup? && Underway(start, order, st.store)
    && (st.control.Delete? ==> st.control.start == start && st.control.order == order)
  }

  lemma StepGoesOn(st: State, step: Step, start: Store, order: seq<string>)
    requires GoesOn(st, start, order) && Enabled(st, step) && !Begins(step)
    ensures GoesOn(Apply(st, step), start, order)
  {
    StepKeeps(st, step);
    if step == TrimLight {
      SaveHeadLight(st.store, st.control);
    }
  }

  ghost predicate NoneBegins(steps: seq<Step>) {
    forall i | 0 <= i < |steps| :: !Begins(steps[i])
  }

  lemma {:induction false} StepsGoOn(st: State, steps: seq<Step>, start: Store, order: seq<string>)
    requires GoesOn(st, start, order) && IsRun(st, steps) && NoneBegins(steps)
    ensures GoesOn(RunTo(st, steps), start, order)
    decreases |steps|
  {
    if steps != [] {
      assert !Begins(steps[0]);
      StepGoesOn(st, steps[0], start, order);
      NoneBeginsLater(steps);
      StepsGoOn(Apply(st, steps[0]), steps[1..], start, order);
    }
  }

  lemma NoneBeginsLater(steps: seq<Step>)
    requires NoneBegins(steps) && steps != []
    ensures NoneBegins(steps[1..])
  {
  }

  lemma {:induction false} RunConcat(st: State, a: seq<Step>, b: seq<Step>)
    requires IsRun(st, a)
    ensures IsRun(st, a + b) <==> IsRun(RunTo(st, a), b)
    ensures IsRun(st, a + b) ==> RunTo(st, a + b) == RunTo(RunTo(st, a), b)
    decreases |a|
  {
    if a == [] {
      assert a + b == b;
    } else {
      assert (a + b)[1..] == a[1..] + b;
      RunConcat(Apply(st, a[0]), a[1..], b);
    }
  }

  /** All that a deletion has come to since it began. */
  lemma ContinuedUnderway(before: seq<Step>, after: seq<Step>)
    requires IsRun(EMPTY, before) && IsRun(EMPTY, after) && Continues(before, after)
    requires RunTo(EMPTY, before).control.Delete?
    ensures var c := RunTo(EMPTY, before).control;
            Underway(c.start, c.order, RunTo(EMPTY, after).store)
  {
    var st, more := RunTo(EMPTY, before), after[|before|..];
    assert after == before + more;
    RunKeeps(EMPTY, before);
    RunConcat(EMPTY, before, more);
    assert NoneBegins(more);
    StepsGoOn(st, more, st.control.start, st.control.order);
  }

  /** However far a deletion has come, the backups it is to retain are as they were. */
  lemma UnderwayRetains(start: Store, order: seq<string>, s: Store)
    requires Underway(start, order, s)
    ensures forall b | Listed(start, b) && b !in order :: Intact(start, s, b)
  {
    var c: Control :| c.Delete? && c.start == start && c.order == order && RefsCorrect(c) && DeleteInv(s, c);
    forall b | Listed(start, b) && b !in order
      ensures Intact(start, s, b)
    {
      RetainedAlwaysIntact(s, c, b);
    }
  }

  /** Of backup `b` exactly the own parts in `kept` are left, and nothing at all if there are none. */
  ghost predicate CutTo(start: Store, s: Store, b: string, kept: set<PartKey>)
    requires b in start.full
  {
    if kept == {} then NothingLeft(s, b)
    else
      && Listed(s, b) && s.full[b].state == PartiallyDeleted && s.full[b].parts.Keys == kept
      && s.light[b] == LightMeta(PartiallyDeleted, start.full[b].time, start.full[b].schemaOnly)
      && forall key <- start.full[b].parts | start.full[b].parts[key].link == None ::
           ObjectKey(b, key) in s.objects <==> ObjectKey(b, key) in start.objects && key in kept
  }

  /**
   * What a completed `delete` or `purge` has kept and removed: all of every retained backup, and of a deleted one the
   * own parts that retained backups link to.
   */
  lemma CompletedIsExact(start: Store, order: seq<string>, s: Store, b: string)
    requires WorkedThrough(start, order, s) && Listed(start, b)
    ensures b !in order ==> Intact(start, s, b)
    ensures b in order ==> CutTo(start, s, b, References(start, set x <- order :: x, b))
  {
    var c := Control.Delete(start, order, CollectReferences(start, order), |order|, Waiting);
    if b in order {
      CompletedCuts(s, c, b);
    } else {
      RetainedAlwaysIntact(s, c, b);
    }
  }

  lemma CompletedCuts(s: Store, c: Control, b: string)
    requires c.Delete? && DeleteInv(s, c) && RefsCorrect(c) && c.done == |c.order| && Listed(c.start, b) && b in c.order
    ensures CutTo(c.start, s, b, Kept(c, b))
  {
    FinishedKeys(s, c, b);
    if Kept(c, b) != {} {
      forall key <- c.start.full[b].parts | c.start.full[b].parts[key].link == None
        ensures ObjectKey(b, key) in s.objects <==> ObjectKey(b, key) in c.start.objects && key in Kept(c, b)
      {
        DeletionExact(s, c, b, key);
      }
    }
  }

  lemma FinishedKeys(s: Store, c: Control, b: string)
    requires c.Delete? && DeleteInv(s, c) && RefsCorrect(c) && c.done == |c.order| && Listed(c.start, b) && b in c.order
    ensures if Kept(c, b) == {} then NothingLeft(s, b)
            else
              && Listed(s, b) && s.full[b].state == PartiallyDeleted && s.full[b].parts.Keys == Kept(c, b)
              && s.light[b] == LightMeta(PartiallyDeleted, c.start.full[b].time, c.start.full[b].schemaOnly)
  {
    KeptListed(c, b);
    FinishedIsDeleted(s, c, b);
  }

  lemma FinishedIsDeleted(s: Store, c: Control, b: string)
    requires c.Delete? && DeleteInv(s, c) && c.done == |c.order| && b in c.order
    ensures Deleted(s, c.start, Kept(c, b), b)
  {
    var i :| 0 <= i < |c.order| && c.order[i] == b;
    assert IsDeleted(s, c, c.order[i]);
  }

  /** A backup whose turn has come has its full metadata exactly if it had it when the command began. */
  lemma HeadWasStored(steps: seq<Step>, st: State)
    requires IsRun(EMPTY, steps) && RunTo(EMPTY, steps) == st
    requires InHand(st.control) && st.control.stage == Waiting
    ensures Head(st.control) in st.store.full <==> Head(st.control) in st.control.start.full
  {
    RunKeeps(EMPTY, steps);
    HeadUntouched(st.control);
  }

  lemma RunWorkedThrough(steps: seq<Step>, st: State)
    requires IsRun(EMPTY, steps) && RunTo(EMPTY, steps) == st
    requires st.control.Delete? && st.control.done == |st.control.order| && st.control.stage == Waiting
    ensures WorkedThrough(st.control.start, st.control.order, st.store)
  {
    RunKeeps(EMPTY, steps);
  }

  lemma RunTimesAgree(steps: seq<Step>, st: State)
    requires IsRun(EMPTY, steps) && RunTo(EMPTY, steps) == st
    ensures TimesAgree(st.store)
  {
    RunKeeps(EMPTY, steps);
    InvSound(st);
  }

  ghost predicate AllStored(s: Store, order: seq<string>, n: nat)
    requires n <= |order|
  {
    forall i | 0 <= i < n :: order[i] in s.full
  }

  lemma NoneMissing(s: Store, deleting: seq<string>, retained: seq<string>)
    requires AllStored(s, deleting, |deleting|) && forall b <- retained :: b in s.full
    requires forall b :: b in retained <==> b in s.light && b !in deleting
    ensures s.light.Keys <= s.full.Keys
  {
  }

  // ---------- deleting objects

  predicate Shrinks(s: Store, t: Store) {
    t.objects.Keys <= s.objects.Keys && t.full.Keys <= s.full.Keys && t.light.Keys <= s.light.Keys
  }

  predicate Absent(s: Store, b: string, item: Item) {
    match item
    case DataObject(key) => ObjectKey(b, key) !in s.objects
    case FullFile => b !in s.full
    case LightFile => b !in s.light
  }

  ghost predicate AllAbsent(s: Store, b: string, items: set<Item>) {
    forall item <- items :: Absent(s, b, item)
  }

  lemma StayAbsent(s: Store, t: Store, b: string, items: set<Item>)
    requires AllAbsent(s, b, items) && Shrinks(s, t)
    ensures AllAbsent(t, b, items)
  {
  }

  predicate DataOnly(items: set<Item>) {
    forall item <- items :: item.DataObject?
  }

  predicate MayDrop(c: Control, item: Item)
    requires InHand(c)
  {
    EnabledDelete(c.start, c, Drop(item))
  }

  /** What list_dir finds under the prefix of a backup. */
  function Everything(s: Store, b: string): set<Item> {
    (set k | k in s.objects && k.backup == b :: DataObject(k.part)) + {FullFile, LightFile}
  }

  lemma EverythingGone(s: Store, t: Store, b: string)
    requires Shrinks(s, t) && AllAbsent(t, b, Everything(s, b))
    ensures NothingLeft(t, b)
  {
    assert Absent(t, b, FullFile) && Absent(t, b, LightFile);
    forall k <- s.objects | k.backup == b
      ensures k !in t.objects
    {
      assert k == ObjectKey(b, k.part) && DataObject(k.part) in Everything(s, b);
      assert Absent(t, b, DataObject(k.part));
    }
  }

  /** The full metadata of backup `b` is `m`. */
  predicate StoredAs(s: Store, b: string, m: BackupMeta) {
    b in s.full && s.full[b] == m
  }

  /** Some of the parts that need not stay have left the metadata, and those of them that were own have no data. */
  ghost predicate CutDown(s: Store, b: string, m: BackupMeta, kept: set<PartKey>) {
    exists removed ::
      removed <= m.parts.Keys - kept && StoredAs(s, b, Trim(m, removed)) && OwnGone(s, m, b, removed)
  }

  /** The objects of the own parts among `removed`. */
  function OwnItems(mem: BackupMeta, removed: set<PartKey>): set<Item> {
    set key | key in removed && key in mem.parts && mem.parts[key].link == None :: DataObject(key)
  }

  lemma OwnItemsGone(s: Store, b: string, mem: BackupMeta, removed: set<PartKey>)
    requires AllAbsent(s, b, OwnItems(mem, removed))
    ensures forall k <- removed | k in mem.parts && mem.parts[k].link == None :: ObjectKey(b, k) !in s.objects
  {
    forall k <- removed | k in mem.parts && mem.parts[k].link == None
      ensures ObjectKey(b, k) !in s.objects
    {
      assert DataObject(k) in OwnItems(mem, removed);
      assert Absent(s, b, DataObject(k));
    }
  }

  // ---------- backups purge deletes unseen

  /** The backups `purge` finds listed though they were not there when it read the names. */
  function Strays(s: Store, early: set<string>): set<string> {
    set b | b in s.light && b !in early
  }

  /** The storage without the given backups. */
  function Without(s: Store, gone: set<string>): Store {
    Store(s.light - gone, s.full - gone, map k | k in s.objects && k.backup !in gone :: s.objects[k])
  }

  /** The storage that the retention policy is applied to. */
  function Known(s: Store, early: set<string>): Store {
    Without(s, Strays(s, early))
  }

  /** No backup known early links to a stray. */
  predicate StraysUnlinked(s: Store, early: set<string>) {
    forall b, key | b in s.light && b in s.full && b in early && key in s.full[b].parts
                    && s.full[b].parts[key].link.Some? ::
      s.full[b].parts[key].link.value !in Strays(s, early)
  }

  /** The strays that come before every known backup in the listing. */
  function LeadingStrays(s: Store, early: set<string>): set<string> {
    set b | b in s.light && b !in early && forall c | c in s.light && c in early :: s.light[c].time < s.light[b].time
  }

  /** Of backup `b` only the items in `rest` are left. */
  ghost predicate Shedding(s: Store, t: Store, b: string, rest: set<Item>) {
    && t.light == (if LightFile in rest then s.light else s.light - {b})
    && t.full == (if FullFile in rest then s.full else s.full - {b})
    && (forall k <- t.objects :: k in s.objects && t.objects[k] == s.objects[k])
    && forall k <- s.objects :: k in t.objects <==> k.backup == b ==> DataObject(k.part) in rest
  }

  lemma SheddingStep(s: Store, t: Store, b: string, rest: set<Item>, item: Item)
    requires Shedding(s, t, b, rest) && item in rest
    ensures Shedding(s, DropItem(t, b, item), b, rest - {item})
  {
  }

  lemma SheddingUnreferenced(s: Store, t: Store, b: string, rest: set<Item>)
    requires Shedding(s, t, b, rest) && Unreferenced(s, b)
    ensures Unreferenced(t, b)
  {
  }

  lemma SheddingStart(s: Store, b: string)
    ensures Shedding(s, s, b, Everything(s, b))
  {
    forall k <- s.objects | k.backup == b
      ensures DataObject(k.part) in Everything(s, b)
    {
      assert k == ObjectKey(b, k.part);
    }
  }

  lemma SheddingDone(s: Store, t: Store, b: string)
    requires Shedding(s, t, b, {})
    ensures t == Without(s, {b})
  {
    assert t.objects == Without(s, {b}).objects;
  }

  lemma WithoutMore(s: Store, gone: set<string>, b: string)
    ensures Without(Without(s, gone), {b}) == Without(s, gone + {b})
  {
    assert Without(Without(s, gone), {b}).objects == Without(s, gone + {b}).objects;
    assert Without(Without(s, gone), {b}).full == Without(s, gone + {b}).full;
    assert Without(Without(s, gone), {b}).light == Without(s, gone + {b}).light;
  }

  lemma WithoutTwice(s: Store, some: set<string>, gone: set<string>)
    requires some <= gone
    ensures Without(Without(s, some), gone) == Without(s, gone)
  {
    assert Without(Without(s, some), gone).objects == Without(s, gone).objects;
    assert Without(Without(s, some), gone).full == Without(s, gone).full;
    assert Without(Without(s, some), gone).light == Without(s, gone).light;
  }

  /** The files of strays can go at any moment: the rest of the storage is the same before and after. */
  lemma StrayFilesApart(s: Store, strays: set<string>, b: string, item: Item)
    requires b in strays
    ensures Without(DropItem(s, b, item), strays) == Without(s, strays)
  {
    assert Without(DropItem(s, b, item), strays).objects == Without(s, strays).objects;
    assert Without(DropItem(s, b, item), strays).full == Without(s, strays).full;
    assert Without(DropItem(s, b, item), strays).light == Without(s, strays).light;
  }

  lemma WithoutNone(s: Store)
    ensures Without(s, {}) == s
  {
    assert Without(s, {}).objects == s.objects;
    assert Without(s, {}).full == s.full && Without(s, {}).light == s.light;
  }

  /** The strays among the first `n` entries of a listing. */
  function StraysAmong(listing: seq<string>, n: nat, early: set<string>): set<string>
    requires n <= |listing|
  {
    set b | b in listing[..n] && b !in early
  }

  lemma StraysSnoc(listing: seq<string>, n: nat, early: set<string>)
    requires n < |listing|
    ensures StraysAmong(listing, n + 1, early)
            == StraysAmong(listing, n, early) + (if listing[n] in early then {} else {listing[n]})
  {
    assert listing[..n + 1] == listing[..n] + [listing[n]];
  }

  lemma AmongAreStrays(s: Store, listing: seq<string>, n: nat, early: set<string>)
    requires n <= |listing| && forall b :: b in listing <==> b in s.light
    ensures StraysAmong(listing, n, early) <= Strays(s, early)
  {
    forall b <- listing[..n]
      ensures b in listing
    {
    }
  }

  lemma KnownApart(s: Store, listing: seq<string>, i: nat, early: set<string>)
    requires i <= |listing| && forall b :: b in listing <==> b in s.light
    ensures Without(Without(s, StraysAmong(listing, i, early)), Strays(s, early)) == Known(s, early)
  {
    AmongAreStrays(s, listing, i, early);
    WithoutTwice(s, StraysAmong(listing, i, early), Strays(s, early));
  }

  lemma KnownStaysApart(s: Store, listing: seq<string>, i: nat, early: set<string>, t: Store)
    requires i < |listing| && listing[i] !in early && forall b :: b in listing <==> b in s.light
    requires Without(t, {listing[i]}) == Without(Without(s, StraysAmong(listing, i, early)), {listing[i]})
    ensures Without(t, Strays(s, early)) == Known(s, early)
  {
    KnownApart(s, listing, i, early);
    WithoutTwice(t, {listing[i]}, Strays(s, early));
    WithoutTwice(Without(s, StraysAmong(listing, i, early)), {listing[i]}, Strays(s, early));
  }

  lemma AllStrays(s: Store, listing: seq<string>, early: set<string>)
    requires forall b :: b in listing <==> b in s.light
    ensures StraysAmong(listing, |listing|, early) == Strays(s, early)
  {
    assert listing[..|listing|] == listing;
  }

  /** What is left of a listing for the policy to decide on. */
  method FilterKnown(ghost s: Store, listing: seq<string>, early: set<string>) returns (known: seq<string>)
    requires NewestFirst(s, listing) && forall b :: b in listing <==> b in s.light
    ensures NewestFirst(Known(s, early), known) && forall b :: b in known <==> b in Known(s, early).light
  {
    known := [];
    for i := 0 to |listing|
      invariant NewestFirst(s, known) && forall b :: b in known <==> b in listing[..i] && b in early
    {
      TakenStaysOrdered(s, listing, i, known);
      if listing[i] in early {
        known := known + [listing[i]];
      }
      assert listing[..i + 1] == listing[..i] + [listing[i]];
    }
    assert listing[..|listing|] == listing;
  }

  lemma SomeKnownIff(s: Store, listing: seq<string>, early: set<string>)
    requires forall b :: b in listing <==> b in s.light
    ensures (exists b <- listing :: b in early) <==> Known(s, early).light.Keys != {}
  {
    if exists b <- listing :: b in early {
      var b :| b in listing && b in early;
      assert b in Known(s, early).light;
    }
  }

  /** The strays before the first known backup. */
  lemma StraysLead(s: Store, listing: seq<string>, i: nat, early: set<string>)
    requires NewestFirst(s, listing) && forall b :: b in listing <==> b in s.light
    requires i < |listing| && listing[i] in early && forall j | 0 <= j < i :: listing[j] !in early
    ensures StraysAmong(listing, i, early) == LeadingStrays(s, early)
  {
    forall b
      ensures b in StraysAmong(listing, i, early) <==> b in LeadingStrays(s, early)
    {
      if b in listing {
        var j :| 0 <= j < |listing| && listing[j] == b;
        OlderLater(s, listing, j, i);
        if j < i {
          assert listing[..i][j] == b;
          AllKnownOlder(s, listing, i, j, early);
        }
      }
    }
  }

  lemma AllKnownOlder(s: Store, listing: seq<string>, i: nat, j: nat, early: set<string>)
    requires NewestFirst(s, listing) && forall b :: b in listing <==> b in s.light
    requires j < i < |listing| && forall k | 0 <= k < i :: listing[k] !in early
    ensures forall c | c in s.light && c in early :: s.light[c].time < s.light[listing[j]].time
  {
    forall c | c in s.light && c in early
      ensures s.light[c].time < s.light[listing[j]].time
    {
      var k :| 0 <= k < |listing| && listing[k] == c;
      OlderLater(s, listing, j, k);
    }
  }

  /** What links to a stray is a newer stray. */
  lemma LinkerIsNewerStray(s: Store, listing: seq<string>, i: nat, early: set<string>, c: string, key: PartKey)
    requires Sound(s) && StraysUnlinked(s, early)
    requires NewestFirst(s, listing) && forall b :: b in listing <==> b in s.light
    requires i < |listing| && listing[i] !in early
    requires Listed(s, c) && key in s.full[c].parts && s.full[c].parts[key].link == Some(listing[i])
    ensures c in StraysAmong(listing, i, early)
  {
    assert LinkSound(s, s.full[c].time, key, s.full[c].parts[key]);
    var j :| 0 <= j < |listing| && listing[j] == c;
    OlderLater(s, listing, j, i);
    assert listing[..i][j] == c;
  }

  /** With the newer strays gone nothing links to the next one. */
  lemma NextStrayUnreferenced(s: Store, listing: seq<string>, i: nat, early: set<string>)
    requires Sound(s) && StraysUnlinked(s, early)
    requires NewestFirst(s, listing) && forall b :: b in listing <==> b in s.light
    requires i < |listing| && listing[i] !in early
    ensures Unreferenced(Without(s, StraysAmong(listing, i, early)), listing[i])
  {
    var t := Without(s, StraysAmong(listing, i, early));
    forall c, key | c in t.light && c in t.full && c != listing[i] && key in t.full[c].parts
      ensures t.full[c].parts[key].link != Some(listing[i])
    {
      if s.full[c].parts[key].link == Some(listing[i]) {
        LinkerIsNewerStray(s, listing, i, early, c, key);
      }
    }
  }

  /** However much of the strays is left, a known backup has all that its parts resolve to. */
  lemma KnownIntact(s: Store, early: set<string>, t: Store)
    requires Sound(s) && StraysUnlinked(s, early) && Without(t, Strays(s, early)) == Known(s, early)
    ensures forall b | Listed(s, b) && b in early :: Intact(s, t, b)
  {
    forall b | Listed(s, b) && b in early
      ensures Intact(s, t, b)
    {
      KnownPartsIntact(s, early, t, b);
      assert b in Known(s, early).light && b in Known(s, early).full && Known(s, early).full[b] == s.full[b];
    }
  }

  lemma KnownPartsIntact(s: Store, early: set<string>, t: Store, b: string)
    requires Sound(s) && StraysUnlinked(s, early) && Without(t, Strays(s, early)) == Known(s, early)
    requires Listed(s, b) && b in early
    ensures forall key <- s.full[b].parts ::
              var target := Resolve(b, key, s.full[b].parts[key]);
              && (target in t.objects <==> target in s.objects)
              && (target in t.objects ==> t.objects[target] == s.objects[target])
  {
    forall key <- s.full[b].parts
      ensures Resolve(b, key, s.full[b].parts[key]).backup !in Strays(s, early)
    {
    }
    SameApart(s, t, Strays(s, early));
  }

  /** Storages that agree apart from some backups hold the same objects of all others. */
  lemma SameApart(s: Store, t: Store, gone: set<string>)
    requires Without(s, gone) == Without(t, gone)
    ensures forall k: ObjectKey | k.backup !in gone ::
              (k in s.objects <==> k in t.objects) && (k in t.objects ==> t.objects[k] == s.objects[k])
  {
    forall k: ObjectKey | k.backup !in gone
      ensures (k in s.objects <==> k in t.objects) && (k in t.objects ==> t.objects[k] == s.objects[k])
    {
      assert k in Without(s, gone).objects <==> k in Without(t, gone).objects;
      assert k in t.objects ==> Without(s, gone).objects[k] == Without(t, gone).objects[k];
    }
  }

  lemma NextKnown(s: Store, listing: seq<string>, i: nat, early: set<string>)
    requires i < |listing| && listing[i] in early && forall b :: b in listing <==> b in s.light
    ensures StraysAmong(listing, i + 1, early) == StraysAmong(listing, i, early)
    ensures Without(Without(s, StraysAmong(listing, i, early)), Strays(s, early)) == Known(s, early)
  {
    StraysSnoc(listing, i, early);
    KnownApart(s, listing, i, early);
  }

  lemma NextStray(s: Store, listing: seq<string>, i: nat, early: set<string>)
    requires Sound(s) && StraysUnlinked(s, early)
    requires NewestFirst(s, listing) && forall b :: b in listing <==> b in s.light
    requires i < |listing| && listing[i] !in early
    ensures listing[i] in Strays(s, early)
    ensures var t := Without(s, StraysAmong(listing, i, early));
            && Unreferenced(t, listing[i])
            && Without(t, {listing[i]}) == Without(s, StraysAmong(listing, i + 1, early))
  {
    StraysSnoc(listing, i, early);
    NextStrayUnreferenced(s, listing, i, early);
    WithoutMore(s, StraysAmong(listing, i, early), listing[i]);
  }

  /** A backup known early is left by the strays' deletion with all that its parts resolve to. */
  lemma IntactAmongKnown(s: Store, early: set<string>, t: Store, b: string)
    requires Sound(s) && StraysUnlinked(s, early) && b in early && Listed(s, b)
    requires Intact(Known(s, early), t, b)
    ensures Intact(s, t, b)
  {
    forall key <- s.full[b].parts
      ensures var target := Resolve(b, key, s.full[b].parts[key]);
              && (target in t.objects <==> target in s.objects)
              && (target in t.objects ==> t.objects[target] == s.objects[target])
    {
      if s.full[b].parts[key].link.Some? {
        assert LinkSound(s, s.full[b].time, key, s.full[b].parts[key]);
      }
      assert Known(s, early).full[b] == s.full[b];
    }
  }

  lemma RunSound(steps: seq<Step>, st: State)
    requires IsRun(EMPTY, steps) && RunTo(EMPTY, steps) == st
    ensures Sound(st.store)
  {
    RunKeeps(EMPTY, steps);
    InvSound(st);
  }

  /** Of the backups a completed purge has not chosen, exactly those not known early are gone. */
  lemma RetainedIffKnown(s: Store, early: set<string>, deleting: seq<string>, t: Store, b: string)
    requires Known(s, early).light.Keys <= s.full.Keys
    requires WorkedThrough(Known(s, early), deleting, t) && b in s.light && b !in deleting
    ensures b in t.light <==> b in early
  {
    if b in early {
      CompletedIsExact(Known(s, early), deleting, t, b);
    }
  }

  lemma RetainedKnown(s: Store, early: set<string>, deleting: seq<string>, t: Store)
    requires Sound(s) && StraysUnlinked(s, early)
    requires forall b | Listed(Known(s, early), b) && b !in deleting :: Intact(Known(s, early), t, b)
    ensures forall b | Listed(s, b) && b in early && b !in deleting :: Intact(s, t, b)
  {
    forall b | Listed(s, b) && b in early && b !in deleting
      ensures Intact(s, t, b)
    {
      IntactAmongKnown(s, early, t, b);
    }
  }

  // ---------- making a backup

  /** What the backup of the tables comes down to: parts stored, parts linked, and metadata saved in between. */
  datatype Work =
    | StorePart(key: PartKey, part: PartMeta)
    | LinkPart(key: PartKey, donor: string, donorKey: PartKey)
    | Checkpoint

  /** The backups young enough for deduplication. */
  function DedupWindow(seen: map<string, LightMeta>, ageLimit: Option<nat>): set<string> {
    set b | b in seen && ageLimit.Some? && seen[b].time >= ageLimit.value && !seen[b].schemaOnly
  }

  /** Both metadata files of the backup say of it what `m` does, the parts aside. */
  predicate ShownAs(s: Store, name: string, m: BackupMeta) {
    && name in s.light && s.light[name] == LightMeta(m.state, m.time, m.schemaOnly)
    && name in s.full && s.full[name].(parts := map[]) == m.(parts := map[])
  }

  /** No listing shows the backup as completed. */
  predicate NotCreated(s: Store, name: string) {
    name in s.light ==> s.light[name].state != Created
  }

  predicate TimesDistinct(seen: map<string, LightMeta>) {
    forall b, c | b in seen && c in seen && b != c :: seen[b].time != seen[c].time
  }

  /** The start of `backup`: whether the name is taken, and the window for deduplication. */
  method LookAround(name: string, seen: map<string, LightMeta>, ageLimit: Option<nat>)
    returns (taken: bool, names: set<string>)
    requires TimesDistinct(seen)
    ensures taken <==> name in seen
    ensures names == DedupWindow(seen, ageLimit)
  {
    var s := Store(seen, map[], map[]);
    var listing := ListBackups(s);
    taken := name in listing;
    var window := DedupScan.CollectWindow(s, listing, ageLimit);
    names := set b | b in window;
  }

  /** The work is fit to do: own parts are plain, and donors may donate. */
  predicate Fit(s: Store, window: set<string>, w: Work) {
    match w
    case StorePart(_, part) => part.link == None && part.linkPart == None
    case LinkPart(key, donor, donorKey) => Donates(s, window, key, donor, donorKey)
    case Checkpoint => true
  }

  predicate AllFit(s: Store, window: set<string>, work: seq<Work>) {
    forall w <- work :: Fit(s, window, w)
  }

  /** No part comes twice. */
  predicate KeysDistinct(work: seq<Work>) {
    forall i, j | 0 <= i < j < |work| && !work[i].Checkpoint? && !work[j].Checkpoint? :: work[i].key != work[j].key
  }

  /** The metadata of a part once the work is done. */
  function PartOf(s: Store, window: set<string>, w: Work): PartMeta
    requires Fit(s, window, w) && !w.Checkpoint?
  {
    match w
    case StorePart(_, part) => part
    case LinkPart(key, donor, donorKey) => LinkTo(key, donor, donorKey, s.full[donor].parts[donorKey])
  }

  /** The parts in `parts` are those of the first `n` pieces of work. */
  ghost predicate DoneWork(s: Store, window: set<string>, work: seq<Work>, n: nat, parts: map<PartKey, PartMeta>)
    requires n <= |work| && AllFit(s, window, work)
  {
    && (forall i | 0 <= i < n && !work[i].Checkpoint? ::
          work[i].key in parts && parts[work[i].key] == PartOf(s, window, work[i]))
    && (forall key <- parts :: exists i :: 0 <= i < n && !work[i].Checkpoint? && work[i].key == key)
  }

  lemma MoreWork(s: Store, window: set<string>, work: seq<Work>, n: nat, before: map<PartKey, PartMeta>,
                 after: map<PartKey, PartMeta>)
    requires n < |work| && AllFit(s, window, work) && KeysDistinct(work) && DoneWork(s, window, work, n, before)
    requires after == if work[n].Checkpoint? then before else before[work[n].key := PartOf(s, window, work[n])]
    ensures DoneWork(s, window, work, n + 1, after)
  {
  }

  lemma WorkIsNew(s: Store, window: set<string>, work: seq<Work>, n: nat, parts: map<PartKey, PartMeta>)
    requires n < |work| && AllFit(s, window, work) && KeysDistinct(work) && DoneWork(s, window, work, n, parts)
    ensures !work[n].Checkpoint? ==> work[n].key !in parts
  {
  }

  /** Nothing but what belongs to `name` differs. */
  ghost predicate OthersSame(s: Store, t: Store, name: string) {
    && t.light - {name} == s.light - {name} && t.full - {name} == s.full - {name}
    && forall k: ObjectKey | k.backup != name :: (k in t.objects <==> k in s.objects) &&
        (k in t.objects ==> t.objects[k] == s.objects[k])
  }

  lemma FitStays(s: Store, t: Store, name: string, window: set<string>, w: Work)
    requires OthersSame(s, t, name) && name !in window && Fit(s, window, w)
    ensures Fit(t, window, w) && (!w.Checkpoint? ==> PartOf(t, window, w) == PartOf(s, window, w))
  {
    if w.LinkPart? {
      assert w.donor in s.full - {name} && w.donor in t.full - {name};
      assert (s.full - {name})[w.donor] == (t.full - {name})[w.donor];
    }
  }

  /** The backup as it stands in storage: every part leads to data with its checksum. */
  ghost predicate PartsStored(s: Store, name: string)
    requires name in s.full
  {
    forall key <- s.full[name].parts ::
      var target := Resolve(name, key, s.full[name].parts[key]);
      target in s.objects && s.objects[target].checksum == s.full[name].parts[key].checksum
  }

  lemma RunPartsStored(steps: seq<Step>, st: State)
    requires IsRun(EMPTY, steps) && RunTo(EMPTY, steps) == st && st.control.Backup?
    requires st.control.name in st.store.full && st.store.full[st.control.name] == st.control.mem
    ensures PartsStored(st.store, st.control.name)
  {
    RunKeeps(EMPTY, steps);
    var c := st.control;
    forall key <- c.mem.parts
      ensures var target := Resolve(c.name, key, c.mem.parts[key]);
              target in st.store.objects && st.store.objects[target].checksum == c.mem.parts[key].checksum
    {
      if c.mem.parts[key].link.Some? {
        assert LinkSound(st.store, c.mem.time, key, c.mem.parts[key]);
      }
    }
  }

  class ClickhouseBackup {
    var state: State
    const faults: nat -> Fault
    var ops: nat
    ghost var steps: seq<Step>

    /** The state is the result of a run from an empty storage, so everything proved about runs holds of it. */
    ghost predicate Valid()
      reads this
    {
      IsRun(EMPTY, steps) && RunTo(EMPTY, steps) == state
    }

    /** Every storage operation goes well. */
    ghost predicate NoFaults() {
      forall n :: faults(n) == Fine
    }

    /** From the n-th storage operation on every one goes well. */
    ghost predicate FineFrom(n: nat) {
      forall k | k >= n :: faults(k) == Fine
    }

    /** The operation just made raised. */
    predicate JustRaised()
      reads this
    {
      ops > 0 && faults(ops - 1) == Raises
    }

    constructor (faults: nat -> Fault)
      ensures Valid() && state == EMPTY
    {
      this.faults := faults;
      state, ops, steps := EMPTY, 0, [];
    }

    /** One storage operation. A raised one changes nothing; a kill ends the process, and with it the command. */
    method Perform(step: Step) returns (outcome: Outcome)
      requires Valid() && Enabled(state, step)
      modifies this
      ensures Valid()
      ensures outcome == Done ==> state == Apply(old(state), step)
      ensures outcome == Raised ==> state == old(state)
      ensures outcome == Killed ==> state == old(state).(control := Idle)
      ensures !Begins(step) ==> Continues(old(steps), steps)
      ensures ops == old(ops) + 1
      ensures faults(old(ops)) == match outcome case Done => Fine case Raised => Raises case Killed => Kills
    {
      var fault := faults(ops);
      ops := ops + 1;
      match fault {
        case Fine =>
          Take(step);
          outcome := Done;
        case Raises =>
          outcome := Raised;
        case Kills =>
          Take(Stop);
          outcome := Killed;
      }
    }

    method Take(step: Step)
      requires Valid() && Enabled(state, step)
      modifies this
      ensures Valid() && state == Apply(old(state), step) && ops == old(ops) && steps == old(steps) + [step]
    {
      RunSnoc(EMPTY, steps, step);
      steps := steps + [step];
      state := Apply(state, step);
    }

    /** upload_backup_metadata with state DELETING. */
    method UploadDeleting() returns (outcome: Outcome)
      requires Valid() && InHand(state.control) && state.control.stage == Waiting &&
               Head(state.control) in state.store.full
      modifies this
      ensures Valid()
      ensures outcome == Done ==>
                var b := Head(old(state.control));
                var mem := old(state).store.full[b].(state := Deleting);
                && state.control == old(state.control).(stage := Dropping(mem))
                && b in state.store.full && state.store.full[b] == mem
                && b in state.store.light && state.store.light[b] == LightMeta(Deleting, mem.time, mem.schemaOnly)
      ensures outcome == Killed ==> state.control == Idle
      ensures outcome == Raised ==> state.control.Delete?
      ensures Continues(old(steps), steps)
      ensures NoFaults() ==> outcome == Done
    {
      outcome := Perform(MarkFull);
      if outcome == Done {
        outcome := Perform(MarkLight);
      }
    }

    /** One deletion of an object. */
    method DropOne(item: Item) returns (outcome: Outcome)
      requires Valid() && InHand(state.control) && EnabledDelete(state.store, state.control, Drop(item))
      modifies this
      ensures Valid()
      ensures outcome != Killed ==> state.control == old(state.control) && Shrinks(old(state).store, state.store)
      ensures outcome != Killed && item.DataObject? ==>
                state.store.full == old(state).store.full && state.store.light == old(state).store.light
      ensures outcome == Done ==> Absent(state.store, Head(state.control), item)
      ensures outcome == Killed ==> state.control == Idle
      ensures Continues(old(steps), steps)
      ensures NoFaults() ==> outcome == Done
    {
      outcome := Perform(Drop(item));
    }

    /** Schedules the deletion of objects and waits; the order in which the pool gets to them is open. */
    method DropItems(items: set<Item>) returns (outcome: Outcome)
      requires Valid() && InHand(state.control)
      requires forall item <- items :: MayDrop(state.control, item)
      modifies this
      ensures Valid()
      ensures outcome != Killed ==> state.control == old(state.control) && Shrinks(old(state).store, state.store)
      ensures outcome != Killed && DataOnly(items) ==>
                state.store.full == old(state).store.full && state.store.light == old(state).store.light
      ensures outcome == Done ==> AllAbsent(state.store, Head(old(state).control), items)
      ensures outcome == Killed ==> state.control == Idle
      ensures Continues(old(steps), steps)
      ensures NoFaults() ==> outcome == Done
    {
      var rest := items;
      outcome := Done;
      while rest != {}
        invariant rest <= items && outcome != Killed && (NoFaults() ==> outcome == Done)
        invariant Valid() && state.control == old(state).control
        invariant Continues(old(steps), steps)
        invariant Shrinks(old(state).store, state.store)
        invariant DataOnly(items) ==>
                    state.store.full == old(state).store.full && state.store.light == old(state).store.light
        invariant outcome == Done ==> AllAbsent(state.store, Head(old(state).control), items - rest)
      {
        var item :| item in rest;
        ghost var before := state.store;
        var one := DropOne(item);
        if one == Killed {
          return Killed;
        }
        if one == Raised {
          outcome := Raised;
        } else if outcome == Done {
          StayAbsent(before, state.store, Head(old(state).control), items - rest);
        }
        rest := rest - {item};
      }
    }

    /** A call that touches no part of the storage: listing a prefix, system_unfreeze. */
    method Call() returns (outcome: Outcome)
      requires Valid()
      modifies this
      ensures Valid()
      ensures state == if outcome == Killed then old(state).(control := Idle) else old(state)
      ensures Continues(old(steps), steps)
      ensures NoFaults() ==> outcome == Done
    {
      var fault := faults(ops);
      ops := ops + 1;
      match fault {
        case Fine => outcome := Done;
        case Raises => outcome := Raised;
        case Kills =>
          Take(Stop);
          outcome := Killed;
      }
    }

    /** The branch of _delete for a backup that no retained backup links to. */
    method DeleteWhole() returns (outcome: Outcome)
      requires Valid() && InHand(state.control) && state.control.stage.Dropping?
      requires Kept(state.control, Head(state.control)) == {}
      modifies this
      ensures Valid()
      ensures outcome == Done ==>
                state.control == old(state.control).(done := old(state.control).done + 1, stage := Waiting)
      ensures outcome == Done ==> NothingLeft(state.store, Head(old(state.control)))
      ensures outcome == Killed ==> state.control == Idle
      ensures Continues(old(steps), steps)
      ensures NoFaults() ==> outcome == Done
    {
      ghost var before := state.store;
      var b := Head(state.control);
      outcome := DropItems(Everything(state.store, b));
      if outcome != Done {
        return;
      }
      outcome := Call();
      if outcome != Done {
        return;
      }
      EverythingGone(before, state.store, b);
      Take(DroppedAll);
    }

    /** The loop over databases and tables: the objects scheduled for deletion and the parts that leave the metadata. */
    method DeleteDataParts(mem: BackupMeta, kept: set<PartKey>)
      returns (outcome: Outcome, removed: set<PartKey>, scheduled: set<Item>)
      requires Valid()
      modifies this
      ensures Valid()
      ensures state == if outcome == Killed then old(state).(control := Idle) else old(state)
      ensures Continues(old(steps), steps)
      ensures removed <= mem.parts.Keys - kept && scheduled == OwnItems(mem, removed)
      ensures outcome == Done ==> removed == mem.parts.Keys - kept
      ensures NoFaults() ==> outcome == Done
    {
      outcome, removed, scheduled := Done, {}, {};
      var tables := set key <- mem.parts :: TableKey(key.db, key.table);
      while tables != {}
        invariant Valid() && state == old(state) && outcome == Done && Continues(old(steps), steps)
        invariant removed <= mem.parts.Keys - kept && scheduled == OwnItems(mem, removed)
        invariant forall key <- mem.parts.Keys - kept :: key in removed || TableKey(key.db, key.table) in tables
      {
        outcome := Call();
        if outcome != Done {
          return;
        }
        var table :| table in tables;
        var parts := set key <- mem.parts | TableKey(key.db, key.table) == table && key !in kept;
        scheduled := scheduled + OwnItems(mem, parts);
        removed := removed + parts;
        tables := tables - {table};
      }
    }

    /** The branch of _delete for a backup some of whose parts must stay. */
    method DeletePartially() returns (outcome: Outcome)
      requires Valid() && InHand(state.control) && state.control.stage.Dropping?
      requires Kept(state.control, Head(state.control)) != {}
      requires StoredAs(state.store, Head(state.control), state.control.stage.mem)
      modifies this
      ensures Valid()
      ensures outcome != Killed ==>
                var c := old(state.control);
                || StoredAs(state.store, Head(c), c.stage.mem)
                || CutDown(state.store, Head(c), c.stage.mem, Kept(c, Head(c)))
      ensures outcome == Done ==>
                var c := old(state.control);
                && state.control == c.(done := c.done + 1, stage := Waiting)
                && StoredAs(state.store, Head(c), Trim(c.stage.mem, c.stage.mem.parts.Keys - Kept(c, Head(c))))
      ensures outcome == Killed ==> state.control == Idle
      ensures Continues(old(steps), steps)
      ensures NoFaults() ==> outcome == Done
    {
      var c := state.control;
      var body, removed, scheduled := DeleteDataParts(c.stage.mem, Kept(c, Head(c)));
      if body == Killed {
        return Killed;
      }
      if body == Done {
        body := Call();
        if body == Killed {
          return Killed;
        }
      }
      outcome := FinishPartially(removed, scheduled);
      if outcome == Done && body == Raised {
        outcome := Raised;
      }
    }

    /** The `finally` part: wait, then upload the metadata whatever happened to the tables. */
    method FinishPartially(removed: set<PartKey>, scheduled: set<Item>) returns (outcome: Outcome)
      requires Valid() && InHand(state.control) && state.control.stage.Dropping?
      requires Kept(state.control, Head(state.control)) != {}
      requires StoredAs(state.store, Head(state.control), state.control.stage.mem)
      requires removed <= state.control.stage.mem.parts.Keys - Kept(state.control, Head(state.control))
      requires scheduled == OwnItems(state.control.stage.mem, removed)
      modifies this
      ensures Valid()
      ensures outcome != Killed ==>
                var c := old(state.control);
                || StoredAs(state.store, Head(c), c.stage.mem)
                || CutDown(state.store, Head(c), c.stage.mem, Kept(c, Head(c)))
      ensures outcome == Done ==>
                var c := old(state.control);
                && StoredAs(state.store, Head(c), Trim(c.stage.mem, removed))
                && (removed == c.stage.mem.parts.Keys - Kept(c, Head(c)) ==>
                      state.control == c.(done := c.done + 1, stage := Waiting))
      ensures outcome == Killed ==> state.control == Idle
      ensures Continues(old(steps), steps)
      ensures NoFaults() ==> outcome == Done
    {
      ghost var c := state.control;
      outcome := DropItems(scheduled);
      if outcome == Done {
        OwnItemsGone(state.store, Head(c), c.stage.mem, removed);
        outcome := Perform(TrimFull(removed));
        if outcome == Done {
          outcome := Perform(TrimLight);
        }
      }
    }

    /** _delete for the next backup of the list. */
    method DeleteOne() returns (outcome: Outcome)
      requires Valid() && InHand(state.control) && state.control.stage == Waiting
      modifies this
      ensures Valid()
      ensures outcome == Done ==> state.control == old(state.control).(done := old(state.control).done + 1)
      ensures outcome == Done ==> Head(old(state.control)) in old(state).control.start.full
      ensures outcome == Done ==>
                var b, kept := Head(old(state.control)), Kept(old(state.control), Head(old(state.control)));
                if kept == {} then NothingLeft(state.store, b)
                else
                  && b in old(state).store.full
                  && var mem := old(state).store.full[b].(state := Deleting);
                     StoredAs(state.store, b, Trim(mem, mem.parts.Keys - kept))
      ensures outcome == Killed ==> state.control == Idle
      ensures Continues(old(steps), steps)
      ensures NoFaults() && Head(old(state.control)) in old(state).store.full ==> outcome == Done
    {
      var b := Head(state.control);
      if b !in state.store.full {
        return Raised;
      }
      HeadWasStored(steps, state);
      outcome := UploadDeleting();
      if outcome != Done {
        return;
      }
      if Kept(state.control, b) == {} {
        outcome := DeleteWhole();
      } else {
        outcome := DeletePartially();
      }
    }

    /** The common end of both commands: the references, then the backups one by one, newest first. */
    method DeleteAll(deleting: seq<string>, retained: seq<string>) returns (result: CommandResult)
      requires Valid() && state.control == Idle && NewestFirst(state.store, deleting)
      requires forall b :: b in retained <==> b in state.store.light && b !in deleting
      modifies this
      ensures Valid() && state.control == Idle
      ensures result == Completed || result == Failed || result == Dead
      ensures result == Completed ==> WorkedThrough(old(state).store, deleting, state.store)
      ensures result == Completed ==> old(state).store.light.Keys <= old(state).store.full.Keys
      ensures (exists b <- retained :: b !in old(state).store.full) ==> result == Failed && state == old(state)
      ensures forall b | Listed(old(state).store, b) && b !in deleting :: Intact(old(state).store, state.store, b)
      ensures NoFaults() && old(state).store.light.Keys <= old(state).store.full.Keys ==> result == Completed
    {
      if exists b <- retained :: b !in state.store.full {
        return Failed;
      }
      var refs := CollectRefs(state.store, retained, deleting);
      Take(BeginDelete(deleting));
      assert state.control.refs == refs;
      ghost var begun := steps;
      result := DeleteInTurn();
      ContinuedUnderway(begun, steps);
      UnderwayRetains(old(state).store, deleting, state.store);
      if result == Completed {
        NoneMissing(old(state).store, deleting, retained);
      }
    }

    method DeleteInTurn() returns (result: CommandResult)
      requires Valid() && state.control.Delete? && state.control.done == 0 && state.control.stage == Waiting
      modifies this
      ensures Valid() && state.control == Idle
      ensures result == Completed || result == Failed || result == Dead
      ensures result == Completed ==>
                var c := old(state).control;
                WorkedThrough(c.start, c.order, state.store) && AllStored(c.start, c.order, |c.order|)
      ensures Continues(old(steps), steps)
      ensures var c := old(state).control;
              NoFaults() && AllStored(c.start, c.order, |c.order|) ==> result == Completed
    {
      var c := state.control;
      for i := 0 to |c.order|
        invariant Valid() && state.control == c.(done := i)
        invariant AllStored(c.start, c.order, i)
        invariant Continues(old(steps), steps)
      {
        HeadWasStored(steps, state);
        var outcome := DeleteOne();
        if outcome == Killed {
          return Dead;
        }
        if outcome == Raised {
          Take(Stop);
          return Failed;
        }
      }
      RunWorkedThrough(steps, state);
      Take(Stop);
      result := Completed;
    }

    method Delete(name: string, purgePartial: bool) returns (result: CommandResult, deleting: seq<string>)
      requires Valid() && state.control == Idle
      modifies this
      ensures Valid() && state.control == Idle
      ensures result == NotFound <==> name !in old(state).store.light
      ensures result == NotFound ==> state == old(state)
      ensures forall b :: b in deleting <==> ToDelete(old(state).store, name, purgePartial, b)
      ensures result == Completed ==> WorkedThrough(old(state).store, deleting, state.store)
      ensures result == Completed ==> old(state).store.light.Keys <= old(state).store.full.Keys
      ensures forall b | Listed(old(state).store, b) && b !in deleting :: Intact(old(state).store, state.store, b)
      ensures NoFaults() ==>
                (result == Completed <==>
                   name in old(state).store.light && old(state).store.light.Keys <= old(state).store.full.Keys)
    {
      RunTimesAgree(steps, state);
      var listing := ListBackups(state.store);
      var found, retained;
      found, deleting, retained := SelectForDelete(state.store, listing, name, purgePartial);
      DeleteSelects(state.store, listing, name, purgePartial, deleting, retained);
      if !found {
        return NotFound, deleting;
      }
      result := DeleteAll(deleting, retained);
    }

    /** delete_backup for a backup nobody links to, before anything has been chosen. */
    method DeleteStray(b: string) returns (outcome: Outcome)
      requires Valid() && state.control == Idle && Unreferenced(state.store, b)
      modifies this
      ensures Valid() && state.control == Idle
      ensures outcome == Done ==> state.store == Without(old(state).store, {b})
      ensures Without(state.store, {b}) == Without(old(state).store, {b})
      ensures NoFaults() ==> outcome == Done
    {
      ghost var before := state.store;
      var rest := Everything(state.store, b);
      SheddingStart(before, b);
      outcome := Done;
      while rest != {}
        invariant Valid() && state.control == Idle && outcome == Done
        invariant Shedding(before, state.store, b, rest)
        invariant Without(state.store, {b}) == Without(before, {b})
      {
        var item :| item in rest;
        StrayFilesApart(state.store, {b}, b, item);
        SheddingUnreferenced(before, state.store, b, rest);
        SheddingStep(before, state.store, b, rest, item);
        outcome := Perform(DropStray(b, item));
        if outcome != Done {
          return;
        }
        rest := rest - {item};
      }
      SheddingDone(before, state.store, b);
    }

    /**
     * The part of the loop that does not keep or choose: listed backups that are not among the names read before the
     * lock go, whatever their links; the first other one raises if there is no count to compare.
     */
    method DeleteStrays(listing: seq<string>, early: set<string>, counted: bool)
      returns (outcome: Outcome, typeError: bool)
      requires Valid() && state.control == Idle && Sound(state.store) && StraysUnlinked(state.store, early)
      requires NewestFirst(state.store, listing) && forall b :: b in listing <==> b in state.store.light
      modifies this
      ensures Valid() && state.control == Idle
      ensures outcome == Done && typeError ==>
                !counted && state.store == Without(old(state).store, LeadingStrays(old(state).store, early))
      ensures outcome == Done && !typeError ==> state.store == Known(old(state).store, early)
      ensures outcome == Done ==> (typeError <==> !counted && exists b <- listing :: b in early)
      ensures Without(state.store, Strays(old(state).store, early)) == Known(old(state).store, early)
      ensures NoFaults() || Strays(old(state).store, early) == {} ==> outcome == Done
    {
      ghost var before := state.store;
      outcome, typeError := Done, false;
      WithoutNone(before);
      for i := 0 to |listing|
        invariant Valid() && state.control == Idle && outcome == Done
        invariant state.store == Without(before, StraysAmong(listing, i, early))
        invariant Without(state.store, Strays(before, early)) == Known(before, early)
        invariant !counted ==> forall j | 0 <= j < i :: listing[j] !in early
      {
        if listing[i] in early && !counted {
          StraysLead(before, listing, i, early);
          return Done, true;
        }
        outcome := NextListed(before, listing, i, early);
        if outcome != Done {
          return;
        }
      }
      AllStrays(before, listing, early);
    }

    method NextListed(ghost before: Store, listing: seq<string>, i: nat, early: set<string>) returns (outcome: Outcome)
      requires Valid() && state.control == Idle && Sound(before) && StraysUnlinked(before, early)
      requires NewestFirst(before, listing) && forall b :: b in listing <==> b in before.light
      requires i < |listing| && state.store == Without(before, StraysAmong(listing, i, early))
      modifies this
      ensures Valid() && state.control == Idle
      ensures outcome == Done ==> state.store == Without(before, StraysAmong(listing, i + 1, early))
      ensures Without(state.store, Strays(before, early)) == Known(before, early)
      ensures NoFaults() || Strays(before, early) == {} ==> outcome == Done
    {
      outcome := Done;
      if listing[i] in early {
        NextKnown(before, listing, i, early);
      } else {
        NextStray(before, listing, i, early);
        outcome := DeleteStray(listing[i]);
        KnownStaysApart(before, listing, i, early, state.store);
      }
    }

    /**
     * `purge`. `early` is what get_backup_names found before the lock was taken: a backup listed since is deleted
     * whole, whatever the policy says.
     */
    method Purge(early: set<string>, retainCount: Option<int>, retainLimit: Option<nat>)
      returns (result: CommandResult, deleting: seq<string>)
      requires Valid() && state.control == Idle && StraysUnlinked(state.store, early)
      modifies this
      ensures Valid() && state.control == Idle
      ensures result == NoPolicy <==> retainCount == None && retainLimit == None
      ensures result == NoPolicy ==> state == old(state)
      ensures result == TypeError ==>
                retainCount == None && state.store == Without(old(state).store, LeadingStrays(old(state).store, early))
      ensures NoFaults() || Strays(old(state).store, early) == {} ==>
                (result == TypeError <==>
                   retainCount == None && retainLimit.Some? && Known(old(state).store, early).light.Keys != {})
      ensures result == Completed && retainCount.Some? ==>
                forall b :: b in deleting <==>
                  ToPurge(Known(old(state).store, early), retainCount.value, retainLimit, b)
      ensures result == Completed ==>
                && WorkedThrough(Known(old(state).store, early), deleting, state.store)
                && forall b <- old(state).store.light | b !in deleting :: b in state.store.light <==> b in early
      ensures forall b | Listed(old(state).store, b) && b in early && b !in deleting ::
                Intact(old(state).store, state.store, b)
      ensures result == Completed ==> Known(old(state).store, early).light.Keys <= old(state).store.full.Keys
      ensures NoFaults() ==>
                (result == Completed <==>
                   && (retainCount.Some? || (retainLimit.Some? && Known(old(state).store, early).light.Keys == {}))
                   && Known(old(state).store, early).light.Keys <= old(state).store.full.Keys)
    {
      deleting := [];
      if retainLimit == None && retainCount == None {
        return NoPolicy, deleting;
      }
      RunSound(steps, state);
      ghost var before := state.store;
      var listing := ListBackups(state.store);
      SomeKnownIff(before, listing, early);
      var outcome, typeError := DeleteStrays(listing, early, retainCount.Some?);
      KnownIntact(before, early, state.store);
      if outcome != Done {
        return if outcome == Killed then Dead else Failed, deleting;
      }
      if typeError {
        return TypeError, deleting;
      }
      var known := FilterKnown(before, listing, early);
      result, deleting := PurgeKnown(known, retainCount, retainLimit);
      RetainedKnown(before, early, deleting, state.store);
      if result == Completed {
        forall b <- before.light | b !in deleting
          ensures b in state.store.light <==> b in early
        {
          RetainedIffKnown(before, early, deleting, state.store, b);
        }
      }
    }

    /** The policy, and the deletions it asks for. */
    method PurgeKnown(listing: seq<string>, retainCount: Option<int>, retainLimit: Option<nat>)
      returns (result: CommandResult, deleting: seq<string>)
      requires Valid() && state.control == Idle && (retainCount.Some? || state.store.light.Keys == {})
      requires NewestFirst(state.store, listing) && forall b :: b in listing <==> b in state.store.light
      modifies this
      ensures Valid() && state.control == Idle
      ensures result == Completed || result == Failed || result == Dead
      ensures retainCount.Some? ==> forall b :: b in deleting <==>
              ToPurge(old(state).store, retainCount.value, retainLimit, b)
      ensures result == Completed ==> WorkedThrough(old(state).store, deleting, state.store)
      ensures result == Completed ==> old(state).store.light.Keys <= old(state).store.full.Keys
      ensures forall b | Listed(old(state).store, b) && b !in deleting :: Intact(old(state).store, state.store, b)
      ensures NoFaults() && old(state).store.light.Keys <= old(state).store.full.Keys ==> result == Completed
    {
      var retained;
      var count := if retainCount.Some? then retainCount.value else 0;
      deleting, retained := SelectForPurge(state.store, listing, count, retainLimit);
      PurgeSelects(state.store, listing, count, retainLimit, deleting, retained);
      result := DeleteAll(deleting, retained);
    }

    /** upload_backup_metadata while a backup is being made. */
    method SaveMetadata() returns (outcome: Outcome)
      requires Valid() && state.control.Backup?
      modifies this
      ensures Valid()
      ensures outcome == Killed ==> state.control == Idle
      ensures outcome != Killed ==>
                state.control.Backup? && state.control == old(state.control).(published := state.control.published)
      ensures OthersSame(old(state).store, state.store, old(state.control.name))
      ensures outcome == Done ==>
                var c := state.control;
                && c.name in state.store.full && state.store.full[c.name] == c.mem
                && c.name in state.store.light
                && state.store.light[c.name] == LightMeta(c.mem.state, c.mem.time, c.mem.schemaOnly)
      ensures NotCreated(old(state).store, old(state.control.name)) &&
              (outcome != Done || old(state.control.mem.state) != Created) ==>
                NotCreated(state.store, old(state.control.name))
      ensures old(ops) <= ops <= old(ops) + 2
      ensures FineFrom(old(ops)) ==> outcome == Done
      ensures outcome == Raised ==> JustRaised()
    {
      outcome := Perform(SaveFull);
      if outcome == Done {
        outcome := Perform(SaveLight);
      }
    }

    /** One piece of work. */
    method DoWork(w: Work) returns (outcome: Outcome)
      requires Valid() && state.control.Backup? && Fit(state.store, state.control.window, w)
      requires !w.Checkpoint? ==> w.key !in state.control.mem.parts
      modifies this
      ensures Valid()
      ensures outcome == Killed ==> state.control == Idle
      ensures outcome != Killed ==>
                && state.control.Backup? && state.control.name == old(state.control.name)
                && state.control.window == old(state.control.window)
                && state.control.mem.(parts := map[]) == old(state.control.mem).(parts := map[])
      ensures OthersSame(old(state).store, state.store, old(state.control.name))
      ensures outcome == Done ==>
                state.control.mem.parts
                == if w.Checkpoint? then old(state.control.mem.parts)
                   else old(state.control.mem.parts)[w.key := PartOf(old(state).store, old(state.control.window), w)]
      ensures NotCreated(old(state).store, old(state.control.name)) && old(state.control.mem.state) != Created ==>
                NotCreated(state.store, old(state.control.name))
      ensures NoFaults() ==> outcome == Done
      ensures outcome == Raised ==> JustRaised()
    {
      match w {
        case StorePart(key, part) =>
          outcome := Perform(UploadPart(key, Blob(part.checksum, part.size)));
          if outcome == Done {
            Take(AddOwn(key, part));
          }
        case LinkPart(key, donor, donorKey) =>
          Take(AddLink(key, donor, donorKey));
          outcome := Done;
        case Checkpoint =>
          outcome := SaveMetadata();
      }
    }

    /** The body of the try block: the work piece by piece, until one raises. */
    method DoAll(ghost start: Store, work: seq<Work>) returns (outcome: Outcome)
      requires Valid() && state.control.Backup? && state.control.name !in state.control.window
      requires OthersSame(start, state.store, state.control.name) && state.control.mem.parts == map[]
      requires AllFit(start, state.control.window, work) && KeysDistinct(work)
      modifies this
      ensures Valid()
      ensures outcome == Killed ==> state.control == Idle
      ensures outcome != Killed ==>
                && state.control.Backup? && state.control.name == old(state.control.name)
                && state.control.mem.(parts := map[]) == old(state.control.mem).(parts := map[])
      ensures OthersSame(start, state.store, old(state.control.name))
      ensures NotCreated(old(state).store, old(state.control.name)) && old(state.control.mem.state) != Created ==>
                NotCreated(state.store, old(state.control.name))
      ensures outcome == Raised ==> JustRaised()
      ensures outcome == Done ==> DoneWork(start, old(state.control.window), work, |work|, state.control.mem.parts)
      ensures NoFaults() ==> outcome == Done
    {
      ghost var name, window := state.control.name, state.control.window;
      for i := 0 to |work|
        invariant Valid() && state.control.Backup? && state.control.name == name && state.control.window == window
        invariant OthersSame(start, state.store, name)
        invariant state.control.mem.(parts := map[]) == old(state.control.mem).(parts := map[])
        invariant NotCreated(old(state).store, name) && old(state.control.mem.state) != Created ==>
                    NotCreated(state.store, name)
        invariant DoneWork(start, window, work, i, state.control.mem.parts)
      {
        ghost var before := state.control.mem.parts;
        FitStays(start, state.store, name, window, work[i]);
        WorkIsNew(start, window, work, i, before);
        outcome := DoWork(work[i]);
        if outcome != Done {
          return;
        }
        MoreWork(start, window, work, i, before, state.control.mem.parts);
      }
      outcome := Done;
    }

    /** The end of `backup`: the final state, and the metadata once more. */
    method Finish(final: BackupState) returns (result: CommandResult)
      requires Valid() && state.control.Backup?
      modifies this
      ensures Valid() && state.control == Idle
      ensures result == Completed || result == Failed || result == Dead
      ensures OthersSame(old(state).store, state.store, old(state.control.name))
      ensures result == Completed ==>
                var c := old(state.control);
                && final == Created && Listed(state.store, c.name)
                && state.store.full[c.name] == c.mem.(state := final) && PartsStored(state.store, c.name)
      ensures result == Completed || FineFrom(old(ops)) ==>
                ShownAs(state.store, old(state.control.name), old(state.control.mem).(state := final))
      ensures FineFrom(old(ops)) ==> result == if final == Created then Completed else Failed
      ensures result != Completed && NotCreated(old(state).store, old(state.control.name)) ==>
                NotCreated(state.store, old(state.control.name))
      ensures ops >= old(ops)
    {
      Take(SetState(final));
      var outcome := SaveMetadata();
      if outcome == Killed {
        return Dead;
      }
      if outcome == Done {
        RunPartsStored(steps, state);
      }
      Take(Stop);
      result := if outcome == Done && final == Created then Completed else Failed;
    }

    /** The metadata first, the work, and the end of `backup` whatever has become of the work. */
    method Make(ghost start: Store, work: seq<Work>)
      returns (result: CommandResult, ghost worked: Option<Outcome>, ghost finishing: nat)
      requires Valid() && state.control.Backup? && state.control.name !in state.control.window && state.store == start
      requires state.control.mem.parts == map[] && state.control.mem.state != Created
      requires AllFit(start, state.control.window, work) && KeysDistinct(work) && state.control.name !in start.light
      modifies this
      ensures Valid() && state.control == Idle
      ensures result == Completed || result == Failed || result == Dead
      ensures OthersSame(start, state.store, old(state.control.name))
      ensures result == Completed ==>
                var c := old(state.control);
                && ShownAs(state.store, c.name, c.mem.(state := Created)) && PartsStored(state.store, c.name)
                && DoneWork(start, c.window, work, |work|, state.store.full[c.name].parts)
      ensures NoFaults() ==> result == Completed
      ensures result != Completed ==> NotCreated(state.store, old(state.control.name))
      ensures worked == None ==> result != Completed && ops <= old(ops) + 2
      ensures worked == Some(Killed) ==> result == Dead
      ensures worked == Some(Done) && FineFrom(finishing) ==> result == Completed
      ensures worked == Some(Raised) ==> 0 < finishing <= ops && faults(finishing - 1) == Raises
      ensures worked == Some(Raised) && FineFrom(finishing) ==>
                && result == Failed
                && ShownAs(state.store, old(state.control.name), old(state.control.mem).(state := Broken))
    {
      worked, finishing := None, 0;
      var outcome := SaveMetadata();
      if outcome == Done {
        outcome := DoAll(start, work);
        worked, finishing := Some(outcome), ops;
        if outcome != Killed {
          result := Finish(if outcome == Done then Created else Broken);
          return;
        }
      }
      if outcome == Killed {
        result := Dead;
        return;
      }
      Take(Stop);
      result := Failed;
    }

    /**
     * `backup`: metadata first, then the parts, then the metadata again with the final state, whether that is CREATED
     * or FAILED. `time` is the start time, later than that of any listed backup. `seen` is the listing made before the
     * lock was taken; backups may have come, gone and changed since.
     */
    method Backup(name: string, hostname: string, time: nat, schemaOnly: bool, ageLimit: Option<nat>, work: seq<Work>,
                  seen: map<string, LightMeta>)
      returns (result: CommandResult, ghost worked: Option<Outcome>, ghost finishing: nat)
      requires Valid() && state.control == Idle
      requires forall b <- state.store.light :: state.store.light[b].time < time
      requires TimesDistinct(seen) && NoOrphans(state.store, seen.Keys) && (name in state.store.light ==> name in seen)
      requires AllFit(state.store, DedupWindow(seen, ageLimit), work) && KeysDistinct(work)
      modifies this
      ensures Valid() && state.control == Idle
      ensures result == AlreadyExists <==> name in seen
      ensures result == AlreadyExists ==> state == old(state)
      ensures OthersSame(old(state).store, state.store, name)
      ensures result == Completed ==>
                && name in state.store.light && state.store.light[name] == LightMeta(Created, time, schemaOnly)
                && name in state.store.full && state.store.full[name].state == Created
                && state.store.full[name].time == time && state.store.full[name].hostname == hostname
                && state.store.full[name].schemaOnly == schemaOnly
                && DoneWork(old(state).store, DedupWindow(seen, ageLimit), work, |work|, state.store.full[name].parts)
                && PartsStored(state.store, name)
      ensures NoFaults() ==> (result == Completed <==> name !in seen)
      ensures result == Failed || result == Dead ==> NotCreated(state.store, name)
      // `worked` is what became of the work, if it was begun; the last save starts with the operation `finishing`
      ensures worked == None ==> result == AlreadyExists || (result != Completed && ops <= old(ops) + 2)
      ensures worked == Some(Killed) ==> result == Dead
      ensures worked == Some(Done) && FineFrom(finishing) ==> result == Completed
      ensures worked == Some(Raised) ==> 0 < finishing <= ops && faults(finishing - 1) == Raises
      ensures worked == Some(Raised) && FineFrom(finishing) ==>
                && result == Failed
                && name in state.store.light && state.store.light[name] == LightMeta(Broken, time, schemaOnly)
                && name in state.store.full && state.store.full[name].state == Broken
    {
      worked, finishing := None, 0;
      var taken, names := LookAround(name, seen, ageLimit);
      if taken {
        result := AlreadyExists;
        return;
      }
      ghost var start := state.store;
      Take(BeginBackup(name, hostname, time, schemaOnly, names));
      result, worked, finishing := Make(start, work);
    }
  }
}
