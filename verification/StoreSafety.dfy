/** What every step of StoreMachine keeps, and what a finished deletion has kept and removed. */
module StoreSafety {
  import opened Bytes
  import opened BackupStore
  import opened StoreMachine

  // ---------- while a backup is being made

  /** The metadata in memory is sound for upload at any moment. */
  ghost predicate MemSound(s: Store, c: Control)
    requires c.Backup?
  {
    && (forall key | key in c.mem.parts &&
        c.mem.parts[key].link.Some? :: LinkSound(s, c.mem.time, key, c.mem.parts[key]))
    && (forall key | key in c.mem.parts && c.mem.parts[key].link == None ::
          && key in c.uploaded && c.uploaded[key].checksum == c.mem.parts[key].checksum
          && c.mem.parts[key].linkPart == None)
    && (forall key <- c.uploaded ::
          ObjectKey(c.name, key) in s.objects && s.objects[ObjectKey(c.name, key)] == c.uploaded[key])
  }

  ghost predicate BackupInv(s: Store, c: Control)
    requires c.Backup?
  {
    && Sound(s)
    && NoOrphans(s, c.window) && c.name !in c.window
    && (forall b | b in s.light && b != c.name :: s.light[b].time < c.mem.time)
    && (c.name in s.light ==> c.published && s.light[c.name].time == c.mem.time)
    && (c.published ==>
          && c.name in s.full && s.full[c.name].time == c.mem.time
          && forall key <- s.full[c.name].parts :: key in c.mem.parts && s.full[c.name].parts[key] == c.mem.parts[key])
    && MemSound(s, c)
  }

  lemma NobodyLinksToNewest(s: Store, c: Control, b: string, key: PartKey)
    requires c.Backup? && BackupInv(s, c)
    requires Listed(s, b) && key in s.full[b].parts && s.full[b].parts[key].link.Some?
    ensures s.full[b].parts[key].link.value != c.name
  {
    assert LinkSound(s, s.full[b].time, key, s.full[b].parts[key]);
  }

  lemma SaveFullKeeps(s: Store, c: Control)
    requires c.Backup? && BackupInv(s, c)
    ensures var n := ApplyBackup(s, c, SaveFull); BackupInv(n.store, n.control)
  {
    var n := s.(full := s.full[c.name := c.mem]);
    forall b, key | Listed(n, b) && key in n.full[b].parts && n.full[b].parts[key].link.Some?
      ensures LinkSound(n, n.full[b].time, key, n.full[b].parts[key])
    {
      if b != c.name {
        NobodyLinksToNewest(s, c, b, key);
        assert LinkSound(s, s.full[b].time, key, s.full[b].parts[key]);
      }
    }
  }

  lemma SaveLightKeeps(s: Store, c: Control)
    requires c.Backup? && BackupInv(s, c) && c.published
    ensures var n := ApplyBackup(s, c, SaveLight); BackupInv(n.store, n.control)
  {
    var n := s.(light := s.light[c.name := LightOf(c.mem)]);
    forall b, key | Listed(n, b) && key in n.full[b].parts && n.full[b].parts[key].link.Some?
      ensures LinkSound(n, n.full[b].time, key, n.full[b].parts[key])
    {
      if b == c.name {
        assert LinkSound(s, c.mem.time, key, c.mem.parts[key]);
      } else {
        assert LinkSound(s, s.full[b].time, key, s.full[b].parts[key]);
      }
    }
  }

  lemma UploadKeeps(s: Store, c: Control, key: PartKey, blob: Blob)
    requires c.Backup? && BackupInv(s, c) && key !in c.mem.parts
    ensures var n := ApplyBackup(s, c, UploadPart(key, blob)); BackupInv(n.store, n.control)
  {
    var n := s.(objects := s.objects[ObjectKey(c.name, key) := blob]);
    forall b, k | Listed(n, b) && k in n.full[b].parts && n.full[b].parts[k].link.Some?
      ensures LinkSound(n, n.full[b].time, k, n.full[b].parts[k])
    {
      NobodyLinksToNewest(s, c, b, k);
      assert LinkSound(s, s.full[b].time, k, s.full[b].parts[k]);
    }
    forall k | k in c.mem.parts && c.mem.parts[k].link.Some?
      ensures LinkSound(n, c.mem.time, k, c.mem.parts[k])
    {
      assert LinkSound(s, c.mem.time, k, c.mem.parts[k]);
    }
  }

  /**
   * Deduplication is sound without looking at linked parts: whatever the state of the donor, as long as it is listed,
   * and however old the window, the new link leads directly to the backup that uploaded the data, under the name it was
   * uploaded with, and the data is there.
   */
  lemma LinkToIsSound(s: Store, window: set<string>, time: nat, key: PartKey, donor: string, donorKey: PartKey)
    requires Sound(s) && Donates(s, window, key, donor, donorKey) && Listed(s, donor) && s.light[donor].time < time
    ensures var part := s.full[donor].parts[donorKey];
            var link := LinkTo(key, donor, donorKey, part);
            && LinkSound(s, time, key, link)
            && Resolve("", key, link) == Resolve(donor, donorKey, part)
            && link.checksum == part.checksum
  {
    var part := s.full[donor].parts[donorKey];
    if part.link.Some? {
      assert LinkSound(s, s.full[donor].time, donorKey, part);
    } else {
      assert donorKey == key.(name := donorKey.name);
      assert Listed(s, donor);
    }
  }

  lemma AddLinkKeeps(s: Store, c: Control, key: PartKey, donor: string, donorKey: PartKey)
    requires c.Backup? && BackupInv(s, c) && key !in c.mem.parts && Donates(s, c.window, key, donor, donorKey)
    ensures var n := ApplyBackup(s, c, AddLink(key, donor, donorKey)); BackupInv(n.store, n.control)
  {
    LinkToIsSound(s, c.window, c.mem.time, key, donor, donorKey);
    var n := ApplyBackup(s, c, AddLink(key, donor, donorKey));
    assert n.store == s;
    LinkedMemSound(s, c, key, LinkTo(key, donor, donorKey, s.full[donor].parts[donorKey]));
  }

  lemma LinkedMemSound(s: Store, c: Control, key: PartKey, link: PartMeta)
    requires c.Backup? && MemSound(s, c) && key !in c.mem.parts
    requires link.link.Some? && LinkSound(s, c.mem.time, key, link)
    ensures MemSound(s, c.(mem := c.mem.(parts := c.mem.parts[key := link])))
  {
  }

  lemma BackupStepKeeps(s: Store, c: Control, step: Step)
    requires c.Backup? && BackupInv(s, c) && EnabledBackup(s, c, step)
    ensures var n := ApplyBackup(s, c, step); n.control.Backup? && BackupInv(n.store, n.control)
  {
    match step
    case SaveFull => SaveFullKeeps(s, c);
    case SaveLight => SaveLightKeeps(s, c);
    case UploadPart(key, blob) => UploadKeeps(s, c, key, blob);
    case AddOwn(_, _) =>
    case AddLink(key, donor, donorKey) => AddLinkKeeps(s, c, key, donor, donorKey);
    case SetState(_) =>
  }

  // ---------- while backups are being deleted

  /** The backups whose deletion has begun in the current command. */
  function Begun(c: Control): seq<string>
    requires c.Delete?
  {
    c.order[..Min(if c.stage == Waiting then c.done else c.done + 1, |c.order|)]
  }

  predicate Touched(c: Control, b: string)
    requires c.Delete?
  {
    b in Begun(c)
  }

  /** Nothing changes for backups whose turn has not come, and no object that is kept ever goes. */
  ghost predicate RestUntouched(s: Store, start: Store, refs: map<string, set<PartKey>>, begun: seq<string>) {
    && s.light.Keys <= start.light.Keys && s.full.Keys <= start.full.Keys
    && (forall b | b !in begun ::
          && (b in s.light <==> b in start.light) && (b in s.light ==> s.light[b] == start.light[b])
          && (b in s.full <==> b in start.full) && (b in s.full ==> s.full[b] == start.full[b]))
    && (forall k <- s.objects :: k in start.objects && s.objects[k] == start.objects[k])
    && (forall k <- start.objects :: k.backup !in begun || (k.backup in refs && k.part in refs[k.backup]) ==>
        k in s.objects)
  }

  /** What is left of the metadata `m` of a backup once `removed` parts are gone. */
  function Trim(m: BackupMeta, removed: set<PartKey>): BackupMeta {
    m.(state := PartiallyDeleted, parts := m.parts - removed)
  }

  /** The own parts among `removed` have no object any more. */
  ghost predicate OwnGone(s: Store, m: BackupMeta, b: string, removed: set<PartKey>) {
    forall k <- removed | k in m.parts && m.parts[k].link == None :: ObjectKey(b, k) !in s.objects
  }

  /** A deleted backup: wiped out, or cut down to the parts that retained backups link to. */
  ghost predicate Deleted(s: Store, start: Store, kept: set<PartKey>, b: string) {
    if kept == {} then NothingLeft(s, b)
    else
      && b in start.light && b in start.full && Listed(s, b) && s.light[b].time == start.light[b].time
      && s.light[b].state == PartiallyDeleted && s.light[b].schemaOnly == start.full[b].schemaOnly
      && s.full[b] == Trim(start.full[b], start.full[b].parts.Keys - kept)
      && OwnGone(s, start.full[b], b, start.full[b].parts.Keys - kept)
  }

  ghost predicate IsDeleted(s: Store, c: Control, b: string)
    requires c.Delete?
  {
    Deleted(s, c.start, Kept(c, b), b)
  }

  ghost predicate MarkedHead(s: Store, start: Store, b: string, mem: BackupMeta)
    requires b in start.full
  {
    mem == start.full[b].(state := Deleting) && (b in s.full ==> s.full[b] == mem)
  }

  ghost predicate TrimmedHead(s: Store, start: Store, kept: set<PartKey>, b: string, mem: BackupMeta, whole: bool)
    requires b in start.full
  {
    && kept != {} && b in s.full && s.full[b] == mem
    && exists removed ::
         && removed <= start.full[b].parts.Keys - kept && mem == Trim(start.full[b], removed)
         && OwnGone(s, start.full[b], b, removed)
         && (whole ==> removed == start.full[b].parts.Keys - kept)
  }

  ghost predicate HeadInv(s: Store, c: Control)
    requires InHand(c) && c.stage != Waiting
  {
    var b := Head(c);
    && b in c.start.light && b in c.start.full
    && (b in s.light ==> s.light[b].time == c.start.light[b].time)
    && (Kept(c, b) != {} ==> Listed(s, b)) && (c.stage.Marking? ==> b in s.light)
    && if c.stage.Trimmed? then TrimmedHead(s, c.start, Kept(c, b), b, c.stage.mem, c.stage.whole)
       else MarkedHead(s, c.start, b, c.stage.mem)
  }

  /** What a deletion sets out from. */
  ghost predicate Planned(start: Store, order: seq<string>) {
    Sound(start) && NewestFirst(start, order) && forall b <- start.light | b !in order :: b in start.full
  }

  ghost predicate DoneDeleted(s: Store, start: Store, order: seq<string>, refs: map<string, set<PartKey>>, done: nat)
    requires done <= |order|
  {
    forall i | 0 <= i < done :: Deleted(s, start, KeptIn(refs, order[i]), order[i])
  }

  ghost predicate DeleteInv(s: Store, c: Control)
    requires c.Delete?
  {
    && Planned(c.start, c.order) && c.done <= |c.order|
    && RestUntouched(s, c.start, c.refs, Begun(c))
    && DoneDeleted(s, c.start, c.order, c.refs, c.done)
    && (c.stage != Waiting ==> InHand(c) && HeadInv(s, c))
  }

  /** The references in hand are those of the retained backups when the command began. */
  ghost predicate RefsCorrect(c: Control)
    requires c.Delete?
  {
    c.refs == CollectReferences(c.start, c.order)
  }

  /** Only own parts are ever kept of a backup that is being deleted. */
  lemma KeptAreOwn(c: Control, b: string, k: PartKey)
    requires c.Delete? && Sound(c.start) && RefsCorrect(c) && k in Kept(c, b)
    ensures Listed(c.start, b) && k in c.start.full[b].parts && c.start.full[b].parts[k].link == None
  {
    ReferencesSound(c.start, set x <- c.order :: x, b, k);
  }

  /** A listed backup has lost parts at most, and none that is kept. */
  ghost predicate Shrunk(s: Store, c: Control, b: string)
    requires c.Delete? && Listed(s, b)
  {
    && Listed(c.start, b) && s.full[b].time == c.start.full[b].time && s.light[b].time == c.start.light[b].time
    && s.full[b].parts.Keys <= c.start.full[b].parts.Keys
    && (forall key <- s.full[b].parts :: s.full[b].parts[key] == c.start.full[b].parts[key])
    && (forall key <- Kept(c, b) :: key in s.full[b].parts)
  }

  /** A finished backup that is still listed has own parts only. */
  lemma FinishedParts(s: Store, c: Control, i: nat)
    requires c.Delete? && DeleteInv(s, c) && RefsCorrect(c) && i < c.done && Listed(s, c.order[i])
    ensures Shrunk(s, c, c.order[i])
    ensures forall key <- s.full[c.order[i]].parts :: s.full[c.order[i]].parts[key].link == None
  {
    var b := c.order[i];
    assert IsDeleted(s, c, b);
    forall key <- Kept(c, b)
      ensures key in c.start.full[b].parts && c.start.full[b].parts[key].link == None
    {
      KeptAreOwn(c, b, key);
    }
  }

  lemma HeadParts(s: Store, c: Control)
    requires InHand(c) && c.stage != Waiting && HeadInv(s, c) && Listed(s, Head(c))
    requires Listed(c.start, Head(c)) && Kept(c, Head(c)) <= c.start.full[Head(c)].parts.Keys
    ensures Shrunk(s, c, Head(c))
  {
  }

  lemma KeptListed(c: Control, b: string)
    requires c.Delete? && Sound(c.start) && RefsCorrect(c) && Listed(c.start, b)
    ensures Kept(c, b) <= c.start.full[b].parts.Keys
  {
    forall key <- Kept(c, b)
      ensures key in c.start.full[b].parts
    {
      KeptAreOwn(c, b, key);
    }
  }

  lemma UntouchedParts(s: Store, c: Control, b: string)
    requires c.Delete? && RestUntouched(s, c.start, c.refs, Begun(c)) && !Touched(c, b) && Listed(s, b)
    requires Listed(c.start, b) ==> Kept(c, b) <= c.start.full[b].parts.Keys
    ensures Shrunk(s, c, b)
  {
  }

  lemma BegunIsFinishedOrHead(c: Control, b: string) returns (i: nat)
    requires c.Delete? && c.done <= |c.order| && Touched(c, b)
    ensures i < |c.order| && c.order[i] == b && (i < c.done || (i == c.done && c.stage != Waiting))
  {
    i :| 0 <= i < |Begun(c)| && Begun(c)[i] == b;
  }

  lemma ListedShrunk(s: Store, c: Control, b: string)
    requires c.Delete? && DeleteInv(s, c) && RefsCorrect(c) && Listed(s, b)
    ensures Shrunk(s, c, b)
  {
    if Touched(c, b) {
      var i := BegunIsFinishedOrHead(c, b);
      if i < c.done {
        FinishedParts(s, c, i);
      } else {
        assert HeadInv(s, c);
        KeptListed(c, b);
        HeadParts(s, c);
      }
    } else {
      if Listed(c.start, b) {
        KeptListed(c, b);
      }
      UntouchedParts(s, c, b);
    }
  }

  /** A link of a backup that is still listed is sound at every moment of the deletion. */
  lemma LinkSurvives(s: Store, c: Control, b: string, key: PartKey)
    requires c.Delete? && DeleteInv(s, c) && RefsCorrect(c)
    requires Listed(s, b) && key in s.full[b].parts && s.full[b].parts[key].link.Some?
    ensures LinkSound(s, s.full[b].time, key, s.full[b].parts[key])
  {
    ListedShrunk(s, c, b);
    var part := c.start.full[b].parts[key];
    var owner, stored := part.link.value, StoredKey(key, part);
    assert LinkSound(c.start, c.start.full[b].time, key, part);
    if b !in c.order {
      if owner in c.order {
        KeptByRetained(c, b, key);
      }
      OwnerStays(s, c, owner, stored);
    } else {
      NewerGoesFirst(s, c, b, key);
      OwnerStays(s, c, owner, stored);
    }
  }

  lemma KeptByRetained(c: Control, b: string, key: PartKey)
    requires c.Delete? && RefsCorrect(c) && Listed(c.start, b) && b !in c.order
    requires key in c.start.full[b].parts && c.start.full[b].parts[key].link.Some?
    requires c.start.full[b].parts[key].link.value in c.order
    ensures StoredKey(key, c.start.full[b].parts[key]) in Kept(c, c.start.full[b].parts[key].link.value)
  {
  }

  /** Of two backups in one deletion the newer goes first: what it links to is untouched while it still has the link. */
  lemma NewerGoesFirst(s: Store, c: Control, b: string, key: PartKey)
    requires c.Delete? && DeleteInv(s, c) && RefsCorrect(c) && b in c.order && Listed(s, b) && Listed(c.start, b)
    requires key in s.full[b].parts && s.full[b].parts[key].link.Some?
    requires Listed(c.start, s.full[b].parts[key].link.value)
    requires c.start.full[s.full[b].parts[key].link.value].time < c.start.full[b].time
    ensures !Touched(c, s.full[b].parts[key].link.value)
  {
    var i :| 0 <= i < |c.order| && c.order[i] == b;
    if i < c.done {
      FinishedParts(s, c, i);
      assert false;
    }
    OlderComesLater(c, i, s.full[b].parts[key].link.value);
  }

  lemma OlderComesLater(c: Control, i: nat, owner: string)
    requires c.Delete? && Sound(c.start) && NewestFirst(c.start, c.order) && c.done <= i < |c.order|
    requires Listed(c.start, owner) && Listed(c.start, c.order[i])
    requires c.start.full[owner].time < c.start.full[c.order[i]].time
    ensures !Touched(c, owner)
  {
    forall j | 0 <= j < |Begun(c)|
      ensures c.order[j] != owner
    {
      OlderLater(c.start, c.order, j, i);
    }
  }

  /** An own part stays listed and stored while its backup is untouched or the part is kept. */
  lemma OwnerStays(s: Store, c: Control, owner: string, stored: PartKey)
    requires c.Delete? && DeleteInv(s, c) && RefsCorrect(c)
    requires !Touched(c, owner) || stored in Kept(c, owner)
    requires Listed(c.start, owner) && stored in c.start.full[owner].parts &&
             ObjectKey(owner, stored) in c.start.objects
    ensures Listed(s, owner) && s.full[owner].time == c.start.full[owner].time
    ensures stored in s.full[owner].parts && s.full[owner].parts[stored] == c.start.full[owner].parts[stored]
    ensures ObjectKey(owner, stored) in s.objects
  {
    if Touched(c, owner) {
      KeptOwnerListed(s, c, owner);
      ListedShrunk(s, c, owner);
    }
  }

  lemma KeptOwnerListed(s: Store, c: Control, owner: string)
    requires c.Delete? && DeleteInv(s, c) && Touched(c, owner) && Kept(c, owner) != {}
    ensures Listed(s, owner)
  {
    var i := BegunIsFinishedOrHead(c, owner);
    if i < c.done {
      assert IsDeleted(s, c, c.order[i]);
    } else {
      assert HeadInv(s, c);
    }
  }

  /** The store is sound at every moment of a deletion. */
  lemma DeleteInvSound(s: Store, c: Control)
    requires c.Delete? && DeleteInv(s, c) && RefsCorrect(c)
    ensures Sound(s)
  {
    forall b, key | Listed(s, b) && key in s.full[b].parts && s.full[b].parts[key].link.Some?
      ensures LinkSound(s, s.full[b].time, key, s.full[b].parts[key])
    {
      LinkSurvives(s, c, b, key);
    }
    forall b | Listed(s, b)
      ensures Listed(c.start, b) && s.full[b].parts.Keys <= c.start.full[b].parts.Keys
      ensures s.full[b].time == c.start.full[b].time && s.light[b].time == c.start.light[b].time
      ensures forall key <- s.full[b].parts :: s.full[b].parts[key] == c.start.full[b].parts[key]
    {
      ListedShrunk(s, c, b);
    }
    TimesSurvive(s, c);
  }

  lemma TimesSurvive(s: Store, c: Control)
    requires c.Delete? && DeleteInv(s, c)
    ensures forall b | b in s.light :: b in c.start.light && s.light[b].time == c.start.light[b].time
  {
    forall b | b in s.light
      ensures b in c.start.light && s.light[b].time == c.start.light[b].time
    {
      if Touched(c, b) {
        BegunTimeSurvives(s, c, b);
      }
    }
  }

  lemma BegunTimeSurvives(s: Store, c: Control, b: string)
    requires c.Delete? && DeleteInv(s, c) && Touched(c, b) && b in s.light
    ensures b in c.start.light && s.light[b].time == c.start.light[b].time
  {
    var i := BegunIsFinishedOrHead(c, b);
    if i < c.done {
      assert IsDeleted(s, c, c.order[i]);
    } else {
      assert HeadInv(s, c);
    }
  }

  // ---------- the deletion steps

  /** Order entries are distinct: a later one is another backup. */
  lemma OrderDistinct(c: Control, i: int, j: int)
    requires c.Delete? && NewestFirst(c.start, c.order) && 0 <= i < j < |c.order|
    ensures c.order[i] != c.order[j]
  {
    assert c.start.light[c.order[i]].time > c.start.light[c.order[j]].time;
  }

  lemma HeadUntouched(c: Control)
    requires InHand(c) && NewestFirst(c.start, c.order) && c.stage == Waiting
    ensures !Touched(c, Head(c))
  {
    forall i | 0 <= i < c.done
      ensures c.order[i] != Head(c)
    {
      OrderDistinct(c, i, c.done);
    }
  }

  /** Work on the backup in hand leaves the finished ones as they are. */
  lemma DoneStay(s: Store, t: Store, c: Control)
    requires InHand(c) && NewestFirst(c.start, c.order) && DoneDeleted(s, c.start, c.order, c.refs, c.done)
    requires forall b | b != Head(c) ::
               && (b in t.light <==> b in s.light) && (b in t.light ==> t.light[b] == s.light[b])
               && (b in t.full <==> b in s.full) && (b in t.full ==> t.full[b] == s.full[b])
    requires t.objects.Keys <= s.objects.Keys
    ensures DoneDeleted(t, c.start, c.order, c.refs, c.done)
  {
    forall i | 0 <= i < c.done
      ensures Deleted(t, c.start, KeptIn(c.refs, c.order[i]), c.order[i])
    {
      OrderDistinct(c, i, c.done);
    }
  }

  lemma MarkFullKeeps(s: Store, c: Control)
    requires InHand(c) && DeleteInv(s, c) && RefsCorrect(c) && EnabledDelete(s, c, MarkFull)
    ensures var n := ApplyDelete(s, c, MarkFull); DeleteInv(n.store, n.control)
  {
    var n := ApplyDelete(s, c, MarkFull);
    HeadUntouched(c);
    DoneStay(s, n.store, c);
    assert Touched(n.control, Head(c));
    forall b | Touched(c, b)
      ensures Touched(n.control, b)
    {
    }
    forall b <- Kept(c, Head(c))
      ensures Listed(s, Head(c))
    {
      KeptAreOwn(c, Head(c), b);
    }
  }

  /** The light metadata of the backup in hand is nothing that the rest or the finished ones depend on. */
  lemma HeadLightChanges(s: Store, c: Control, light: LightMeta)
    requires InHand(c) && DeleteInv(s, c) && c.stage != Waiting
    ensures var n := s.(light := s.light[Head(c) := light]);
            && RestUntouched(n, c.start, c.refs, Begun(c))
            && DoneDeleted(n, c.start, c.order, c.refs, c.done)
  {
    assert Touched(c, Head(c));
    DoneStay(s, s.(light := s.light[Head(c) := light]), c);
  }

  lemma MarkLightKeeps(s: Store, c: Control)
    requires InHand(c) && DeleteInv(s, c) && EnabledDelete(s, c, MarkLight)
    ensures var n := ApplyDelete(s, c, MarkLight); DeleteInv(n.store, n.control)
  {
    var n := ApplyDelete(s, c, MarkLight);
    HeadLightChanges(s, c, LightOf(c.stage.mem));
    assert Begun(n.control) == Begun(c);
    assert HeadInv(n.store, n.control);
  }

  lemma DropKeeps(s: Store, c: Control, item: Item)
    requires InHand(c) && DeleteInv(s, c) && EnabledDelete(s, c, Drop(item))
    ensures var n := ApplyDelete(s, c, Drop(item)); DeleteInv(n.store, n.control)
  {
    var n := ApplyDelete(s, c, Drop(item));
    assert n.control == c;
    DropKeepsRest(s, c, item, n.store);
    DropKeepsDone(s, c, item, n.store);
    DropKeepsHead(s, c, item, n.store);
  }

  lemma DropKeepsRest(s: Store, c: Control, item: Item, t: Store)
    requires InHand(c) && DeleteInv(s, c) && EnabledDelete(s, c, Drop(item))
    requires t == ApplyDelete(s, c, Drop(item)).store
    ensures RestUntouched(t, c.start, c.refs, Begun(c))
  {
    DropShape(s, c, item, t);
    RestStays(s, t, c);
  }

  lemma DropKeepsDone(s: Store, c: Control, item: Item, t: Store)
    requires InHand(c) && DeleteInv(s, c) && EnabledDelete(s, c, Drop(item))
    requires t == ApplyDelete(s, c, Drop(item)).store
    ensures DoneDeleted(t, c.start, c.order, c.refs, c.done)
  {
    DoneStay(s, t, c);
  }

  lemma DropKeepsHead(s: Store, c: Control, item: Item, t: Store)
    requires InHand(c) && DeleteInv(s, c) && EnabledDelete(s, c, Drop(item))
    requires t == ApplyDelete(s, c, Drop(item)).store
    ensures HeadInv(t, c)
  {
    DropShape(s, c, item, t);
    HeadStays(s, t, c);
  }

  /** What one deletion of an object changes. */
  lemma DropShape(s: Store, c: Control, item: Item, t: Store)
    requires InHand(c) && EnabledDelete(s, c, Drop(item)) && t == ApplyDelete(s, c, Drop(item)).store
    ensures t.light - {Head(c)} == s.light - {Head(c)} && t.full - {Head(c)} == s.full - {Head(c)}
    ensures t.light.Keys <= s.light.Keys && t.full.Keys <= s.full.Keys
    ensures Head(c) in t.light ==> t.light[Head(c)] == s.light[Head(c)]
    ensures Head(c) in t.full ==> t.full[Head(c)] == s.full[Head(c)]
    ensures Kept(c, Head(c)) != {} ==> t.light == s.light && t.full == s.full
    ensures forall k <- t.objects :: k in s.objects && t.objects[k] == s.objects[k]
    ensures forall k <- s.objects :: k in t.objects || (k.backup == Head(c) && k.part !in Kept(c, Head(c)))
  {
  }

  lemma HeadStays(s: Store, t: Store, c: Control)
    requires InHand(c) && c.stage.Dropping? && HeadInv(s, c)
    requires t.light.Keys <= s.light.Keys && t.full.Keys <= s.full.Keys
    requires Head(c) in t.light ==> t.light[Head(c)] == s.light[Head(c)]
    requires Head(c) in t.full ==> t.full[Head(c)] == s.full[Head(c)]
    requires Kept(c, Head(c)) != {} ==> t.light == s.light && t.full == s.full
    ensures HeadInv(t, c)
  {
  }

  /** Work on the backup in hand that deletes no kept object leaves the rest as it was. */
  lemma RestStays(s: Store, t: Store, c: Control)
    requires InHand(c) && c.stage != Waiting && RestUntouched(s, c.start, c.refs, Begun(c))
    requires t.light - {Head(c)} == s.light - {Head(c)} && t.full - {Head(c)} == s.full - {Head(c)}
    requires t.light.Keys <= c.start.light.Keys && t.full.Keys <= c.start.full.Keys
    requires forall k <- t.objects :: k in s.objects && t.objects[k] == s.objects[k]
    requires forall k <- s.objects :: k in t.objects || (k.backup == Head(c) && k.part !in Kept(c, Head(c)))
    ensures RestUntouched(t, c.start, c.refs, Begun(c))
  {
    assert Touched(c, Head(c));
    forall b | b !in Begun(c)
      ensures (b in t.light <==> b in s.light) && (b in t.light ==> t.light[b] == s.light[b])
      ensures (b in t.full <==> b in s.full) && (b in t.full ==> t.full[b] == s.full[b])
    {
      assert b in t.light - {Head(c)} <==> b in s.light - {Head(c)};
      assert b in t.full - {Head(c)} <==> b in s.full - {Head(c)};
      assert b in t.light ==> (t.light - {Head(c)})[b] == (s.light - {Head(c)})[b];
      assert b in t.full ==> (t.full - {Head(c)})[b] == (s.full - {Head(c)})[b];
    }
  }

  /** Stepping on to the next backup of the list once the one in hand is finished. */
  lemma Advance(s: Store, c: Control)
    requires InHand(c) && DeleteInv(s, c) && c.stage != Waiting && IsDeleted(s, c, Head(c))
    ensures DeleteInv(s, c.(done := c.done + 1, stage := Waiting))
  {
    var d := c.(done := c.done + 1, stage := Waiting);
    assert Begun(d) == Begun(c);
    assert Deleted(s, c.start, KeptIn(c.refs, Head(c)), Head(c));
  }

  lemma DroppedAllKeeps(s: Store, c: Control)
    requires InHand(c) && DeleteInv(s, c) && EnabledDelete(s, c, DroppedAll)
    ensures var n := ApplyDelete(s, c, DroppedAll); DeleteInv(n.store, n.control)
  {
    Advance(s, c);
  }

  lemma TrimFullKeeps(s: Store, c: Control, removed: set<PartKey>)
    requires InHand(c) && DeleteInv(s, c) && EnabledDelete(s, c, TrimFull(removed))
    ensures var n := ApplyDelete(s, c, TrimFull(removed)); DeleteInv(n.store, n.control)
  {
    var n := ApplyDelete(s, c, TrimFull(removed));
    var b := Head(c);
    assert Touched(c, b);
    forall x
      ensures Touched(c, x) <==> Touched(n.control, x)
    {
    }
    DoneStay(s, n.store, c);
    assert n.control.stage.mem == Trim(c.start.full[b], removed);
    assert OwnGone(n.store, c.start.full[b], b, removed);
  }

  /** Uploading the light metadata of the backup in hand changes nothing that matters. */
  lemma SaveHeadLight(s: Store, c: Control)
    requires InHand(c) && DeleteInv(s, c) && c.stage.Trimmed?
    ensures DeleteInv(s.(light := s.light[Head(c) := LightOf(c.stage.mem)]), c)
  {
    var n := s.(light := s.light[Head(c) := LightOf(c.stage.mem)]);
    HeadLightChanges(s, c, LightOf(c.stage.mem));
    var b := Head(c);
    TrimmedStays(s, n, c.start, Kept(c, b), b, c.stage.mem, c.stage.whole);
  }

  lemma TrimmedStays(s: Store, t: Store, start: Store, kept: set<PartKey>, b: string, mem: BackupMeta, whole: bool)
    requires b in start.full && TrimmedHead(s, start, kept, b, mem, whole) && t.full == s.full && t.objects == s.objects
    ensures TrimmedHead(t, start, kept, b, mem, whole)
  {
    var removed :|
      && removed <= start.full[b].parts.Keys - kept && mem == Trim(start.full[b], removed)
      && OwnGone(s, start.full[b], b, removed) && (whole ==> removed == start.full[b].parts.Keys - kept);
    assert OwnGone(t, start.full[b], b, removed);
  }

  lemma TrimLightKeeps(s: Store, c: Control)
    requires InHand(c) && DeleteInv(s, c) && RefsCorrect(c) && EnabledDelete(s, c, TrimLight)
    ensures Inv(ApplyDelete(s, c, TrimLight))
  {
    var n := s.(light := s.light[Head(c) := LightOf(c.stage.mem)]);
    SaveHeadLight(s, c);
    if c.stage.whole {
      WholeIsDeleted(n, c);
      Advance(n, c);
    } else {
      DeleteInvSound(n, c);
    }
  }

  lemma WholeIsDeleted(s: Store, c: Control)
    requires InHand(c) && c.stage.Trimmed? && c.stage.whole && HeadInv(s, c)
    requires Head(c) in s.light && s.light[Head(c)] == LightOf(c.stage.mem)
    ensures IsDeleted(s, c, Head(c))
  {
  }

  lemma DeleteStepKeeps(s: Store, c: Control, step: Step)
    requires InHand(c) && DeleteInv(s, c) && RefsCorrect(c) && EnabledDelete(s, c, step)
    ensures Inv(ApplyDelete(s, c, step))
  {
    match step
    case MarkFull => MarkFullKeeps(s, c);
    case MarkLight => MarkLightKeeps(s, c);
    case Drop(item) => DropKeeps(s, c, item);
    case DroppedAll => DroppedAllKeeps(s, c);
    case TrimFull(removed) => TrimFullKeeps(s, c, removed);
    case TrimLight => TrimLightKeeps(s, c);
  }

  // ---------- whole runs

  ghost predicate Inv(st: State) {
    match st.control
    case Idle => Sound(st.store)
    case Backup(_, _, _, _, _) => BackupInv(st.store, st.control)
    case Delete(_, _, _, _, _) => DeleteInv(st.store, st.control) && RefsCorrect(st.control)
  }

  lemma InvSound(st: State)
    requires Inv(st)
    ensures Sound(st.store)
  {
    if st.control.Delete? {
      DeleteInvSound(st.store, st.control);
    }
  }

  lemma BeginDeleteKeeps(st: State, order: seq<string>)
    requires Inv(st) && Enabled(st, BeginDelete(order))
    ensures Inv(Apply(st, BeginDelete(order)))
  {
    var c := Apply(st, BeginDelete(order)).control;
    assert forall b :: !Touched(c, b);
  }

  /** What purge deletes before it has looked at any link hurts no other backup. */
  lemma DropStrayKeeps(s: Store, name: string, item: Item)
    requires Sound(s) && Unreferenced(s, name)
    ensures Sound(DropItem(s, name, item))
  {
    var t := DropItem(s, name, item);
    forall b, key | Listed(t, b) && key in t.full[b].parts && t.full[b].parts[key].link.Some?
      ensures LinkSound(t, t.full[b].time, key, t.full[b].parts[key])
    {
      assert LinkSound(s, s.full[b].time, key, s.full[b].parts[key]);
      assert s.full[b].parts[key].link.value != name;
    }
  }

  lemma StepKeeps(st: State, step: Step)
    requires Inv(st) && Enabled(st, step)
    ensures Inv(Apply(st, step))
  {
    match step
    case BeginBackup(_, _, _, _, _) =>
    case BeginDelete(order) => BeginDeleteKeeps(st, order);
    case DropStray(name, item) => DropStrayKeeps(st.store, name, item);
    case Stop => InvSound(st);
    case _ =>
      if st.control.Backup? {
        BackupStepKeeps(st.store, st.control, step);
      } else {
        DeleteStepKeeps(st.store, st.control, step);
      }
  }

  lemma {:induction false} RunKeeps(st: State, steps: seq<Step>)
    requires Inv(st) && IsRun(st, steps)
    ensures Inv(RunTo(st, steps))
    decreases |steps|
  {
    if steps != [] {
      StepKeeps(st, steps[0]);
      RunKeeps(Apply(st, steps[0]), steps[1..]);
    }
  }

  /**
   * Safety over whole runs. From an empty storage, after any sequence of backup, delete and purge steps with a stop
   * or a kill anywhere, every linked part of every listed backup, whatever its state, leads to an object that is
   * there with the part's checksum, and its owner is listed, older, and lists that part as its own.
   */
  lemma LinkedPartsResolve(steps: seq<Step>, b: string, key: PartKey)
    requires IsRun(EMPTY, steps)
    requires var s := RunTo(EMPTY, steps).store;
             Listed(s, b) && key in s.full[b].parts && s.full[b].parts[key].link.Some?
    ensures var s := RunTo(EMPTY, steps).store;
            var part := s.full[b].parts[key];
            var target := Resolve(b, key, part);
            && target in s.objects && s.objects[target].checksum == part.checksum
            && Listed(s, target.backup) && s.full[target.backup].time < s.full[b].time
            && target.part in s.full[target.backup].parts && s.full[target.backup].parts[target.part].link == None
  {
    RunKeeps(EMPTY, steps);
    var s := RunTo(EMPTY, steps).store;
    InvSound(RunTo(EMPTY, steps));
    assert LinkSound(s, s.full[b].time, key, s.full[b].parts[key]);
  }

  /** Every part of backup `b` resolves to what it resolved to before. */
  ghost predicate Intact(start: Store, s: Store, b: string)
    requires b in start.full
  {
    && Listed(s, b) && s.full[b] == start.full[b]
    && forall key <- start.full[b].parts ::
         var target := Resolve(b, key, start.full[b].parts[key]);
         && (target in s.objects <==> target in start.objects)
         && (target in s.objects ==> s.objects[target] == start.objects[target])
  }

  /**
   * Deletion safety for the backups to be retained: at every moment of a delete or purge command, however far it has
   * come and wherever it is stopped, every part of each of them, own or linked, resolves to the same object as before.
   */
  lemma RetainedAlwaysIntact(s: Store, c: Control, b: string)
    requires c.Delete? && DeleteInv(s, c) && RefsCorrect(c) && Listed(c.start, b) && b !in c.order
    ensures Intact(c.start, s, b)
  {
    assert !Touched(c, b);
    forall key <- c.start.full[b].parts
      ensures var target := Resolve(b, key, c.start.full[b].parts[key]);
              && (target in s.objects <==> target in c.start.objects)
              && (target in s.objects ==> s.objects[target] == c.start.objects[target])
    {
      var part := c.start.full[b].parts[key];
      if part.link.Some? {
        assert LinkSound(c.start, c.start.full[b].time, key, part);
        if part.link.value in c.order {
          KeptByRetained(c, b, key);
        }
      }
    }
  }

  /**
   * Deletion safety for the backups to be deleted: once the list is worked through, nothing is left of them but own
   * parts that retained backups link to: all of those, listed and stored as before.
   */
  lemma DeletionExact(s: Store, c: Control, b: string, key: PartKey)
    requires c.Delete? && DeleteInv(s, c) && RefsCorrect(c)
    requires b in c.start.full && key in c.start.full[b].parts
    ensures b in c.start.light && b !in c.order ==> Intact(c.start, s, b)
    ensures b in c.order && c.done == |c.order| ==>
              && (key in Kept(c, b) <==> b in s.full && key in s.full[b].parts)
              && (c.start.full[b].parts[key].link == None ==>
                    (ObjectKey(b, key) in s.objects <==> ObjectKey(b, key) in c.start.objects && key in Kept(c, b)))
  {
    if b in c.order && c.done == |c.order| {
      var i :| 0 <= i < |c.order| && c.order[i] == b;
      assert IsDeleted(s, c, c.order[i]);
    } else if b in c.start.light && b !in c.order {
      RetainedAlwaysIntact(s, c, b);
    }
  }
}
