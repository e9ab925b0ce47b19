/**
 * Backup, delete and purge as a machine of single storage operations. A command may stop, raise or be killed between
 * any two of them; commands exclude each other and the clock moves on between backups.
 */
module StoreMachine {
  import opened Bytes
  import opened BackupStore

  /** Where a deletion stands with the backup in hand. */
  datatype Stage =
    | Waiting                                    // before it
    | Marking(mem: BackupMeta)                   // full metadata says DELETING, light metadata not yet
    | Dropping(mem: BackupMeta)                  // objects are being deleted
    | Trimmed(mem: BackupMeta, whole: bool)      // full metadata says PARTIALLY_DELETED, light metadata not yet

  datatype Control =
    | Idle
    | Backup(name: string, mem: BackupMeta, window: set<string>, uploaded: map<PartKey, Blob>, published: bool)
    | Delete(start: Store, order: seq<string>, refs: map<string, set<PartKey>>, done: nat, stage: Stage)

  datatype State = State(store: Store, control: Control)

  datatype Item = DataObject(key: PartKey) | FullFile | LightFile

  datatype Step =
    // backup
    | BeginBackup(name: string, hostname: string, time: nat, schemaOnly: bool, window: set<string>)
    | SaveFull
    | SaveLight
    | UploadPart(key: PartKey, blob: Blob)
    | AddOwn(key: PartKey, part: PartMeta)
    | AddLink(key: PartKey, donor: string, donorKey: PartKey)
    | SetState(state: BackupState)
    // delete and purge
    | BeginDelete(order: seq<string>)
    | MarkFull
    | MarkLight
    | Drop(item: Item)
    | DroppedAll
    | TrimFull(removed: set<PartKey>)
    | TrimLight
    // purge, before it chooses: a listed backup that was not there when it read the names
    | DropStray(name: string, item: Item)
    // the end of a command: done, raised or killed
    | Stop

  // ---------- backup steps

  /** The metadata that deduplicate_parts makes for `key` from a donor's part. */
  function LinkTo(key: PartKey, donor: string, donorKey: PartKey, part: PartMeta): PartMeta {
    PartMeta(part.checksum, part.size,
             Some(if part.link.Some? then part.link.value else donor),
             if part.linkPart.Some? then part.linkPart
             else if key.name != donorKey.name then Some(donorKey.name) else None)
  }

  /**
   * A donor's part may be linked to: its backup is in the dedup window; a linked one is taken unchecked as long as
   * its owner is in the window too, an own one is looked up in storage first.
   */
  predicate Donates(s: Store, window: set<string>, key: PartKey, donor: string, donorKey: PartKey) {
    && donor in window && donor in s.full
    && donorKey in s.full[donor].parts && donorKey.db == key.db && donorKey.table == key.table
    && var part := s.full[donor].parts[donorKey];
       if part.link.Some? then part.link.value in window else ObjectKey(donor, donorKey) in s.objects
  }

  /** The window comes from a listing made earlier: what has gone since has gone with its full metadata. */
  predicate NoOrphans(s: Store, window: set<string>) {
    forall b <- window | b in s.full :: b in s.light
  }

  predicate EnabledBackup(s: Store, c: Control, step: Step)
    requires c.Backup?
  {
    match step
    case SaveFull => true
    case SaveLight => c.published
    case UploadPart(key, _) => key !in c.mem.parts
    case AddOwn(key, part) =>
      && key !in c.mem.parts && part.link == None && part.linkPart == None
      && key in c.uploaded && c.uploaded[key].checksum == part.checksum
    case AddLink(key, donor, donorKey) => key !in c.mem.parts && Donates(s, c.window, key, donor, donorKey)
    case SetState(_) => true
    case _ => false
  }

  function ApplyBackup(s: Store, c: Control, step: Step): State
    requires c.Backup? && EnabledBackup(s, c, step)
  {
    match step
    case SaveFull => State(s.(full := s.full[c.name := c.mem]), c.(published := true))
    case SaveLight => State(s.(light := s.light[c.name := LightOf(c.mem)]), c)
    case UploadPart(key, blob) =>
      State(s.(objects := s.objects[ObjectKey(c.name, key) := blob]), c.(uploaded := c.uploaded[key := blob]))
    case AddOwn(key, part) => State(s, c.(mem := c.mem.(parts := c.mem.parts[key := part])))
    case AddLink(key, donor, donorKey) =>
      State(s, c.(mem := c.mem.(parts := c.mem.parts[key := LinkTo(key, donor, donorKey,
          s.full[donor].parts[donorKey])])))
    case SetState(state) => State(s, c.(mem := c.mem.(state := state)))
  }

  // ---------- delete steps

  predicate InHand(c: Control) {
    c.Delete? && c.done < |c.order|
  }

  function Head(c: Control): string
    requires InHand(c)
  {
    c.order[c.done]
  }

  function KeptIn(refs: map<string, set<PartKey>>, b: string): set<PartKey> {
    if b in refs then refs[b] else {}
  }

  /** The parts of a deleted backup that must stay, computed from the retained backups before anything is deleted. */
  function Kept(c: Control, b: string): set<PartKey>
    requires c.Delete?
  {
    KeptIn(c.refs, b)
  }

  /** collect_dedup_references_for_batch_backup_deletion for the backups in `order`. */
  function CollectReferences(s: Store, order: seq<string>): map<string, set<PartKey>> {
    map b | b in order :: References(s, set x <- order :: x, b)
  }

  /** No other listed backup links to backup `b`. */
  predicate Unreferenced(s: Store, b: string) {
    forall c, key | c in s.light && c in s.full && c != b && key in s.full[c].parts ::
      s.full[c].parts[key].link != Some(b)
  }

  function DropItem(s: Store, b: string, item: Item): Store {
    match item
    case DataObject(key) => s.(objects := s.objects - {ObjectKey(b, key)})
    case FullFile => s.(full := s.full - {b})
    case LightFile => s.(light := s.light - {b})
  }

  predicate NothingLeft(s: Store, b: string) {
    b !in s.light && b !in s.full && forall k <- s.objects :: k.backup != b
  }

  predicate EnabledDelete(s: Store, c: Control, step: Step)
    requires InHand(c)
  {
    var b := Head(c);
    match step
    case MarkFull => c.stage == Waiting && b in s.full
    case MarkLight => c.stage.Marking?
    case Drop(item) =>
      && c.stage.Dropping?
      && (Kept(c, b) == {} ||
          (item.DataObject? && item.key in c.stage.mem.parts && c.stage.mem.parts[item.key].link == None &&
              item.key !in Kept(c, b)))
    case DroppedAll => c.stage.Dropping? && Kept(c, b) == {} && NothingLeft(s, b)
    case TrimFull(removed) =>
      && c.stage.Dropping? && Kept(c, b) != {}
      && removed <= c.stage.mem.parts.Keys - Kept(c, b)
      && forall k <- removed | c.stage.mem.parts[k].link == None :: ObjectKey(b, k) !in s.objects
    case TrimLight => c.stage.Trimmed?
    case _ => false
  }

  function ApplyDelete(s: Store, c: Control, step: Step): State
    requires InHand(c) && EnabledDelete(s, c, step)
  {
    var b := Head(c);
    match step
    case MarkFull =>
      var mem := s.full[b].(state := Deleting);
      State(s.(full := s.full[b := mem]), c.(stage := Marking(mem)))
    case MarkLight => State(s.(light := s.light[b := LightOf(c.stage.mem)]), c.(stage := Dropping(c.stage.mem)))
    case Drop(item) => State(DropItem(s, b, item), c)
    case DroppedAll => State(s, c.(done := c.done + 1, stage := Waiting))
    case TrimFull(removed) =>
      var mem := c.stage.mem.(state := PartiallyDeleted, parts := c.stage.mem.parts - removed);
      State(s.(full := s.full[b := mem]),
            c.(stage := Trimmed(mem, removed == c.stage.mem.parts.Keys - Kept(c, b))))
    case TrimLight =>
      State(s.(light := s.light[b := LightOf(c.stage.mem)]),
            if c.stage.whole then c.(done := c.done + 1, stage := Waiting) else Idle)
  }

  // ---------- all steps

  predicate Enabled(st: State, step: Step) {
    match step
    case BeginBackup(name, _, time, _, window) =>
      && st.control == Idle && name !in st.store.light && name !in window && NoOrphans(st.store, window)
      && forall b <- st.store.light :: st.store.light[b].time < time
    case BeginDelete(order) =>
      && st.control == Idle && NewestFirst(st.store, order)
      && forall b <- st.store.light | b !in order :: b in st.store.full
    case DropStray(name, _) => st.control == Idle && Unreferenced(st.store, name)
    case Stop => true
    case _ =>
      || (st.control.Backup? && EnabledBackup(st.store, st.control, step))
      || (InHand(st.control) && EnabledDelete(st.store, st.control, step))
  }

  function Apply(st: State, step: Step): State
    requires Enabled(st, step)
  {
    match step
    case BeginBackup(name, hostname, time, schemaOnly, window) =>
      st.(control := Backup(name, BackupMeta(Creating, time, hostname, schemaOnly, {}, map[], map[]), window, map[],
          false))
    case BeginDelete(order) => st.(control := Delete(st.store, order, CollectReferences(st.store, order), 0, Waiting))
    case DropStray(name, item) => st.(store := DropItem(st.store, name, item))
    case Stop => st.(control := Idle)
    case _ =>
      if st.control.Backup? then ApplyBackup(st.store, st.control, step) else ApplyDelete(st.store, st.control, step)
  }

  predicate IsRun(st: State, steps: seq<Step>)
    decreases |steps|
  {
    steps == [] || (Enabled(st, steps[0]) && IsRun(Apply(st, steps[0]), steps[1..]))
  }

  function RunTo(st: State, steps: seq<Step>): State
    requires IsRun(st, steps)
    decreases |steps|
  {
    if steps == [] then st else RunTo(Apply(st, steps[0]), steps[1..])
  }

  const EMPTY := State(Store(map[], map[], map[]), Idle)
}
