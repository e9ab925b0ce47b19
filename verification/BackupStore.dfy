/**
 * The deduplicated backup storage: what the metadata and the data objects look like, how a part resolves to an object,
 * and the invariant that lets deduplication skip the check of linked parts.
 */
module BackupStore {
  import opened Bytes

  datatype BackupState = Creating | Created | Deleting | PartiallyDeleted | Broken

  datatype TableKey = TableKey(db: string, table: string)

  datatype PartKey = PartKey(db: string, table: string, name: string)

  /** A part of a backup: stored by the backup itself, or linked to the backup that stored it. */
  datatype PartMeta = PartMeta(checksum: string, size: nat, link: Option<string>, linkPart: Option<string>)

  /** The nested dictionaries of backup_struct.json, flattened: databases, table engines, parts. */
  datatype BackupMeta = BackupMeta(state: BackupState, time: nat, hostname: string, schemaOnly: bool, dbs: set<string>,
                                   replicated: map<TableKey, bool>, parts: map<PartKey, PartMeta>)

  /** backup_light_struct.json: the listing of backups reads nothing else. */
  datatype LightMeta = LightMeta(state: BackupState, time: nat, schemaOnly: bool)

  datatype ObjectKey = ObjectKey(backup: string, part: PartKey)

  datatype Blob = Blob(checksum: string, size: nat)

  datatype Store = Store(light: map<string, LightMeta>, full: map<string, BackupMeta>, objects: map<ObjectKey, Blob>)

  function LightOf(m: BackupMeta): LightMeta {
    LightMeta(m.state, m.time, m.schemaOnly)
  }

  // ---------- resolution

  /** `deduplicated_part_name`: the name the data was uploaded under. */
  function StoredName(key: PartKey, part: PartMeta): string {
    if part.linkPart.Some? then part.linkPart.value else key.name
  }

  function StoredKey(key: PartKey, part: PartMeta): PartKey {
    key.(name := StoredName(key, part))
  }

  /** Where the data of a part of backup `b` lies. */
  function Resolve(b: string, key: PartKey, part: PartMeta): ObjectKey {
    ObjectKey(if part.link.Some? then part.link.value else b, StoredKey(key, part))
  }

  /** A backup that the commands can see and read. */
  predicate Listed(s: Store, b: string) {
    b in s.light && b in s.full
  }

  // ---------- the invariant

  /**
   * The link of a part is sound for a backup of start time `time`: it points to an older listed backup that still
   * lists the part as its own, and the object is there with the part's checksum.
   */
  predicate LinkSound(s: Store, time: nat, key: PartKey, part: PartMeta)
    requires part.link.Some?
  {
    var owner, stored := part.link.value, StoredKey(key, part);
    && Listed(s, owner) && s.full[owner].time < time
    && stored in s.full[owner].parts && s.full[owner].parts[stored].link == None
    && s.full[owner].parts[stored].linkPart == None
    && ObjectKey(owner, stored) in s.objects
    && s.objects[ObjectKey(owner, stored)].checksum == part.checksum
  }

  ghost predicate LinksSound(s: Store) {
    forall b, key | Listed(s, b) && key in s.full[b].parts && s.full[b].parts[key].link.Some? ::
      LinkSound(s, s.full[b].time, key, s.full[b].parts[key])
  }

  /** The object of an own part, if it is there at all, is the one that was uploaded for it. */
  ghost predicate OwnHonest(s: Store) {
    forall b, key | Listed(s, b) && key in s.full[b].parts && s.full[b].parts[key].link == None
                    && ObjectKey(b, key) in s.objects ::
      s.objects[ObjectKey(b, key)].checksum == s.full[b].parts[key].checksum
  }

  /** Own parts are stored under their own name. */
  ghost predicate OwnPlain(s: Store) {
    forall b, key | Listed(s, b) && key in s.full[b].parts && s.full[b].parts[key].link == None ::
      s.full[b].parts[key].linkPart == None
  }

  /** Both metadata files agree on the start time, and no two backups share one. */
  ghost predicate TimesAgree(s: Store) {
    && (forall b | Listed(s, b) :: s.light[b].time == s.full[b].time)
    && (forall b, c | b in s.light && c in s.light && b != c :: s.light[b].time != s.light[c].time)
  }

  ghost predicate Sound(s: Store) {
    LinksSound(s) && OwnHonest(s) && OwnPlain(s) && TimesAgree(s)
  }

  // ---------- the references a deletion must respect

  /** The parts of backup `owner` that listed backups outside `deleting` link to. */
  function References(s: Store, deleting: set<string>, owner: string): set<PartKey> {
    set b, key | b in s.light && b in s.full && b !in deleting && key in s.full[b].parts
                 && s.full[b].parts[key].link == Some(owner) :: StoredKey(key, s.full[b].parts[key])
  }

  lemma ReferencesSound(s: Store, deleting: set<string>, owner: string, k: PartKey)
    requires Sound(s) && k in References(s, deleting, owner)
    ensures Listed(s, owner) && k in s.full[owner].parts && s.full[owner].parts[k].link == None
  {
    var b, key :| b in s.light && b in s.full && b !in deleting && key in s.full[b].parts
                  && s.full[b].parts[key].link == Some(owner) && StoredKey(key, s.full[b].parts[key]) == k;
    assert LinkSound(s, s.full[b].time, key, s.full[b].parts[key]);
  }

  /** `order` lists distinct backups by falling start time, as get_backups returns them. */
  predicate NewestFirst(s: Store, order: seq<string>) {
    && (forall b <- order :: b in s.light)
    && (forall i, j | 0 <= i < j < |order| :: s.light[order[i]].time > s.light[order[j]].time)
  }

  lemma EarlierIsNewer(s: Store, listing: seq<string>, i: nat)
    requires NewestFirst(s, listing) && i < |listing|
    ensures forall b <- listing[..i] :: b in s.light && s.light[b].time > s.light[listing[i]].time && b != listing[i]
  {
    forall b <- listing[..i]
      ensures b in s.light && s.light[b].time > s.light[listing[i]].time && b != listing[i]
    {
      var j :| 0 <= j < i && listing[j] == b;
    }
  }

  lemma OlderLater(s: Store, listing: seq<string>, i: nat, j: nat)
    requires NewestFirst(s, listing) && i < |listing| && j < |listing|
    ensures i < j <==> s.light[listing[i]].time > s.light[listing[j]].time
  {
  }

  lemma TakenStaysOrdered(s: Store, listing: seq<string>, n: nat, taken: seq<string>)
    requires NewestFirst(s, listing) && n < |listing| && NewestFirst(s, taken)
    requires forall b <- taken :: b in listing[..n]
    ensures NewestFirst(s, taken + [listing[n]])
  {
    EarlierIsNewer(s, listing, n);
    forall j | 0 <= j < |taken|
      ensures s.light[taken[j]].time > s.light[listing[n]].time
    {
      assert taken[j] in taken;
    }
  }
}
