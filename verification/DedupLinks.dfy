/**
 * Linking new parts to stored ones (deduplication.py): which rows are taken, what link a part gets, and why the link is
 * sound.
 */
module DedupLinks {
  import opened Bytes
  import opened BackupStore
  import opened StoreMachine
  import opened StoreSafety
  import opened DedupScan
  import opened PartNames

  // ---------- links

  /** A row of the join between the deduplication table and the frozen parts: equal checksums, one row per part. */
  datatype Match = Match(name: string, row: Row)

  ghost predicate IsJoin(db: string, table: string, frozen: map<string, string>, matches: seq<Match>) {
    && (forall m <- matches ::
          m.row.key.db == db && m.row.key.table == table && m.name in frozen && frozen[m.name] == m.row.checksum)
    && (forall i, j | 0 <= i < j < |matches| :: matches[i].name != matches[j].name)
  }

  /** The metadata made from a row, for the part called `name` now. */
  function LinkOf(name: string, row: Row): PartMeta {
    PartMeta(row.checksum, row.size, Some(row.backupName),
             if row.linkPart.Some? then row.linkPart else if name != row.key.name then Some(row.key.name) else None)
  }

  predicate SamePart(parse: string -> Option<int>, name: string, row: Row)
    requires name != row.key.name ==> Parses(parse, name) && Parses(parse, row.key.name)
  {
    name == row.key.name || IsMutationRenamed(parse, name, row.key.name)
  }

  /** check_data_part for the part in its new guise: there, of the right size, and storage answers. */
  predicate DataThere(s: Store, answers: ObjectKey -> bool, name: string, row: Row) {
    var target := Resolve(row.backupName, row.key.(name := name), LinkOf(name, row));
    target in s.objects && s.objects[target].size == row.size && answers(target)
  }

  predicate NamesParse(parse: string -> Option<int>, m: Match) {
    m.name == m.row.key.name || (Parses(parse, m.name) && Parses(parse, m.row.key.name))
  }

  predicate Accepted(s: Store, answers: ObjectKey -> bool, parse: string -> Option<int>, m: Match)
    requires NamesParse(parse, m)
  {
    SamePart(parse, m.name, m.row) && (m.row.verified || DataThere(s, answers, m.name, m.row))
  }

  /** `found` holds the links for the accepted ones of the first `n` matches, and nothing else. */
  ghost predicate LinksFor(s: Store, answers: ObjectKey -> bool, parse: string -> Option<int>, matches: seq<Match>,
                           n: nat,
                           found: map<string, PartMeta>)
    requires n <= |matches|
  {
    && (forall j | 0 <= j < n ::
          && NamesParse(parse, matches[j])
          && (matches[j].name in found <==> Accepted(s, answers, parse, matches[j]))
          && (matches[j].name in found ==> found[matches[j].name] == LinkOf(matches[j].name, matches[j].row)))
    && forall name <- found :: exists j :: 0 <= j < n && matches[j].name == name
  }

  lemma OneMoreMatch(s: Store, answers: ObjectKey -> bool, parse: string -> Option<int>, matches: seq<Match>, n: nat,
                     found: map<string, PartMeta>, more: map<string, PartMeta>)
    requires n < |matches| && LinksFor(s, answers, parse, matches, n, found) && NamesParse(parse, matches[n])
    requires forall j | 0 <= j < n :: matches[j].name != matches[n].name
    requires more == if Accepted(s, answers, parse, matches[n])
                     then found[matches[n].name := LinkOf(matches[n].name, matches[n].row)] else found
    ensures LinksFor(s, answers, parse, matches, n + 1, more)
  {
  }

  /** The body of the loop in deduplicate_parts: the link for one match, if it is accepted. */
  method LinkMatch(s: Store, answers: ObjectKey -> bool, parse: string -> Option<int>, m: Match)
    returns (part: Option<PartMeta>)
    requires NamesParse(parse, m)
    ensures part == if Accepted(s, answers, parse, m) then Some(LinkOf(m.name, m.row)) else None
  {
    var current, row := m.name, m.row;
    if current != row.key.name && !IsMutationRenamed(parse, current, row.key.name) {
      return None;
    }
    var linkPart := if row.linkPart.Some? then row.linkPart else if current != row.key.name then Some(row.key.name)
        else None;
    var link := PartMeta(row.checksum, row.size, Some(row.backupName), linkPart);
    if !row.verified && !DataThere(s, answers, current, row) {
      return None;
    }
    part := Some(link);
  }

  /** The names are the same, or differ by the mutation as far as the comparison can tell. */
  predicate SameOrRenamed(parse: string -> Option<int>, a: string, b: string) {
    a == b || (Parses(parse, a) && Parses(parse, b) && IsMutationRenamed(parse, a, b))
  }

  /** For names written as they are printed that is agreement before the mutation. */
  lemma NamesAgreeIff(m: Match)
    requires Parses(ReadInt, m.name) && Parses(ReadInt, m.row.key.name)
    requires Written(ReadInt, Text, m.name) && Written(ReadInt, Text, m.row.key.name)
    ensures SameOrRenamed(ReadInt, m.name, m.row.key.name) <==> Base(m.name) == Base(m.row.key.name)
  {
    RenamedIff(ReadInt, Text, m.name, m.row.key.name);
  }

  /** Where the data of a row was uploaded to. */
  function Uploaded(row: Row): ObjectKey {
    ObjectKey(row.backupName, row.key.(name := if row.linkPart.Some? then row.linkPart.value else row.key.name))
  }

  lemma LinksForMeans(s: Store, answers: ObjectKey -> bool, parse: string -> Option<int>, matches: seq<Match>,
                      found: map<string, PartMeta>, m: Match)
    requires LinksFor(s, answers, parse, matches, |matches|, found) && m in matches
    ensures m.name in found <==>
            && SameOrRenamed(parse, m.name, m.row.key.name)
            && (m.row.verified ||
                (Uploaded(m.row) in s.objects && s.objects[Uploaded(m.row)].size == m.row.size &&
                 answers(Uploaded(m.row))))
    ensures m.name in found ==>
              && found[m.name].checksum == m.row.checksum && found[m.name].size == m.row.size
              && found[m.name].link == Some(m.row.backupName)
              && Resolve("", m.row.key.(name := m.name), found[m.name]) == Uploaded(m.row)
  {
    var j :| 0 <= j < |matches| && matches[j] == m;
  }

  /** deduplicate_parts: which parts get a link, and which link. None stands for the ValueError of a malformed name. */
  method DeduplicateParts(s: Store, answers: ObjectKey -> bool, parse: string -> Option<int>, db: string, table: string,
                          ghost frozen: map<string, string>, matches: seq<Match>)
    returns (parts: Option<map<string, PartMeta>>)
    requires IsJoin(db, table, frozen, matches)
    ensures parts == None <==>
            exists m <- matches :: m.name != m.row.key.name && !(Parses(parse, m.name) && Parses(parse, m.row.key.name))
    ensures parts.Some? ==>
              forall m <- matches :: m.name in parts.value <==>
                && SameOrRenamed(parse, m.name, m.row.key.name)
                && (m.row.verified ||
                    (Uploaded(m.row) in s.objects && s.objects[Uploaded(m.row)].size == m.row.size &&
                     answers(Uploaded(m.row))))
    ensures parts.Some? ==>
              forall m <- matches | m.name in parts.value ::
                var part := parts.value[m.name];
                && part.checksum == m.row.checksum && part.size == m.row.size && part.link == Some(m.row.backupName)
                && Resolve("", m.row.key.(name := m.name), part) == Uploaded(m.row)
    ensures parts.Some? ==> forall name <- parts.value :: exists m <- matches :: m.name == name
    ensures parts.Some? ==> LinksFor(s, answers, parse, matches, |matches|, parts.value)
  {
    var found: map<string, PartMeta> := map[];
    for i := 0 to |matches|
      invariant LinksFor(s, answers, parse, matches, i, found)
    {
      if !NamesParse(parse, matches[i]) {
        assert matches[i] in matches;
        return None;
      }
      var link := LinkMatch(s, answers, parse, matches[i]);
      ghost var before := found;
      if link.Some? {
        found := found[matches[i].name := link.value];
      }
      OneMoreMatch(s, answers, parse, matches, i, before, found);
    }
    forall m <- matches
      ensures m.name in found <==>
              && SameOrRenamed(parse, m.name, m.row.key.name)
              && (m.row.verified ||
                  (Uploaded(m.row) in s.objects && s.objects[Uploaded(m.row)].size == m.row.size &&
                   answers(Uploaded(m.row))))
      ensures m.name in found ==>
                && found[m.name].checksum == m.row.checksum && found[m.name].size == m.row.size
                && found[m.name].link == Some(m.row.backupName)
                && Resolve("", m.row.key.(name := m.name), found[m.name]) == Uploaded(m.row)
    {
      LinksForMeans(s, answers, parse, matches, found, m);
    }
    parts := Some(found);
  }

  // ---------- soundness

  /** The entries of a scan are the full metadata of the backups in the window. */
  ghost predicate ScansStore(s: Store, w: Scan) {
    forall e <- w.entries :: e.name in s.full && s.full[e.name] == e.meta
  }

  /** A row gives the link that StoreMachine makes from the backup the row came from. */
  lemma LinkOfIsLinkTo(w: Scan, i: nat, donorKey: PartKey, key: PartKey)
    requires i < |w.entries| && donorKey in w.entries[i].meta.parts
    ensures LinkOf(key.name, RowOf(w, i, donorKey)) ==
            LinkTo(key, w.entries[i].name, donorKey, w.entries[i].meta.parts[donorKey])
  {
  }

  /**
   * From the scan to a sound link. Whatever row the join picks for a part, an accepted one is from a backup that may
   * donate it; so the new part leads to an object that is there, has the checksum of the frozen part, and is still
   * listed by the backup that uploaded it. Rows of linked parts need no look at storage.
   */
  lemma AcceptedLinkIsSound(s: Store, w: Scan, rows: seq<Row>, time: nat, answers: ObjectKey -> bool,
                            parse: string -> Option<int>, m: Match)
    requires Sound(s) && ScansStore(s, w) && ScanOf(w, |w.entries|, rows) && m.row in rows
    requires forall b <- Names(w) :: b in s.light && s.light[b].time < time
    requires NamesParse(parse, m) && Accepted(s, answers, parse, m)
    ensures var key := m.row.key.(name := m.name);
            var link := LinkOf(m.name, m.row);
            && link.checksum == m.row.checksum && LinkSound(s, time, key, link)
            && exists donor <- Names(w) :: Donates(s, Names(w), key, donor, m.row.key)
                                           && link == LinkTo(key, donor, m.row.key, s.full[donor].parts[m.row.key])
  {
    var key := m.row.key.(name := m.name);
    var j :| 0 <= j < |rows| && rows[j] == m.row;
    var i := FirstIndex(w, |w.entries|, m.row.key);
    FirstIndexIsFirst(w, |w.entries|, m.row.key);
    assert rows[j] == RowOf(w, i, m.row.key);
    var donor := w.entries[i].name;
    assert w.entries[i] in w.entries;
    LinkOfIsLinkTo(w, i, m.row.key, key);
    var part := s.full[donor].parts[m.row.key];
    if part.link == None {
      assert OwnPlain(s) && Listed(s, donor);
      assert Resolve(donor, key, LinkOf(m.name, m.row)) == ObjectKey(donor, m.row.key);
    }
    assert Donates(s, Names(w), key, donor, m.row.key);
    LinkToIsSound(s, Names(w), time, key, donor, m.row.key);
  }

  // ---------- chains

  /** A part of a backup in a chain: each one after the first was linked to the one before. */
  datatype Hop = Hop(backup: string, key: PartKey)

  function ChainEnd(hops: seq<Hop>, first: PartMeta): PartMeta
    requires hops != []
  {
    if |hops| == 1 then first
    else
      var last := |hops| - 1;
      LinkTo(hops[last].key, hops[last - 1].backup, hops[last - 1].key, ChainEnd(hops[..last], first))
  }

  /** The same part of the same table, up to a mutation. */
  predicate Follows(parse: string -> Option<int>, donor: Hop, next: Hop) {
    next.key.db == donor.key.db && next.key.table == donor.key.table &&
        SameOrRenamed(parse, next.key.name, donor.key.name)
  }

  predicate IsChain(parse: string -> Option<int>, hops: seq<Hop>)
    decreases |hops|
  {
    |hops| <= 1 || (IsChain(parse, hops[..|hops| - 1]) && Follows(parse, hops[|hops| - 2], hops[|hops| - 1]))
  }

  /**
   * Links stay flat: after any number of backups and mutation renames a part leads straight to where the first
   * backup of the chain had its data, with the same checksum, and to a name of the same part.
   */
  lemma {:induction false} ChainResolves(parse: string -> Option<int>, hops: seq<Hop>, first: PartMeta)
    requires hops != [] && IsChain(parse, hops)
    requires SameOrRenamed(parse, hops[0].key.name, StoredName(hops[0].key, first))
    ensures var end, last := ChainEnd(hops, first), hops[|hops| - 1];
            && Resolve(last.backup, last.key, end) == Resolve(hops[0].backup, hops[0].key, first)
            && end.checksum == first.checksum && end.size == first.size
            && SameOrRenamed(parse, last.key.name, StoredName(last.key, end))
    decreases |hops|
  {
    var n := |hops| - 1;
    if n > 0 {
      var init := hops[..n];
      ChainResolves(parse, init, first);
      HopResolves(parse, init[n - 1], hops[n], ChainEnd(init, first));
    }
  }

  /** One link: it leads where the linked part led, under a name of the same part. */
  lemma HopResolves(parse: string -> Option<int>, donor: Hop, next: Hop, part: PartMeta)
    requires Follows(parse, donor, next)
    requires SameOrRenamed(parse, donor.key.name, StoredName(donor.key, part))
    ensures var link := LinkTo(next.key, donor.backup, donor.key, part);
            && Resolve(next.backup, next.key, link) == Resolve(donor.backup, donor.key, part)
            && link.checksum == part.checksum && link.size == part.size
            && SameOrRenamed(parse, next.key.name, StoredName(next.key, link))
  {
  }
}
