/**
 * Which parts of older backups deduplication may use (deduplication.py): the window of backups, and the scan that
 * collects one row per part, with per-database flags, an early end and batched inserts.
 */
module DedupScan {
  import opened Bytes
  import opened BackupStore

  // ---------- the window

  lemma YoungComeFirst(s: Store, listing: seq<string>, ageLimit: Option<nat>, i: nat)
    requires NewestFirst(s, listing) && i <= |listing|
    requires i < |listing| ==> ageLimit == None || s.light[listing[i]].time < ageLimit.value
    ensures ageLimit.Some? ==> forall b <- listing | s.light[b].time >= ageLimit.value :: b in listing[..i]
  {
    forall b <- listing | ageLimit.Some? && s.light[b].time >= ageLimit.value
      ensures b in listing[..i]
    {
      var j :| 0 <= j < |listing| && listing[j] == b;
      if i < |listing| {
        OlderLater(s, listing, i, j);
      }
      assert listing[..i][j] == b;
    }
  }

  /** The window among the `n` newest backups, all of them young enough. */
  ghost predicate WindowOf(s: Store, listing: seq<string>, ageLimit: Option<nat>, n: nat, window: seq<string>)
    requires n <= |listing| && forall b <- listing :: b in s.light
  {
    && NewestFirst(s, window)
    && (forall b :: b in window <==> b in listing[..n] && !s.light[b].schemaOnly)
    && forall b <- listing[..n] :: ageLimit.Some? && s.light[b].time >= ageLimit.value
  }

  lemma WindowGrows(s: Store, listing: seq<string>, ageLimit: Option<nat>, n: nat, window: seq<string>,
                    more: seq<string>)
    requires NewestFirst(s, listing) && n < |listing| && WindowOf(s, listing, ageLimit, n, window)
    requires ageLimit.Some? && s.light[listing[n]].time >= ageLimit.value
    requires more == if s.light[listing[n]].schemaOnly then window else window + [listing[n]]
    ensures WindowOf(s, listing, ageLimit, n + 1, more)
  {
    TakenStaysOrdered(s, listing, n, window);
    forall b
      ensures b in listing[..n + 1] <==> b in listing[..n] || b == listing[n]
    {
      TakesOneMore(listing, n, b);
    }
  }

  lemma TakesOneMore(listing: seq<string>, n: nat, b: string)
    requires n < |listing|
    ensures b in listing[..n + 1] <==> b in listing[..n] || b == listing[n]
  {
    assert listing[..n + 1] == listing[..n] + [listing[n]];
  }

  /** The start of collect_dedup_info; without deduplication there is no age limit and the window is empty. */
  method CollectWindow(s: Store, listing: seq<string>, ageLimit: Option<nat>) returns (window: seq<string>)
    requires NewestFirst(s, listing) && forall b :: b in listing <==> b in s.light
    ensures NewestFirst(s, window)
    ensures forall b :: b in window <==>
                        b in s.light && ageLimit.Some? && s.light[b].time >= ageLimit.value && !s.light[b].schemaOnly
  {
    window := [];
    var i := 0;
    while i < |listing| && ageLimit.Some? && s.light[listing[i]].time >= ageLimit.value
      invariant i <= |listing| && WindowOf(s, listing, ageLimit, i, window)
    {
      ghost var before := window;
      if !s.light[listing[i]].schemaOnly {
        window := window + [listing[i]];
      }
      WindowGrows(s, listing, ageLimit, i, before, window);
      i := i + 1;
    }
    YoungComeFirst(s, listing, ageLimit, i);
  }

  // ---------- what the scan collects

  datatype Entry = Entry(name: string, meta: BackupMeta)

  /** The backups in the window newest first, the databases and the host of the new backup. */
  datatype Scan = Scan(entries: seq<Entry>, targets: set<string>, host: string)

  /** A row of the deduplication table. */
  datatype Row = Row(key: PartKey, backupName: string, linkPart: Option<string>, checksum: string, size: nat,
                     verified: bool)

  function Names(w: Scan): set<string> {
    set e <- w.entries :: e.name
  }

  function TableOf(key: PartKey): TableKey {
    TableKey(key.db, key.table)
  }

  /** A newer completed backup has the database; for non-replicated tables it must come from the same host. */
  predicate Shadowed(w: Scan, i: nat, db: string, replicated: bool)
    requires i <= |w.entries|
  {
    exists j | 0 <= j < i ::
      var m := w.entries[j].meta;
      m.state == Created && db in m.dbs && (replicated || m.hostname == w.host)
  }

  predicate TableScanned(w: Scan, i: nat, table: TableKey)
    requires i < |w.entries|
  {
    var m := w.entries[i].meta;
    && table.db in w.targets && table.db in m.dbs && table in m.replicated
    && !Shadowed(w, i, table.db, m.replicated[table])
    && (m.replicated[table] || m.hostname == w.host)
  }

  /** The part can serve: its table is scanned in this backup, and the backup that stores it is in the window. */
  predicate Eligible(w: Scan, i: nat, key: PartKey)
    requires i < |w.entries|
  {
    var m := w.entries[i].meta;
    && key in m.parts && TableScanned(w, i, TableOf(key))
    && (m.parts[key].link.Some? ==> m.parts[key].link.value in Names(w))
  }

  function EligibleAt(w: Scan, i: nat): set<PartKey>
    requires i < |w.entries|
  {
    set key <- w.entries[i].meta.parts | Eligible(w, i, key)
  }

  /** The parts that can serve from the `n` newest backups. */
  function EligibleBefore(w: Scan, n: nat): set<PartKey>
    requires n <= |w.entries|
  {
    if n == 0 then {} else EligibleBefore(w, n - 1) + EligibleAt(w, n - 1)
  }

  /** The newest backup from which the part can serve, if any. */
  function FirstIndex(w: Scan, n: nat, key: PartKey): (i: nat)
    requires n <= |w.entries|
    ensures i <= n && (i < n ==> key in w.entries[i].meta.parts)
  {
    if n == 0 then 0
    else
      var i := FirstIndex(w, n - 1, key);
      if i < n - 1 || Eligible(w, i, key) then i else n
  }

  lemma {:induction false} FirstIndexIsFirst(w: Scan, n: nat, key: PartKey)
    requires n <= |w.entries|
    ensures var i := FirstIndex(w, n, key);
            && (i < n ==> Eligible(w, i, key)) && (forall j | 0 <= j < i :: !Eligible(w, j, key))
            && (i < n <==> key in EligibleBefore(w, n))
  {
    if n > 0 {
      FirstIndexIsFirst(w, n - 1, key);
    }
  }

  function RowOf(w: Scan, i: nat, key: PartKey): Row
    requires i < |w.entries| && key in w.entries[i].meta.parts
  {
    var part := w.entries[i].meta.parts[key];
    Row(key, if part.link.Some? then part.link.value else w.entries[i].name, part.linkPart, part.checksum, part.size,
        part.link.Some?)
  }

  function Keys(rows: seq<Row>): (keys: seq<PartKey>)
    ensures |keys| == |rows|
  {
    seq(|rows|, i requires 0 <= i < |rows| => rows[i].key)
  }

  // ---------- the flags

  /** Which tables of a database are done with. */
  datatype Flags = Flags(replicatedHandled: bool, nonreplicatedHandled: bool)

  ghost predicate FlagsRight(w: Scan, i: nat, toHandle: map<string, Flags>)
    requires i <= |w.entries|
  {
    && (forall db :: db in toHandle <==> db in w.targets && !(Shadowed(w, i, db, true) && Shadowed(w, i, db, false)))
    && (forall db <- toHandle :: toHandle[db] == Flags(Shadowed(w, i, db, true), Shadowed(w, i, db, false)))
  }

  lemma ShadowedNext(w: Scan, i: nat, db: string, replicated: bool)
    requires i < |w.entries|
    ensures var m := w.entries[i].meta;
            Shadowed(w, i + 1, db, replicated) <==>
            Shadowed(w, i, db, replicated) || (m.state == Created && db in m.dbs &&
                (replicated || m.hostname == w.host))
  {
  }

  /** The loop over the databases of a backup: the flags to scan it with, and the flags for the next backup. */
  method OpenDatabases(w: Scan, i: nat, toHandle: map<string, Flags>)
    returns (iterate: map<string, Flags>, next: map<string, Flags>)
    requires i < |w.entries| && FlagsRight(w, i, toHandle)
    ensures iterate.Keys == toHandle.Keys * w.entries[i].meta.dbs && forall db <- iterate :: iterate[db] == toHandle[db]
    ensures FlagsRight(w, i + 1, next)
  {
    var m := w.entries[i].meta;
    var rest := m.dbs;
    iterate, next := map[], toHandle;
    while rest != {}
      invariant rest <= m.dbs
      invariant iterate.Keys == toHandle.Keys * (m.dbs - rest) && forall db <- iterate :: iterate[db] == toHandle[db]
      invariant forall db | db in rest || db !in m.dbs ::
                  (db in next <==> db in toHandle) && (db in next ==> next[db] == toHandle[db])
      invariant forall db | db in m.dbs - rest ::
                  && (db in next <==>
                        db in w.targets && !(Shadowed(w, i + 1, db, true) && Shadowed(w, i + 1, db, false)))
                  && (db in next ==> next[db] == Flags(Shadowed(w, i + 1, db, true), Shadowed(w, i + 1, db, false)))
    {
      var db :| db in rest;
      rest := rest - {db};
      ShadowedNext(w, i, db, true);
      ShadowedNext(w, i, db, false);
      if db in next {
        var flags := next[db];
        iterate := iterate[db := flags];
        if m.state == Created {
          flags := flags.(replicatedHandled := true);
          if m.hostname == w.host {
            flags := flags.(nonreplicatedHandled := true);
          }
          next := if flags.replicatedHandled && flags.nonreplicatedHandled then next - {db} else next[db := flags];
        }
      }
    }
    forall db | db !in m.dbs
      ensures Shadowed(w, i + 1, db, true) == Shadowed(w, i, db, true)
      ensures Shadowed(w, i + 1, db, false) == Shadowed(w, i, db, false)
    {
      ShadowedNext(w, i, db, true);
      ShadowedNext(w, i, db, false);
    }
  }

  // ---------- the rows

  /** Rows inserted into the deduplication table by a list of insert queries. */
  function Inserted(batches: seq<seq<Row>>): seq<Row> {
    if batches == [] then [] else Inserted(batches[..|batches| - 1]) + batches[|batches| - 1]
  }

  /** What the scan has collected: the parts seen, the queries sent, and the rows waiting for the next query. */
  datatype Collected = Collected(seen: set<PartKey>, batches: seq<seq<Row>>, batch: seq<Row>)

  function Rows(c: Collected): seq<Row> {
    Inserted(c.batches) + c.batch
  }

  /** The batches that are sent before they are full. */
  function Short(batches: seq<seq<Row>>, batchSize: int): nat {
    if batches == [] then 0
    else
      var last := |batches| - 1;
      Short(batches[..last], batchSize) + if |batches[last]| < batchSize then 1 else 0
  }

  predicate BatchesFit(c: Collected, batchSize: int) {
    && BatchSizes(c.batches, batchSize)
    && (c.batch != [] ==> |c.batch| < batchSize)
  }

  /** `d` has collected, on top of `c`, exactly one row of backup `i` for each part in `keys` not seen before. */
  ghost predicate Extends(w: Scan, i: nat, c: Collected, d: Collected, keys: set<PartKey>)
    requires i < |w.entries| && keys <= w.entries[i].meta.parts.Keys
  {
    && d.seen == c.seen + keys && |Rows(c)| <= |Rows(d)| && Rows(d)[..|Rows(c)|] == Rows(c)
    && multiset(Keys(Rows(d)[|Rows(c)|..])) == multiset(keys - c.seen)
    && forall n | |Rows(c)| <= n < |Rows(d)| :: Rows(d)[n].key in keys && Rows(d)[n] == RowOf(w, i, Rows(d)[n].key)
  }

  lemma ExtendsBy(w: Scan, i: nat, c: Collected, d: Collected, e: Collected, k1: set<PartKey>, k2: set<PartKey>,
                  keys: set<PartKey>)
    requires i < |w.entries| && k1 <= w.entries[i].meta.parts.Keys && k2 <= w.entries[i].meta.parts.Keys
    requires Extends(w, i, c, d, k1) && Extends(w, i, d, e, k2) && keys == k1 + k2
    ensures Extends(w, i, c, e, keys)
  {
    var a, b := Rows(d)[|Rows(c)|..], Rows(e)[|Rows(d)|..];
    assert Rows(e)[|Rows(c)|..] == a + b;
    assert Keys(a + b) == Keys(a) + Keys(b);
    NewKeys(c.seen, k1, k2);
  }

  lemma NewKeys(seen: set<PartKey>, k1: set<PartKey>, k2: set<PartKey>)
    ensures multiset((k1 + k2) - seen) == multiset(k1 - seen) + multiset(k2 - (seen + k1))
  {
  }

  lemma NothingNew(w: Scan, i: nat, c: Collected, keys: set<PartKey>)
    requires i < |w.entries| && keys <= w.entries[i].meta.parts.Keys && keys <= c.seen
    ensures Extends(w, i, c, c, keys)
  {
    assert keys - c.seen == {};
    assert Rows(c)[|Rows(c)|..] == [];
  }

  lemma RowAdded(w: Scan, i: nat, c: Collected, d: Collected, key: PartKey)
    requires i < |w.entries| && key in w.entries[i].meta.parts && key !in c.seen
    requires d.seen == c.seen + {key} && Rows(d) == Rows(c) + [RowOf(w, i, key)]
    ensures Extends(w, i, c, d, {key})
  {
    var added := [RowOf(w, i, key)];
    assert Rows(d)[|Rows(c)|..] == added;
    assert Keys(added) == [key];
    assert {key} - c.seen == {key};
  }

  /** One part. */
  method AddPart(w: Scan, i: nat, key: PartKey, batchSize: int, c: Collected) returns (d: Collected)
    requires i < |w.entries| && key in w.entries[i].meta.parts && TableScanned(w, i, TableOf(key))
    requires BatchesFit(c, batchSize)
    ensures BatchesFit(d, batchSize) && Short(d.batches, batchSize) == Short(c.batches, batchSize)
    ensures Extends(w, i, c, d, {key} * EligibleAt(w, i))
  {
    d := c;
    var part := w.entries[i].meta.parts[key];
    assert key in EligibleAt(w, i) <==> part.link == None || part.link.value in Names(w);
    if key in c.seen {
      NothingNew(w, i, c, {key} * EligibleAt(w, i));
      return;
    }
    if part.link.Some? && part.link.value !in Names(w) {
      assert {key} * EligibleAt(w, i) == {};
      NothingNew(w, i, c, {});
      return;
    }
    var backupName := if part.link.Some? then part.link.value else w.entries[i].name;
    var row := Row(key, backupName, part.linkPart, part.checksum, part.size, part.link.Some?);
    d := Append(c, row, batchSize);
    RowAdded(w, i, c, d, key);
    assert {key} * EligibleAt(w, i) == {key};
  }

  /** Puts a row into the batch and sends the batch when it is full. */
  function Append(c: Collected, row: Row, batchSize: int): (d: Collected)
    requires BatchesFit(c, batchSize)
    ensures BatchesFit(d, batchSize) && Rows(d) == Rows(c) + [row] && d.seen == c.seen + {row.key}
    ensures Short(d.batches, batchSize) == Short(c.batches, batchSize)
  {
    var d := c.(seen := c.seen + {row.key}, batch := c.batch + [row]);
    assert Rows(d) == Rows(c) + [row];
    ShortSnoc(d.batches, d.batch, batchSize);
    if |d.batch| >= batchSize then Flush(d) else d
  }

  lemma ShortSnoc(batches: seq<seq<Row>>, batch: seq<Row>, batchSize: int)
    ensures Short(batches + [batch], batchSize)
            == Short(batches, batchSize) + if |batch| < batchSize then 1 else 0
  {
    assert (batches + [batch])[..|batches|] == batches;
  }

  function Flush(c: Collected): (d: Collected)
    ensures Rows(d) == Rows(c) && d.batch == [] && d.seen == c.seen && d.batches == c.batches + [c.batch]
  {
    c.(batches := c.batches + [c.batch], batch := [])
  }

  // ---------- the loops

  /** The eligible parts of one backup that belong to some tables. */
  function InTables(w: Scan, i: nat, tables: set<TableKey>): set<PartKey>
    requires i < |w.entries|
  {
    set key <- EligibleAt(w, i) | TableOf(key) in tables
  }

  lemma InTablesAdd(w: Scan, i: nat, tables: set<TableKey>, table: TableKey)
    requires i < |w.entries|
    ensures InTables(w, i, tables + {table}) == InTables(w, i, tables) + InTables(w, i, {table})
  {
  }

  lemma InTablesAll(w: Scan, i: nat, tables: set<TableKey>, db: string)
    requires i < |w.entries| && tables == set table <- w.entries[i].meta.replicated | table.db == db
    ensures InTables(w, i, tables) == InDatabases(w, i, {db})
  {
  }

  lemma OneMore(parts: set<PartKey>, rest: set<PartKey>, key: PartKey, eligible: set<PartKey>)
    requires rest <= parts && key in rest
    ensures (parts - (rest - {key})) * eligible == (parts - rest) * eligible + {key} * eligible
  {
  }

  method ScanParts(w: Scan, i: nat, table: TableKey, batchSize: int, c: Collected) returns (d: Collected)
    requires i < |w.entries| && TableScanned(w, i, table) && BatchesFit(c, batchSize)
    ensures BatchesFit(d, batchSize) && Extends(w, i, c, d, InTables(w, i, {table}))
    ensures Short(d.batches, batchSize) == Short(c.batches, batchSize)
  {
    d := c;
    var parts := set key <- w.entries[i].meta.parts | TableOf(key) == table;
    var rest := parts;
    NothingNew(w, i, c, {});
    while rest != {}
      invariant rest <= parts && BatchesFit(d, batchSize) && Short(d.batches, batchSize) == Short(c.batches, batchSize)
      invariant Extends(w, i, c, d, (parts - rest) * EligibleAt(w, i))
    {
      var key :| key in rest;
      ghost var before := d;
      OneMore(parts, rest, key, EligibleAt(w, i));
      d := AddPart(w, i, key, batchSize, d);
      ExtendsBy(w, i, c, before, d, (parts - rest) * EligibleAt(w, i), {key} * EligibleAt(w, i),
                (parts - (rest - {key})) * EligibleAt(w, i));
      rest := rest - {key};
    }
    assert parts - rest == parts;
    assert parts * EligibleAt(w, i) == InTables(w, i, {table});
  }

  method ScanTable(w: Scan, i: nat, table: TableKey, flags: Flags, batchSize: int, c: Collected) returns (d: Collected)
    requires i < |w.entries| && table in w.entries[i].meta.replicated
    requires table.db in w.targets && table.db in w.entries[i].meta.dbs
    requires flags == Flags(Shadowed(w, i, table.db, true), Shadowed(w, i, table.db, false))
    requires BatchesFit(c, batchSize)
    ensures BatchesFit(d, batchSize) && Extends(w, i, c, d, InTables(w, i, {table}))
    ensures Short(d.batches, batchSize) == Short(c.batches, batchSize)
  {
    d := c;
    var m := w.entries[i].meta;
    var onlyReplicated := w.host != m.hostname;
    if m.replicated[table] && flags.replicatedHandled {
      NotScanned(w, i, c, table);
      return;
    }
    if !m.replicated[table] && (flags.nonreplicatedHandled || onlyReplicated) {
      NotScanned(w, i, c, table);
      return;
    }
    d := ScanParts(w, i, table, batchSize, c);
  }

  lemma NotScanned(w: Scan, i: nat, c: Collected, table: TableKey)
    requires i < |w.entries| && !TableScanned(w, i, table)
    ensures InTables(w, i, {table}) == {} && Extends(w, i, c, c, InTables(w, i, {table}))
  {
    NothingNew(w, i, c, {});
  }

  /** The eligible parts of one backup that belong to some databases. */
  function InDatabases(w: Scan, i: nat, dbs: set<string>): set<PartKey>
    requires i < |w.entries|
  {
    set key <- EligibleAt(w, i) | key.db in dbs
  }

  method ScanDatabase(w: Scan, i: nat, db: string, flags: Flags, batchSize: int, c: Collected) returns (d: Collected)
    requires i < |w.entries| && db in w.targets && db in w.entries[i].meta.dbs
    requires flags == Flags(Shadowed(w, i, db, true), Shadowed(w, i, db, false))
    requires BatchesFit(c, batchSize)
    ensures BatchesFit(d, batchSize) && Extends(w, i, c, d, InDatabases(w, i, {db}))
    ensures Short(d.batches, batchSize) == Short(c.batches, batchSize)
  {
    d := c;
    var tables := set table <- w.entries[i].meta.replicated | table.db == db;
    var rest := tables;
    NothingNew(w, i, c, {});
    while rest != {}
      invariant rest <= tables && BatchesFit(d, batchSize) && Short(d.batches, batchSize) == Short(c.batches, batchSize)
      invariant Extends(w, i, c, d, InTables(w, i, tables - rest))
    {
      var table :| table in rest;
      ghost var before := d;
      d := ScanTable(w, i, table, flags, batchSize, d);
      InTablesAdd(w, i, tables - rest, table);
      assert tables - (rest - {table}) == (tables - rest) + {table};
      ExtendsBy(w, i, c, before, d, InTables(w, i, tables - rest), InTables(w, i, {table}),
                InTables(w, i, tables - (rest - {table})));
      rest := rest - {table};
    }
    assert tables - rest == tables;
    InTablesAll(w, i, tables, db);
  }

  lemma InDatabasesAdd(w: Scan, i: nat, dbs: set<string>, db: string)
    requires i < |w.entries|
    ensures InDatabases(w, i, dbs + {db}) == InDatabases(w, i, dbs) + InDatabases(w, i, {db})
  {
  }

  method ScanBackup(w: Scan, i: nat, iterate: map<string, Flags>, batchSize: int, c: Collected) returns (d: Collected)
    requires i < |w.entries| && iterate.Keys <= w.targets * w.entries[i].meta.dbs
    requires forall db <- iterate :: iterate[db] == Flags(Shadowed(w, i, db, true), Shadowed(w, i, db, false))
    requires BatchesFit(c, batchSize) && c.batch == []
    ensures BatchesFit(d, batchSize) && d.batch == [] && Extends(w, i, c, d, InDatabases(w, i, iterate.Keys))
    ensures Short(d.batches, batchSize) <= Short(c.batches, batchSize) + 1
  {
    d := c;
    var rest := iterate.Keys;
    NothingNew(w, i, c, {});
    assert InDatabases(w, i, {}) == {};
    while rest != {}
      invariant rest <= iterate.Keys && BatchesFit(d, batchSize)
      invariant Short(d.batches, batchSize) == Short(c.batches, batchSize)
      invariant Extends(w, i, c, d, InDatabases(w, i, iterate.Keys - rest))
    {
      var db :| db in rest;
      ghost var before := d;
      d := ScanDatabase(w, i, db, iterate[db], batchSize, d);
      InDatabasesAdd(w, i, iterate.Keys - rest, db);
      assert iterate.Keys - (rest - {db}) == (iterate.Keys - rest) + {db};
      ExtendsBy(w, i, c, before, d, InDatabases(w, i, iterate.Keys - rest), InDatabases(w, i, {db}),
                InDatabases(w, i, iterate.Keys - (rest - {db})));
      rest := rest - {db};
    }
    assert iterate.Keys - rest == iterate.Keys;
    if d.batch != [] {
      ShortSnoc(d.batches, d.batch, batchSize);
      d := Flush(d);
    }
  }

  // ---------- the scan

  /**
   * Exactly the parts that can serve from the `n` newest backups have a row, one each, taken from the newest backup
   * from which they can serve, and rows from newer backups come first.
   */
  ghost predicate ScanOf(w: Scan, n: nat, rows: seq<Row>)
    requires n <= |w.entries|
  {
    && multiset(Keys(rows)) == multiset(EligibleBefore(w, n))
    && (forall j | 0 <= j < |rows| ::
          var first := FirstIndex(w, n, rows[j].key);
          first < n && rows[j] == RowOf(w, first, rows[j].key))
    && (forall j, k | 0 <= j < k < |rows| :: FirstIndex(w, n, rows[j].key) <= FirstIndex(w, n, rows[k].key))
  }

  lemma AllShadowed(w: Scan, i: nat, j: nat)
    requires i <= j < |w.entries| && forall db <- w.targets :: Shadowed(w, i, db, true) && Shadowed(w, i, db, false)
    ensures EligibleAt(w, j) == {}
  {
    forall db, repl | db in w.targets
      ensures Shadowed(w, j, db, repl)
    {
      assert Shadowed(w, i, db, repl);
      var k :| 0 <= k < i && w.entries[k].meta.state == Created && db in w.entries[k].meta.dbs
               && (repl || w.entries[k].meta.hostname == w.host);
      assert k < j;
    }
  }

  lemma {:induction false} EligibleStays(w: Scan, i: nat, n: nat)
    requires i <= n <= |w.entries| && forall k | i <= k < n :: EligibleAt(w, k) == {}
    ensures EligibleBefore(w, n) == EligibleBefore(w, i)
    decreases n
  {
    if i < n {
      EligibleStays(w, i, n - 1);
    }
  }

  lemma FirstIndexStays(w: Scan, i: nat, n: nat, key: PartKey)
    requires i <= n <= |w.entries| && FirstIndex(w, i, key) < i
    ensures FirstIndex(w, n, key) == FirstIndex(w, i, key)
  {
    FirstIndexIsFirst(w, i, key);
    FirstIndexIsFirst(w, n, key);
    var f := FirstIndex(w, i, key);
    assert Eligible(w, f, key) && FirstIndex(w, n, key) <= f;
  }

  lemma NothingMore(w: Scan, i: nat, n: nat, rows: seq<Row>)
    requires i <= n <= |w.entries| && ScanOf(w, i, rows) && forall k | i <= k < n :: EligibleAt(w, k) == {}
    ensures ScanOf(w, n, rows)
  {
    EligibleStays(w, i, n);
    forall j | 0 <= j < |rows|
      ensures FirstIndex(w, n, rows[j].key) == FirstIndex(w, i, rows[j].key) < i
    {
      FirstIndexStays(w, i, n, rows[j].key);
    }
  }

  /** Between two backups of the scan. */
  ghost predicate Scanned(w: Scan, i: nat, batchSize: int, c: Collected)
    requires i <= |w.entries|
  {
    && BatchesFit(c, batchSize) && c.batch == [] && Short(c.batches, batchSize) <= i
    && c.seen == EligibleBefore(w, i) && ScanOf(w, i, Inserted(c.batches))
  }

  ghost predicate Midway(w: Scan, i: nat, toHandle: map<string, Flags>, batchSize: int, c: Collected)
    requires i <= |w.entries|
  {
    FlagsRight(w, i, toHandle) && Scanned(w, i, batchSize, c)
  }

  /** The rows are those of a full scan, in full batches but for one of each backup. */
  ghost predicate FullScan(w: Scan, batchSize: int, batches: seq<seq<Row>>) {
    && ScanOf(w, |w.entries|, Inserted(batches))
    && BatchSizes(batches, batchSize) && Short(batches, batchSize) <= |w.entries|
  }

  /**
   * The rows of a full scan one by one. Each is for a part of a backup in the window that has its table in a database
   * to be backed up; the table is replicated or the backup is from the same host; no newer completed backup has the
   * database, of the same host unless the table is replicated; and a linked part's owner is in the window.
   */
  lemma RowsExplained(w: Scan, batchSize: int, batches: seq<seq<Row>>, row: Row)
    requires FullScan(w, batchSize, batches) && row in Inserted(batches)
    ensures exists i | 0 <= i < |w.entries| ::
              var m := w.entries[i].meta;
              && row.key in m.parts && row.key.db in w.targets && row.key.db in m.dbs
              && TableOf(row.key) in m.replicated
              && (m.replicated[TableOf(row.key)] || m.hostname == w.host)
              && (forall j | 0 <= j < i && w.entries[j].meta.state == Created && row.key.db in w.entries[j].meta.dbs ::
                    !m.replicated[TableOf(row.key)] && w.entries[j].meta.hostname != w.host)
              && var part := m.parts[row.key];
                 && row.checksum == part.checksum && row.size == part.size && row.linkPart == part.linkPart
                 && (row.verified <==> part.link.Some?)
                 && row.backupName == (if part.link.Some? then part.link.value else w.entries[i].name)
                 && (row.verified ==> exists k | 0 <= k < |w.entries| :: w.entries[k].name == row.backupName)
  {
    var rows, n := Inserted(batches), |w.entries|;
    var j :| 0 <= j < |rows| && rows[j] == row;
    var i := FirstIndex(w, n, row.key);
    assert rows[j] == RowOf(w, i, row.key);
    FirstIndexIsFirst(w, n, row.key);
    assert Eligible(w, i, row.key);
    var part := w.entries[i].meta.parts[row.key];
    if part.link.Some? {
      assert part.link.value in Names(w);
      var e :| e in w.entries && e.name == part.link.value;
      var k :| 0 <= k < n && w.entries[k] == e;
    }
  }

  /** And each part that can serve so has a row, one. */
  lemma ServingPartsHaveRows(w: Scan, batchSize: int, batches: seq<seq<Row>>, i: nat, key: PartKey)
    requires FullScan(w, batchSize, batches) && i < |w.entries|
    requires var m := w.entries[i].meta;
             && key in m.parts && key.db in w.targets && key.db in m.dbs && TableOf(key) in m.replicated
             && (m.replicated[TableOf(key)] || m.hostname == w.host)
             && (forall j | 0 <= j < i && w.entries[j].meta.state == Created && key.db in w.entries[j].meta.dbs ::
                   !m.replicated[TableOf(key)] && w.entries[j].meta.hostname != w.host)
             && (m.parts[key].link.Some? ==>
                   exists k | 0 <= k < |w.entries| :: w.entries[k].name == m.parts[key].link.value)
    ensures multiset(Keys(Inserted(batches)))[key] == 1
  {
    var m := w.entries[i].meta;
    if m.parts[key].link.Some? {
      var k :| 0 <= k < |w.entries| && w.entries[k].name == m.parts[key].link.value;
      assert w.entries[k] in w.entries;
    }
    assert Eligible(w, i, key) && key in EligibleAt(w, i);
    EligibleAmong(w, i, |w.entries|, key);
  }

  lemma {:induction false} EligibleAmong(w: Scan, i: nat, n: nat, key: PartKey)
    requires i < n <= |w.entries| && key in EligibleAt(w, i)
    ensures key in EligibleBefore(w, n)
  {
    if i < n - 1 {
      EligibleAmong(w, i, n - 1, key);
    }
  }

  /** The body of the loop over the backups. */
  method ScanOne(w: Scan, i: nat, toHandle: map<string, Flags>, batchSize: int, c: Collected)
    returns (next: map<string, Flags>, d: Collected)
    requires i < |w.entries| && Midway(w, i, toHandle, batchSize, c)
    ensures Midway(w, i + 1, next, batchSize, d)
  {
    var iterate;
    iterate, next := OpenDatabases(w, i, toHandle);
    d := ScanBackup(w, i, iterate, batchSize, c);
    AllInDatabases(w, i, iterate.Keys);
    assert Rows(c) == Inserted(c.batches) && Rows(d) == Inserted(d.batches);
    ScanNext(w, i, c, d);
  }

  /** Nothing is missed by ending the scan as soon as no database is left to handle. */
  lemma EarlyEnd(w: Scan, i: nat, toHandle: map<string, Flags>, batchSize: int, c: Collected)
    requires i <= |w.entries| && Midway(w, i, toHandle, batchSize, c) && (toHandle == map[] || i == |w.entries|)
    ensures FullScan(w, batchSize, c.batches)
  {
    if i == |w.entries| {
      return;
    }
    forall k | i <= k < |w.entries|
      ensures EligibleAt(w, k) == {}
    {
      AllShadowed(w, i, k);
    }
    NothingMore(w, i, |w.entries|, Inserted(c.batches));
  }

  /** Before the first backup all databases are to be handled. */
  method BeginScan(w: Scan, ghost batchSize: int) returns (toHandle: map<string, Flags>, c: Collected)
    ensures Midway(w, 0, toHandle, batchSize, c)
  {
    c := Collected({}, [], []);
    toHandle := map db | db in w.targets :: Flags(false, false);
  }

  /** Full batches, but for the last one of each backup. */
  predicate BatchSizes(batches: seq<seq<Row>>, batchSize: int) {
    forall b <- batches :: 1 <= |b| && (|b| == 1 || |b| <= batchSize)
  }

  method PopulateDedupInfo(w: Scan, batchSize: int) returns (batches: seq<seq<Row>>)
    ensures FullScan(w, batchSize, batches)
  {
    var toHandle, c := BeginScan(w, batchSize);
    var i := 0;
    while i < |w.entries|
      invariant i <= |w.entries| && Midway(w, i, toHandle, batchSize, c)
    {
      toHandle, c := ScanOne(w, i, toHandle, batchSize, c);
      i := i + 1;
      if |toHandle| == 0 {
        break;
      }
    }
    batches := c.batches;
    EarlyEnd(w, i, toHandle, batchSize, c);
  }

  lemma AllInDatabases(w: Scan, i: nat, dbs: set<string>)
    requires i < |w.entries|
    requires forall db | db in w.targets && db in w.entries[i].meta.dbs && db !in dbs ::
               Shadowed(w, i, db, true) && Shadowed(w, i, db, false)
    ensures InDatabases(w, i, dbs) == EligibleAt(w, i)
  {
  }

  lemma FirstIndexNext(w: Scan, n: nat, key: PartKey)
    requires n < |w.entries|
    ensures key in EligibleBefore(w, n) ==>
              FirstIndex(w, n, key) < n && FirstIndex(w, n + 1, key) == FirstIndex(w, n, key)
    ensures key in EligibleAt(w, n) - EligibleBefore(w, n) ==> FirstIndex(w, n + 1, key) == n
  {
    FirstIndexIsFirst(w, n, key);
    FirstIndexIsFirst(w, n + 1, key);
  }

  lemma AddedAreNew(w: Scan, i: nat, c: Collected, d: Collected, keys: set<PartKey>, n: nat)
    requires i < |w.entries| && keys <= w.entries[i].meta.parts.Keys && Extends(w, i, c, d, keys)
    requires |Rows(c)| <= n < |Rows(d)|
    ensures Rows(d)[n].key in keys - c.seen
  {
    var added := Keys(Rows(d)[|Rows(c)|..]);
    assert added[n - |Rows(c)|] == Rows(d)[n].key;
    assert Rows(d)[n].key in multiset(added);
  }

  lemma ScanNext(w: Scan, i: nat, c: Collected, d: Collected)
    requires i < |w.entries| && ScanOf(w, i, Rows(c)) && c.seen == EligibleBefore(w, i)
    requires Extends(w, i, c, d, EligibleAt(w, i))
    ensures ScanOf(w, i + 1, Rows(d)) && d.seen == EligibleBefore(w, i + 1)
  {
    var old', rows := Rows(c), Rows(d);
    forall n | 0 <= n < |rows|
      ensures n < |old'| ==>
                rows[n] == old'[n] && FirstIndex(w, i + 1, rows[n].key) == FirstIndex(w, i, rows[n].key) < i
      ensures n >= |old'| ==> FirstIndex(w, i + 1, rows[n].key) == i && rows[n] == RowOf(w, i, rows[n].key)
    {
      FirstIndexNext(w, i, rows[n].key);
      if n < |old'| {
        assert rows[n] == rows[..|old'|][n];
      } else {
        AddedAreNew(w, i, c, d, EligibleAt(w, i), n);
      }
    }
    AllKeysOnce(w, i, c, d);
  }

  lemma AllKeysOnce(w: Scan, i: nat, c: Collected, d: Collected)
    requires i < |w.entries| && multiset(Keys(Rows(c))) == multiset(EligibleBefore(w, i)) &&
             c.seen == EligibleBefore(w, i)
    requires Extends(w, i, c, d, EligibleAt(w, i))
    ensures multiset(Keys(Rows(d))) == multiset(EligibleBefore(w, i + 1))
  {
    assert Rows(d) == Rows(c) + Rows(d)[|Rows(c)|..];
    assert Keys(Rows(d)) == Keys(Rows(c)) + Keys(Rows(d)[|Rows(c)|..]);
    assert EligibleBefore(w, i + 1) == EligibleBefore(w, i) + (EligibleAt(w, i) - c.seen);
  }
}
