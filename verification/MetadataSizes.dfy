/** The size counters of backup metadata (backup_metadata.py) and the parts they stand for. */
module MetadataSizes {
  import opened Bytes
  import opened BackupStore

  type Parts = map<PartKey, PartMeta>

  /** The total weight of some parts. */
  ghost function Total(parts: Parts, weight: PartMeta -> int): int {
    if parts == map[] then 0
    else
      var key :| key in parts;
      weight(parts[key]) + Total(parts - {key}, weight)
  }

  lemma {:induction false} TotalWithout(parts: Parts, weight: PartMeta -> int, key: PartKey)
    requires key in parts
    ensures Total(parts, weight) == weight(parts[key]) + Total(parts - {key}, weight)
    decreases |parts|
  {
    var chosen :| chosen in parts && Total(parts, weight) == weight(parts[chosen]) + Total(parts - {chosen}, weight);
    if chosen != key {
      TotalWithout(parts - {chosen}, weight, key);
      TotalWithout(parts - {key}, weight, chosen);
      assert parts - {chosen} - {key} == parts - {key} - {chosen};
    }
  }

  lemma TotalWith(parts: Parts, weight: PartMeta -> int, key: PartKey, part: PartMeta)
    requires key !in parts
    ensures Total(parts[key := part], weight) == weight(part) + Total(parts, weight)
  {
    TotalWithout(parts[key := part], weight, key);
    assert parts[key := part] - {key} == parts;
  }

  function Size(part: PartMeta): int {
    part.size
  }

  /** What the part takes up in this backup. */
  function RealSize(part: PartMeta): int {
    if part.link.Some? then 0 else part.size
  }

  /** The parts called `names` in the content of a table. */
  function PartsOf(table: TableKey, content: map<string, PartMeta>, names: set<string>): Parts {
    map name | name in names && name in content :: PartKey(table.db, table.table, name) := content[name]
  }

  lemma OnePartMore(parts: Parts, table: TableKey, content: map<string, PartMeta>, names: set<string>, name: string)
    requires name in content && name !in names
    requires forall n :: PartKey(table.db, table.table, n) !in parts
    ensures PartKey(table.db, table.table, name) !in parts + PartsOf(table, content, names)
    ensures (parts + PartsOf(table, content, names))[PartKey(table.db, table.table, name) := content[name]]
         == parts + PartsOf(table, content, names + {name})
  {
  }

  datatype Outcome = Done | KeyError | AssertionError

  class BackupMetadata {
    var databases: set<string>
    var tables: set<TableKey>
    var parts: Parts
    var size: int
    var realSize: int

    /** Parts belong to listed tables, and the counters are their totals. */
    ghost predicate Valid()
      reads this
    {
      && (forall key <- parts :: TableKey(key.db, key.table) in tables)
      && size == Total(parts, Size)
      && realSize == Total(parts, RealSize)
    }

    constructor (databases: set<string>)
      ensures Valid() && this.databases == databases && tables == {} && parts == map[]
    {
      this.databases, tables, parts, size, realSize := databases, {}, map[], 0, 0;
    }

    /** The new entry and the counters, as add_part and add_table do it. */
    method Enter(key: PartKey, part: PartMeta)
      requires Valid() && key !in parts && TableKey(key.db, key.table) in tables
      modifies this`parts, this`size, this`realSize
      ensures Valid() && parts == old(parts)[key := part]
    {
      TotalWith(parts, Size, key, part);
      TotalWith(parts, RealSize, key, part);
      parts := parts[key := part];
      size := size + part.size;
      if part.link == None {
        realSize := realSize + part.size;
      }
    }

    /** add_part. */
    method AddPart(key: PartKey, part: PartMeta) returns (outcome: Outcome)
      requires Valid()
      modifies this`parts, this`size, this`realSize
      ensures Valid()
      ensures outcome == KeyError <==> TableKey(key.db, key.table) !in tables
      ensures outcome == AssertionError <==> TableKey(key.db, key.table) in tables && key in old(parts)
      ensures parts == if outcome == Done then old(parts)[key := part] else old(parts)
    {
      if TableKey(key.db, key.table) !in tables {
        return KeyError;
      }
      if key in parts {
        return AssertionError;
      }
      Enter(key, part);
      outcome := Done;
    }

    /** add_table for a table that brings parts of its own. */
    method AddTable(table: TableKey, content: map<string, PartMeta>) returns (outcome: Outcome)
      requires Valid()
      modifies this`tables, this`parts, this`size, this`realSize
      ensures Valid()
      ensures outcome == KeyError <==> table.db !in databases
      ensures outcome == AssertionError <==> table.db in databases && table in old(tables)
      ensures outcome != Done ==> parts == old(parts) && tables == old(tables)
      ensures outcome == Done ==>
                && tables == old(tables) + {table}
                && parts == old(parts) + PartsOf(table, content, content.Keys)
    {
      if table.db !in databases {
        return KeyError;
      }
      if table in tables {
        return AssertionError;
      }
      tables := tables + {table};
      var rest := content.Keys;
      while rest != {}
        invariant rest <= content.Keys && Valid() && tables == old(tables) + {table}
        invariant parts == old(parts) + PartsOf(table, content, content.Keys - rest)
      {
        var name :| name in rest;
        OnePartMore(old(parts), table, content, content.Keys - rest, name);
        assert content.Keys - (rest - {name}) == (content.Keys - rest) + {name};
        Enter(PartKey(table.db, table.table, name), content[name]);
        rest := rest - {name};
      }
      assert content.Keys - rest == content.Keys;
      outcome := Done;
    }

    /** remove_parts; even if it stops at a part that is not there, the counters match what is left. */
    method RemoveParts(keys: seq<PartKey>) returns (outcome: Outcome)
      requires Valid()
      modifies this`parts, this`size, this`realSize
      ensures Valid()
      ensures outcome == if Removable(old(parts), keys, |keys|) then Done else KeyError
      ensures outcome == Done ==> parts == Without(old(parts), keys, |keys|)
    {
      for i := 0 to |keys|
        invariant Valid() && parts == Without(old(parts), keys, i) && Removable(old(parts), keys, i)
      {
        var key := keys[i];
        WithoutOne(old(parts), keys, i);
        if key !in parts {
          return KeyError;
        }
        TotalWithout(parts, Size, key);
        TotalWithout(parts, RealSize, key);
        size := size - parts[key].size;
        if parts[key].link == None {
          realSize := realSize - parts[key].size;
        }
        parts := parts - {key};
      }
      outcome := Done;
    }
  }

  /** The first `n` keys are all there, and none comes twice. */
  predicate Removable(parts: Parts, keys: seq<PartKey>, n: nat)
    requires n <= |keys|
  {
    forall i | 0 <= i < n :: keys[i] in parts && keys[i] !in keys[..i]
  }

  function Without(parts: Parts, keys: seq<PartKey>, n: nat): Parts
    requires n <= |keys|
  {
    parts - set key <- keys[..n]
  }

  lemma WithoutOne(parts: Parts, keys: seq<PartKey>, n: nat)
    requires n < |keys|
    ensures keys[n] in Without(parts, keys, n) <==> keys[n] in parts && keys[n] !in keys[..n]
    ensures Without(parts, keys, n + 1) == Without(parts, keys, n) - {keys[n]}
  {
    assert keys[..n + 1] == keys[..n] + [keys[n]];
  }
}
