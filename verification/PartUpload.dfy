/**
 * Backing up the data of one table (table.py, exec_pool.py, upload_part_observer.py): frozen parts are deduplicated in
 * batches or handed to a pool of uploads, the callbacks of finished uploads enter parts into the metadata, and the
 * metadata is saved from time to time.
 */
module PartUpload {
  import opened Bytes
  import opened BackupStore

  datatype Outcome = Done | Raised

  datatype FrozenPart = FrozenPart(name: string, checksum: string, size: nat)

  type Parts = map<string, PartMeta>

  /** What deduplication finds for a batch. */
  type Dedup = map<string, FrozenPart> -> Parts

  ghost predicate Deduplicates(dedup: Dedup) {
    forall batch :: dedup(batch).Keys <= batch.Keys && forall n <- dedup(batch) :: dedup(batch)[n].link.Some?
  }

  /** `PartMetadata.from_frozen_part`. */
  function FromFrozen(f: FrozenPart): PartMeta {
    PartMeta(f.checksum, f.size, None, None)
  }

  /** The metadata lists own parts only if their data has been uploaded. */
  predicate Backed(listed: Parts, storage: set<string>) {
    forall n <- listed | listed[n].link == None :: n in storage
  }

  predicate Distinct(frozen: seq<FrozenPart>) {
    forall i, j | 0 <= i < j < |frozen| :: frozen[i].name != frozen[j].name
  }

  function NamesOf(frozen: seq<FrozenPart>): set<string> {
    set f <- frozen :: f.name
  }

  class TableDataBackup {
    /** Uploads run in the pool, or in place when there is none. */
    const pooled: bool
    /** Whether the n-th storage operation fails, and the n-th reading of the clock. */
    const fails: nat -> bool
    const clock: nat -> int
    const interval: int

    /** The parts of the table in the backup's metadata, and what has been uploaded completely. */
    var listed: Parts
    var storage: set<string>
    /** The jobs in the pool: the part that the callback of each enters. */
    var jobs: Parts
    /** The observer: parts uploaded so far and the time of the last save. */
    var uploaded: seq<string>
    var lastTime: int
    /** Every version of the metadata that was saved. */
    var saved: seq<Parts>
    var ops: nat
    var readings: nat
    /** The own parts that were listed before this table. */
    ghost const before: set<string>

    constructor (pooled: bool, fails: nat -> bool, clock: nat -> int, interval: int, listed: Parts,
                 storage: set<string>)
      requires Backed(listed, storage)
      ensures this.listed == listed && Valid() && jobs == map[]
    {
      this.pooled, this.fails, this.clock, this.interval := pooled, fails, clock, interval;
      this.listed, this.storage := listed, storage;
      jobs, saved, uploaded := map[], [], [];
      lastTime, ops, readings := clock(0), 0, 1;
      before := Own(listed);
    }

    /** No version of the metadata, saved or about to be, lists a part without its data; each upload is entered once. */
    ghost predicate Consistent()
      reads this
    {
      && Backed(listed, storage)
      && (forall s <- saved :: Backed(s, storage))
      && multiset(uploaded) + multiset(before) == multiset(Own(listed))
    }

    /** Besides, the jobs in the pool are for parts still to be listed. */
    ghost predicate Valid()
      reads this
    {
      Consistent() && jobs.Keys !! listed.Keys && forall n <- jobs :: jobs[n].link == None
    }

    /** No storage operation fails. */
    ghost predicate NoFaults() {
      forall n :: !fails(n)
    }

    /** upload_backup_metadata. */
    method SaveMetadata() returns (outcome: Outcome)
      requires Consistent()
      modifies this`saved, this`ops
      ensures Consistent() && old(saved) <= saved
      ensures outcome == Done ==> saved == old(saved) + [listed]
      ensures NoFaults() ==> outcome == Done
    {
      ops := ops + 1;
      if fails(ops - 1) {
        return Raised;
      }
      saved := saved + [listed];
      outcome := Done;
    }

    /** UploadPartObserver.__call__ for a part whose upload has just completed. */
    method Observe(name: string, part: PartMeta) returns (outcome: Outcome)
      requires Consistent() && name in storage && name !in listed && part.link == None
      modifies this`saved, this`ops, this`listed, this`uploaded, this`lastTime, this`readings
      ensures Consistent() && listed == old(listed)[name := part] && old(saved) <= saved
      ensures uploaded == old(uploaded) + [name] && readings == old(readings) + 1
      // the metadata is saved, as it is now, exactly if the interval is over
      ensures clock(old(readings)) - old(lastTime) < interval ==>
                outcome == Done && saved == old(saved) && lastTime == old(lastTime)
      ensures clock(old(readings)) - old(lastTime) >= interval && outcome == Done ==>
                saved == old(saved) + [listed] && lastTime == clock(old(readings))
      ensures NoFaults() ==> outcome == Done
    {
      uploaded := uploaded + [name];
      OwnAdd(listed, name, part);
      listed := listed[name := part];
      outcome := Done;
      var now := clock(readings);
      readings := readings + 1;
      if now - lastTime >= interval {
        outcome := SaveMetadata();
        if outcome == Done {
          lastTime := now;
        }
      }
    }

    /** upload_data_part: a job for the pool, or the upload and its callback in place. */
    method UploadDataPart(f: FrozenPart) returns (outcome: Outcome)
      requires Valid() && f.name !in listed
      modifies this
      ensures Consistent() && old(saved) <= saved
      ensures old(f.name !in jobs) && outcome == Done ==>
                && Valid() && Entered(listed, jobs, f.name, PartMeta(f.checksum, f.size, None, None))
                && listed == (if pooled then old(listed) else old(listed)[f.name := FromFrozen(f)])
                && jobs == (if pooled then old(jobs)[f.name := FromFrozen(f)] else old(jobs))
      ensures pooled && old(f.name in jobs) ==> outcome == Raised
      ensures NoFaults() && old(f.name !in jobs) ==> outcome == Done
    {
      if pooled {
        if f.name in jobs {
          return Raised;
        }
        jobs := jobs[f.name := FromFrozen(f)];
        return Done;
      }
      ops := ops + 1;
      if fails(ops - 1) {
        return Raised;
      }
      storage := storage + {f.name};
      outcome := Observe(f.name, FromFrozen(f));
    }

    /** One part of a batch. */
    method TakePart(f: FrozenPart, deduplicated: Parts) returns (outcome: Outcome)
      requires Valid() && f.name !in listed && f.name !in jobs
      requires f.name in deduplicated ==> deduplicated[f.name].link.Some?
      modifies this
      ensures Consistent() && old(saved) <= saved
      ensures outcome == Done ==>
                && Valid() && Grows(old(listed), old(jobs), listed, jobs)
                && listed.Keys + jobs.Keys == old(listed).Keys + old(jobs).Keys + {f.name}
                && Entered(listed, jobs, f.name, if f.name in deduplicated then deduplicated[f.name]
                                                 else PartMeta(f.checksum, f.size, None, None))
      ensures NoFaults() ==> outcome == Done
    {
      if f.name in deduplicated {
        OwnSame(listed, f.name, deduplicated[f.name]);
        listed := listed[f.name := deduplicated[f.name]];
        outcome := Done;
      } else {
        outcome := UploadDataPart(f);
      }
    }

    /** deduplicate_parts_in_batch. */
    method DeduplicateInBatch(batch: map<string, FrozenPart>, dedup: Dedup) returns (outcome: Outcome)
      requires Valid() && Deduplicates(dedup) && batch.Keys !! listed.Keys && batch.Keys !! jobs.Keys
      requires Named(batch)
      modifies this
      ensures Consistent() && old(saved) <= saved
      ensures outcome == Done ==>
                && Valid() && Grows(old(listed), old(jobs), listed, jobs)
                && listed.Keys + jobs.Keys == old(listed).Keys + old(jobs).Keys + batch.Keys
                && forall n <- batch ::
                     if n in dedup(batch) then n in listed && listed[n] == dedup(batch)[n] && n !in jobs
                     else Entered(listed, jobs, n, PartMeta(batch[n].checksum, batch[n].size, None, None))
      ensures NoFaults() ==> outcome == Done
    {
      var deduplicated := dedup(batch);
      var rest := batch.Keys;
      while rest != {}
        invariant rest <= batch.Keys && Valid() && old(saved) <= saved
        invariant Taken(old(listed), old(jobs), listed, jobs, batch, deduplicated, rest)
      {
        var n :| n in rest;
        ghost var listed', jobs' := listed, jobs;
        outcome := TakePart(batch[n], deduplicated);
        if outcome == Raised {
          return;
        }
        OneTaken(old(listed), old(jobs), listed', jobs', listed, jobs, batch, deduplicated, rest, n);
        rest := rest - {n};
      }
      outcome := Done;
      AllTaken(old(listed), old(jobs), listed, jobs, batch, deduplicated);
    }

    /** The jobs of the pool one by one as they complete, in any order, and the callback of each. */
    method WaitAll() returns (outcome: Outcome)
      requires Valid()
      modifies this
      ensures Consistent() && old(saved) <= saved
      ensures outcome == Done ==> Valid() && jobs == map[] && listed == old(listed) + old(jobs)
      ensures NoFaults() ==> outcome == Done
    {
      var rest := jobs.Keys;
      while rest != {}
        invariant rest <= jobs.Keys && jobs == old(jobs) && Consistent() && old(saved) <= saved
        invariant forall n <- jobs :: jobs[n].link == None
        invariant rest !! listed.Keys
        invariant listed == old(listed) + (old(jobs) - rest)
      {
        var n :| n in rest;
        ops := ops + 1;
        if fails(ops - 1) {
          return Raised;
        }
        storage := storage + {n};
        MergeOne(old(listed), old(jobs), rest, n);
        outcome := Observe(n, jobs[n]);
        if outcome == Raised {
          return;
        }
        rest := rest - {n};
      }
      jobs := map[];
      outcome := Done;
    }

    /**
     * _backup_frozen_table_data for parts on local disks. In whatever order uploads complete and wherever one fails,
     * every saved version of the metadata is consistent. It raises only if an operation has failed; otherwise exactly
     * the frozen parts get listed, each with the link that deduplication found for its batch, or as the frozen part
     * itself, uploaded and entered once.
     */
    method BackupFrozenTableData(frozen: seq<FrozenPart>, batchSize: int, dedup: Dedup) returns (outcome: Outcome)
      requires Valid() && jobs == map[] && Deduplicates(dedup)
      requires Distinct(frozen) && forall f <- frozen :: f.name !in listed
      modifies this
      ensures Consistent() && old(saved) <= saved
      ensures outcome == Done ==>
                && Valid() && jobs == map[] && listed.Keys == old(listed).Keys + NamesOf(frozen)
                && (forall n <- old(listed) :: listed[n] == old(listed)[n])
                && forall j | 0 <= j < |frozen| ::
                     var f, found := frozen[j], dedup(BatchAround(frozen, batchSize, j));
                     && f.name in listed
                     && listed[f.name] == if f.name in found then found[f.name]
                                          else PartMeta(f.checksum, f.size, None, None)
      ensures NoFaults() ==> outcome == Done
    {
      ghost var base := listed;
      outcome := ScanFrozenParts(frozen, batchSize, dedup);
      if outcome == Done {
        assert frozen[..|frozen|] == frozen;
        AllListed(base, listed, jobs, dedup, frozen, batchSize);
        outcome := WaitAll();
      }
    }

    /** The loop over the frozen parts, and the last batch. */
    method ScanFrozenParts(frozen: seq<FrozenPart>, batchSize: int, dedup: Dedup) returns (outcome: Outcome)
      requires Valid() && jobs == map[] && Deduplicates(dedup)
      requires Distinct(frozen) && forall f <- frozen :: f.name !in listed
      modifies this
      ensures Consistent() && old(saved) <= saved
      ensures outcome == Done ==> Valid() && Scanned(old(listed), listed, jobs, dedup, frozen, batchSize, |frozen|)
      ensures NoFaults() ==> outcome == Done
    {
      ghost var base := listed;
      NoProgressYet(base, listed, jobs, dedup, frozen, batchSize);
      var batch;
      ghost var flushed;
      outcome, batch, flushed := TakeAll(frozen, batchSize, dedup, base);
      if outcome == Done {
        outcome := FlushRest(frozen, batch, batchSize, dedup, base, flushed);
      }
    }

    /** Between two frozen parts. */
    ghost predicate Going(base: Parts, dedup: Dedup, frozen: seq<FrozenPart>, batchSize: int, lo: nat, i: nat,
                          batch: map<string, FrozenPart>)
      requires i <= |frozen|
      reads this
    {
      Valid() && Progress(base, listed, jobs, dedup, frozen, batchSize, lo, i, batch)
    }

    method TakeAll(frozen: seq<FrozenPart>, batchSize: int, dedup: Dedup, ghost base: Parts)
      returns (outcome: Outcome, batch: map<string, FrozenPart>, ghost flushed: nat)
      requires Valid() && Deduplicates(dedup) && Distinct(frozen) && forall f <- frozen :: f.name !in base
      requires Progress(base, listed, jobs, dedup, frozen, batchSize, 0, 0, map[])
      modifies this
      ensures Consistent() && old(saved) <= saved
      ensures outcome == Done ==>
                Valid() && Progress(base, listed, jobs, dedup, frozen, batchSize, flushed, |frozen|, batch)
      ensures NoFaults() ==> outcome == Done
    {
      outcome, batch, flushed := Done, map[], 0;
      for i := 0 to |frozen|
        invariant old(saved) <= saved && outcome == Done
        invariant Going(base, dedup, frozen, batchSize, flushed, i, batch)
      {
        outcome, batch, flushed := AddFrozen(frozen, i, batch, batchSize, dedup, base, flushed);
        if outcome != Done {
          return;
        }
      }
    }

    /** The last batch, if there is anything in it. */
    method FlushRest(ghost frozen: seq<FrozenPart>, batch: map<string, FrozenPart>, ghost batchSize: int, dedup: Dedup,
                     ghost base: Parts, ghost lo: nat)
      returns (outcome: Outcome)
      requires Valid() && Deduplicates(dedup) && Distinct(frozen) && forall f <- frozen :: f.name !in base
      requires Progress(base, listed, jobs, dedup, frozen, batchSize, lo, |frozen|, batch)
      modifies this
      ensures Consistent() && old(saved) <= saved
      ensures outcome == Done ==> Valid() && Scanned(base, listed, jobs, dedup, frozen, batchSize, |frozen|)
      ensures NoFaults() ==> outcome == Done
    {
      LastBatch(frozen, batchSize, lo);
      outcome := Done;
      if batch != map[] {
        outcome := FlushBatch(batch, dedup, base, frozen, batchSize, lo, |frozen|);
      }
    }

    /** A part joins the batch, and a full batch is dealt with. */
    method AddFrozen(frozen: seq<FrozenPart>, i: nat, pending: map<string, FrozenPart>, batchSize: int, dedup: Dedup,
                     ghost base: Parts, ghost lo: nat)
      returns (outcome: Outcome, batch: map<string, FrozenPart>, ghost flushed: nat)
      requires Valid() && Deduplicates(dedup) && Distinct(frozen) && forall f <- frozen :: f.name !in base
      requires i < |frozen| && Progress(base, listed, jobs, dedup, frozen, batchSize, lo, i, pending)
      modifies this
      ensures Consistent() && old(saved) <= saved
      ensures outcome == Done ==>
                Valid() && Progress(base, listed, jobs, dedup, frozen, batchSize, flushed, i + 1, batch)
      ensures NoFaults() ==> outcome == Done
    {
      NextInBatch(frozen, batchSize, lo, i);
      outcome, batch, flushed := Done, pending[frozen[i].name := frozen[i]], lo;
      if |batch| >= batchSize {
        outcome := FlushBatch(batch, dedup, base, frozen, batchSize, lo, i + 1);
        batch, flushed := map[], i + 1;
        NothingPending(frozen, i + 1);
      }
    }

    method FlushBatch(batch: map<string, FrozenPart>, dedup: Dedup, ghost base: Parts, ghost frozen: seq<FrozenPart>,
                      ghost batchSize: int, ghost lo: nat, ghost hi: nat)
      returns (outcome: Outcome)
      requires Valid() && Deduplicates(dedup) && Distinct(frozen) && forall f <- frozen :: f.name !in base
      requires IsBatch(|frozen|, batchSize, lo, hi) && batch == BatchOf(frozen, lo, hi)
      requires Scanned(base, listed, jobs, dedup, frozen, batchSize, lo)
      modifies this
      ensures Consistent() && old(saved) <= saved
      ensures outcome == Done ==> Valid() && Scanned(base, listed, jobs, dedup, frozen, batchSize, hi)
      ensures NoFaults() ==> outcome == Done
    {
      ghost var listed', jobs' := listed, jobs;
      NamesInBatch(frozen[lo..hi]);
      BatchIsNew(base, listed, jobs, dedup, frozen, batchSize, lo, hi);
      outcome := DeduplicateInBatch(batch, dedup);
      if outcome == Done {
        Flushed(base, listed', jobs', listed, jobs, dedup, frozen, batchSize, lo, hi);
      }
    }
  }

  // ---------- batches

  function ByName(parts: seq<FrozenPart>): map<string, FrozenPart> {
    if parts == [] then map[]
    else ByName(parts[..|parts| - 1])[parts[|parts| - 1].name := parts[|parts| - 1]]
  }

  lemma {:induction false} NamesInBatch(parts: seq<FrozenPart>)
    ensures ByName(parts).Keys == NamesOf(parts) && Named(ByName(parts))
  {
    if parts != [] {
      var init, last := parts[..|parts| - 1], parts[|parts| - 1];
      assert parts == init + [last];
      NamesInBatch(init);
    }
  }

  function BatchOf(frozen: seq<FrozenPart>, lo: nat, hi: nat): map<string, FrozenPart>
    requires lo <= hi <= |frozen|
  {
    ByName(frozen[lo..hi])
  }

  /** A batch size below one makes batches of one. */
  function Width(batchSize: int): (w: nat)
    ensures w > 0
  {
    if batchSize > 1 then batchSize else 1
  }

  /** Where the batch of the `j`-th part starts, if `w` parts go in each. */
  function BatchStart(j: nat, w: nat): (lo: nat)
    requires w > 0
    ensures lo <= j < lo + w
  {
    if j < w then 0 else w + BatchStart(j - w, w)
  }

  /** The batch that the part at `j` goes in: parts are taken in order, as many as a batch holds. */
  function BatchAround(frozen: seq<FrozenPart>, batchSize: int, j: nat): map<string, FrozenPart>
    requires j < |frozen|
  {
    var lo := BatchStart(j, Width(batchSize));
    BatchOf(frozen, lo, Min(lo + Width(batchSize), |frozen|))
  }

  /** A batch of the parts from `lo` to `hi`. */
  predicate IsBatch(n: nat, batchSize: int, lo: nat, hi: nat) {
    BatchStart(lo, Width(batchSize)) == lo && lo < hi <= n && hi == Min(lo + Width(batchSize), n)
  }

  /** Up to `flushed` batches are complete, and the next one is not. */
  predicate Batching(batchSize: int, flushed: nat, i: nat) {
    BatchStart(flushed, Width(batchSize)) == flushed && flushed <= i < flushed + Width(batchSize)
  }

  lemma SameBatch(frozen: seq<FrozenPart>, batchSize: int, lo: nat, hi: nat, j: nat)
    requires IsBatch(|frozen|, batchSize, lo, hi) && lo <= j < hi
    ensures BatchAround(frozen, batchSize, j) == BatchOf(frozen, lo, hi)
  {
    var w := Width(batchSize);
    StartOf(lo, j, w);
    assert BatchStart(j, w) == lo && Min(lo + w, |frozen|) == hi;
  }

  lemma {:induction false} StartOf(lo: nat, j: nat, w: nat)
    requires w > 0 && BatchStart(lo, w) == lo && lo <= j < lo + w
    ensures BatchStart(j, w) == lo
  {
    if lo >= w {
      StartOf(lo - w, j - w, w);
    }
  }

  lemma {:induction false} AsManyNames(parts: seq<FrozenPart>)
    requires Distinct(parts)
    ensures |ByName(parts)| == |parts|
  {
    if parts != [] {
      var init, last := parts[..|parts| - 1], parts[|parts| - 1];
      NamesInBatch(init);
      AsManyNames(init);
      assert last.name !in ByName(init);
    }
  }

  lemma NothingPending(frozen: seq<FrozenPart>, i: nat)
    requires i <= |frozen|
    ensures BatchOf(frozen, i, i) == map[]
  {
  }

  lemma ByNameSnoc(parts: seq<FrozenPart>, f: FrozenPart)
    ensures ByName(parts + [f]) == ByName(parts)[f.name := f]
  {
    assert (parts + [f])[..|parts|] == parts;
  }

  /** One more part in the batch of `lo`: the batch is complete, or it goes on. */
  lemma BatchGoesOn(n: nat, batchSize: int, lo: nat, i: nat)
    requires i < n && Batching(batchSize, lo, i)
    ensures if i + 1 - lo >= batchSize then IsBatch(n, batchSize, lo, i + 1) && Batching(batchSize, i + 1, i + 1)
            else Batching(batchSize, lo, i + 1)
  {
    var w := Width(batchSize);
    assert BatchStart(lo + w, w) == w + BatchStart(lo, w);
  }

  /** The batch with one more part is full exactly when it has reached the batch size. */
  lemma NextInBatch(frozen: seq<FrozenPart>, batchSize: int, lo: nat, i: nat)
    requires Distinct(frozen) && i < |frozen| && Batching(batchSize, lo, i)
    ensures var batch := BatchOf(frozen, lo, i)[frozen[i].name := frozen[i]];
            && batch == BatchOf(frozen, lo, i + 1)
            && (if |batch| >= batchSize then
                  IsBatch(|frozen|, batchSize, lo, i + 1) && Batching(batchSize, i + 1, i + 1)
                else Batching(batchSize, lo, i + 1))
  {
    assert frozen[lo..i + 1] == frozen[lo..i] + [frozen[i]];
    ByNameSnoc(frozen[lo..i], frozen[i]);
    AsManyNames(frozen[lo..i + 1]);
    BatchGoesOn(|frozen|, batchSize, lo, i);
  }

  lemma LastBatch(frozen: seq<FrozenPart>, batchSize: int, lo: nat)
    requires Batching(batchSize, lo, |frozen|)
    ensures BatchOf(frozen, lo, |frozen|) == map[] ==> lo == |frozen|
    ensures lo < |frozen| ==> IsBatch(|frozen|, batchSize, lo, |frozen|)
  {
    NamesInBatch(frozen[lo..|frozen|]);
    if lo < |frozen| {
      var last := frozen[lo..|frozen|][|frozen| - lo - 1];
      assert last in frozen[lo..|frozen|] && last.name in BatchOf(frozen, lo, |frozen|).Keys;
    }
  }

  // ---------- what has become of the parts

  /** The parts before `n` are in the metadata or in the pool, as deduplication of their batches decided. */
  ghost predicate Scanned(base: Parts, listed: Parts, jobs: Parts, dedup: Dedup, frozen: seq<FrozenPart>,
                          batchSize: int, n: nat)
    requires n <= |frozen|
  {
    && Grows(base, map[], listed, jobs) && jobs.Keys !! listed.Keys
    && listed.Keys + jobs.Keys == base.Keys + NamesOf(frozen[..n])
    && AllDecided(listed, jobs, dedup, frozen, batchSize, n)
  }

  ghost predicate AllDecided(listed: Parts, jobs: Parts, dedup: Dedup, frozen: seq<FrozenPart>, batchSize: int, n: nat)
    requires n <= |frozen|
  {
    forall j | 0 <= j < n :: Decided(listed, jobs, dedup, frozen, batchSize, j)
  }

  ghost predicate Decided(listed: Parts, jobs: Parts, dedup: Dedup, frozen: seq<FrozenPart>, batchSize: int, j: nat)
    requires j < |frozen|
  {
    Entered(listed, jobs, frozen[j].name, Decision(dedup(BatchAround(frozen, batchSize, j)), frozen[j]))
  }

  /** What a part is listed as, given what deduplication has found. */
  function Decision(found: Parts, f: FrozenPart): PartMeta {
    if f.name in found then found[f.name] else PartMeta(f.checksum, f.size, None, None)
  }

  /** Of the first `i` parts those before `lo` have been decided on, and the rest are in the batch. */
  ghost predicate Progress(base: Parts, listed: Parts, jobs: Parts, dedup: Dedup, frozen: seq<FrozenPart>,
                           batchSize: int, lo: nat, i: nat, batch: map<string, FrozenPart>)
    requires i <= |frozen|
  {
    && Batching(batchSize, lo, i) && batch == BatchOf(frozen, lo, i)
    && Scanned(base, listed, jobs, dedup, frozen, batchSize, lo)
  }

  lemma NoProgressYet(base: Parts, listed: Parts, jobs: Parts, dedup: Dedup, frozen: seq<FrozenPart>, batchSize: int)
    requires listed == base && jobs == map[]
    ensures Progress(base, listed, jobs, dedup, frozen, batchSize, 0, 0, map[])
  {
    NothingPending(frozen, 0);
  }

  lemma NamesSplit(frozen: seq<FrozenPart>, lo: nat, hi: nat)
    requires lo <= hi <= |frozen|
    ensures NamesOf(frozen[..hi]) == NamesOf(frozen[..lo]) + NamesOf(frozen[lo..hi])
  {
    assert frozen[..hi] == frozen[..lo] + frozen[lo..hi];
  }

  lemma BatchIsNew(base: Parts, listed: Parts, jobs: Parts, dedup: Dedup, frozen: seq<FrozenPart>, batchSize: int,
                   lo: nat, hi: nat)
    requires lo <= hi <= |frozen| && Distinct(frozen) && forall f <- frozen :: f.name !in base
    requires Scanned(base, listed, jobs, dedup, frozen, batchSize, lo)
    ensures BatchOf(frozen, lo, hi).Keys !! listed.Keys && BatchOf(frozen, lo, hi).Keys !! jobs.Keys
  {
    NamesInBatch(frozen[lo..hi]);
    forall n | n in NamesOf(frozen[lo..hi])
      ensures n !in base.Keys + NamesOf(frozen[..lo])
    {
      var f :| f in frozen[lo..hi] && f.name == n;
      assert f in frozen;
    }
  }

  lemma Flushed(base: Parts, listed: Parts, jobs: Parts, listed': Parts, jobs': Parts, dedup: Dedup,
                frozen: seq<FrozenPart>, batchSize: int, lo: nat, hi: nat)
    requires IsBatch(|frozen|, batchSize, lo, hi) && Scanned(base, listed, jobs, dedup, frozen, batchSize, lo)
    requires Grows(listed, jobs, listed', jobs') && jobs'.Keys !! listed'.Keys
    requires listed'.Keys + jobs'.Keys == listed.Keys + jobs.Keys + BatchOf(frozen, lo, hi).Keys
    requires var batch := BatchOf(frozen, lo, hi);
             forall n <- batch :: Entered(listed', jobs', n, Decision(dedup(batch), batch[n]))
    requires Distinct(frozen)
    ensures Scanned(base, listed', jobs', dedup, frozen, batchSize, hi)
  {
    NamesSplit(frozen, lo, hi);
    NamesInBatch(frozen[lo..hi]);
    BatchDecided(listed, jobs, listed', jobs', dedup, frozen, batchSize, lo, hi);
  }

  lemma BatchDecided(listed: Parts, jobs: Parts, listed': Parts, jobs': Parts, dedup: Dedup, frozen: seq<FrozenPart>,
                     batchSize: int, lo: nat, hi: nat)
    requires IsBatch(|frozen|, batchSize, lo, hi) && AllDecided(listed, jobs, dedup, frozen, batchSize, lo)
    requires Grows(listed, jobs, listed', jobs') && jobs'.Keys !! listed'.Keys && Distinct(frozen)
    requires var batch := BatchOf(frozen, lo, hi);
             forall n <- batch :: Entered(listed', jobs', n, Decision(dedup(batch), batch[n]))
    ensures AllDecided(listed', jobs', dedup, frozen, batchSize, hi)
  {
    forall j | 0 <= j < hi
      ensures Decided(listed', jobs', dedup, frozen, batchSize, j)
    {
      if j < lo {
        var decision := Decision(dedup(BatchAround(frozen, batchSize, j)), frozen[j]);
        assert Decided(listed, jobs, dedup, frozen, batchSize, j);
        StaysEntered(listed, jobs, listed', jobs', frozen[j].name, decision);
      } else {
        SameBatch(frozen, batchSize, lo, hi, j);
        NamedOnce(frozen[lo..hi], j - lo);
      }
    }
  }

  lemma StaysEntered(listed: Parts, jobs: Parts, listed': Parts, jobs': Parts, name: string, part: PartMeta)
    requires Entered(listed, jobs, name, part) && Grows(listed, jobs, listed', jobs') && jobs'.Keys !! listed'.Keys
    ensures Entered(listed', jobs', name, part)
  {
  }

  lemma {:induction false} NamedOnce(parts: seq<FrozenPart>, j: nat)
    requires Distinct(parts) && j < |parts|
    ensures parts[j].name in ByName(parts) && ByName(parts)[parts[j].name] == parts[j]
  {
    if j < |parts| - 1 {
      NamedOnce(parts[..|parts| - 1], j);
    }
  }

  lemma AllListed(base: Parts, listed: Parts, jobs: Parts, dedup: Dedup, frozen: seq<FrozenPart>, batchSize: int)
    requires Scanned(base, listed, jobs, dedup, frozen, batchSize, |frozen|)
    ensures (listed + jobs).Keys == base.Keys + NamesOf(frozen) && forall n <- base :: (listed + jobs)[n] == base[n]
    ensures forall j | 0 <= j < |frozen| ::
              && frozen[j].name in listed + jobs
              && (listed + jobs)[frozen[j].name] == Decision(dedup(BatchAround(frozen, batchSize, j)), frozen[j])
  {
    assert frozen[..|frozen|] == frozen;
    forall j | 0 <= j < |frozen|
      ensures frozen[j].name in listed + jobs
      ensures (listed + jobs)[frozen[j].name] == Decision(dedup(BatchAround(frozen, batchSize, j)), frozen[j])
    {
      assert Decided(listed, jobs, dedup, frozen, batchSize, j);
    }
  }

  lemma MergeOne(listed: Parts, jobs: Parts, rest: set<string>, n: string)
    requires rest <= jobs.Keys && n in rest
    ensures listed + (jobs - (rest - {n})) == (listed + (jobs - rest))[n := jobs[n]]
  {
  }

  /** The part is in the metadata as `part`, or will be once its upload is through. */
  predicate Entered(listed: Parts, jobs: Parts, name: string, part: PartMeta) {
    if name in listed then listed[name] == part && name !in jobs
    else name in jobs && jobs[name] == part && part.link == None
  }

  predicate Named(batch: map<string, FrozenPart>) {
    forall n <- batch :: batch[n].name == n
  }

  ghost predicate AllEntered(listed: Parts, jobs: Parts, batch: map<string, FrozenPart>, found: Parts,
                             names: set<string>)
    requires names <= batch.Keys
  {
    forall n <- names :: Entered(listed, jobs, n, Decision(found, batch[n]))
  }

  /** All of the batch but `rest` has been dealt with. */
  ghost predicate Taken(listed: Parts, jobs: Parts, listed': Parts, jobs': Parts, batch: map<string, FrozenPart>,
                        found: Parts, rest: set<string>)
    requires rest <= batch.Keys
  {
    && Grows(listed, jobs, listed', jobs') && rest !! listed'.Keys && rest !! jobs'.Keys
    && listed'.Keys + jobs'.Keys == listed.Keys + jobs.Keys + (batch.Keys - rest)
    && AllEntered(listed', jobs', batch, found, batch.Keys - rest)
  }

  lemma OneTaken(listed: Parts, jobs: Parts, before: Parts, jobsBefore: Parts, after: Parts, jobsAfter: Parts,
                 batch: map<string, FrozenPart>, found: Parts, rest: set<string>, n: string)
    requires rest <= batch.Keys && n in rest && Named(batch) && jobsAfter.Keys !! after.Keys
    requires Taken(listed, jobs, before, jobsBefore, batch, found, rest)
    requires Grows(before, jobsBefore, after, jobsAfter) && Entered(after, jobsAfter, n, Decision(found, batch[n]))
    requires after.Keys + jobsAfter.Keys == before.Keys + jobsBefore.Keys + {n}
    ensures Taken(listed, jobs, after, jobsAfter, batch, found, rest - {n})
  {
    forall m | m in rest - {n}
      ensures m !in after.Keys + jobsAfter.Keys
    {
    }
  }

  lemma AllTaken(listed: Parts, jobs: Parts, listed': Parts, jobs': Parts, batch: map<string, FrozenPart>, found: Parts)
    requires Taken(listed, jobs, listed', jobs', batch, found, {}) && Named(batch)
    requires found.Keys <= batch.Keys && forall n <- found :: found[n].link.Some?
    ensures forall n <- batch ::
              if n in found then n in listed' && listed'[n] == found[n] && n !in jobs'
              else Entered(listed', jobs', n, PartMeta(batch[n].checksum, batch[n].size, None, None))
  {
    forall n <- batch
      ensures if n in found then n in listed' && listed'[n] == found[n] && n !in jobs'
              else Entered(listed', jobs', n, PartMeta(batch[n].checksum, batch[n].size, None, None))
    {
      assert n in batch.Keys - {};
    }
  }

  function Own(listed: Parts): set<string> {
    set n <- listed | listed[n].link == None
  }

  lemma OwnAdd(listed: Parts, name: string, part: PartMeta)
    requires name !in listed && part.link == None
    ensures multiset(Own(listed[name := part])) == multiset(Own(listed)) + multiset{name}
  {
    assert Own(listed[name := part]) == Own(listed) + {name};
  }

  lemma OwnSame(listed: Parts, name: string, part: PartMeta)
    requires name !in listed && part.link.Some?
    ensures Own(listed[name := part]) == Own(listed)
  {
  }

  /** What was listed or in the pool still is, unchanged. */
  ghost predicate Grows(listed: Parts, jobs: Parts, listed': Parts, jobs': Parts) {
    && (forall n <- listed :: n in listed' && listed'[n] == listed[n])
    && (forall n <- jobs :: n in jobs' && jobs'[n] == jobs[n])
  }
}
