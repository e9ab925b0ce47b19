/**
 * Parallel multipart upload: the three uploading stages, the S3 uploader's list of finished parts, and the storage
 * they act on. Workers finish in any order; an ETag stands for the content it identifies.
 */
module MultipartUpload {
  import opened Bytes
  import opened Chunking

  datatype UploadingPart = UploadingPart(data: ByteString, uploadId: Option<nat>)

  /** A value on its way between stages, with the position the map runner gave it. */
  datatype Element = Element(index: nat, value: UploadingPart)

  datatype PartRecord = PartRecord(number: nat, etag: ByteString)

  /** What one worker does for element `i`, in two steps other workers may come between. */
  datatype Event = Send(i: nat) | Record(i: nat)

  /** Every one of `n` elements is sent once and recorded once, later than it was sent. */
  ghost predicate IsSchedule(events: seq<Event>, n: nat) {
    && (forall e <- events :: e.i < n)
    && (forall i: nat | i < n :: multiset(events)[Send(i)] == 1 && multiset(events)[Record(i)] == 1)
    && (forall j, k | 0 <= j < |events| && 0 <= k < |events| && events[j].Send? && events[k].Record?
                      && events[j].i == events[k].i :: j < k)
  }

  // ---------- sorting the finished parts

  function Insert(r: PartRecord, s: seq<PartRecord>): seq<PartRecord> {
    if s == [] || r.number < s[0].number then [r] + s else [s[0]] + Insert(r, s[1..])
  }

  /** `sorted(parts, key=PartNumber)`. */
  function SortByNumber(s: seq<PartRecord>): seq<PartRecord> {
    if s == [] then [] else Insert(s[|s| - 1], SortByNumber(s[..|s| - 1]))
  }

  predicate Ordered(s: seq<PartRecord>) {
    forall i, j :: 0 <= i < j < |s| ==> s[i].number <= s[j].number
  }

  lemma {:induction false} InsertKeeps(r: PartRecord, s: seq<PartRecord>)
    ensures multiset(Insert(r, s)) == multiset(s) + multiset{r}
  {
    if s != [] && r.number >= s[0].number {
      InsertKeeps(r, s[1..]);
      assert s == [s[0]] + s[1..];
    }
  }

  lemma {:induction false} InsertOrdered(r: PartRecord, s: seq<PartRecord>, least: nat)
    requires Ordered(s) && least <= r.number && forall i :: 0 <= i < |s| ==> least <= s[i].number
    ensures Ordered(Insert(r, s)) && forall i :: 0 <= i < |Insert(r, s)| ==> least <= Insert(r, s)[i].number
  {
    if s != [] && r.number >= s[0].number {
      InsertOrdered(r, s[1..], s[0].number);
    }
  }

  lemma {:induction false} SortOrders(s: seq<PartRecord>)
    ensures Ordered(SortByNumber(s)) && multiset(SortByNumber(s)) == multiset(s)
  {
    if s != [] {
      SortOrders(s[..|s| - 1]);
      InsertOrdered(s[|s| - 1], SortByNumber(s[..|s| - 1]), 0);
      InsertKeeps(s[|s| - 1], SortByNumber(s[..|s| - 1]));
      assert s == s[..|s| - 1] + [s[|s| - 1]];
    }
  }

  /** The records of all `chunks`, in the order of the stream. */
  function RecordsOf(chunks: seq<ByteString>): (r: seq<PartRecord>)
    ensures |r| == |chunks|
  {
    seq(|chunks|, i requires 0 <= i < |chunks| => PartRecord(i + 1, chunks[i]))
  }

  /** An ordered list that holds exactly the records of `chunks` is the list in stream order. */
  lemma {:induction false} OrderedIsStreamOrder(s: seq<PartRecord>, chunks: seq<ByteString>)
    requires Ordered(s) && multiset(s) == multiset(RecordsOf(chunks))
    ensures s == RecordsOf(chunks)
  {
    SameLength(s, RecordsOf(chunks));
    if chunks != [] {
      var n := |chunks|;
      RecordsOfSnoc(chunks);
      LastIsLargest(s, chunks);
      LastOut(s);
      LastOut(RecordsOf(chunks));
      OrderedIsStreamOrder(s[..n - 1], chunks[..n - 1]);
    }
  }

  lemma SameLength(s: seq<PartRecord>, t: seq<PartRecord>)
    requires multiset(s) == multiset(t)
    ensures |s| == |t|
  {
    assert |s| == |multiset(s)| == |multiset(t)|;
  }

  lemma LastOut(s: seq<PartRecord>)
    requires s != []
    ensures s == s[..|s| - 1] + [s[|s| - 1]] && multiset(s[..|s| - 1]) == multiset(s) - multiset{s[|s| - 1]}
  {
    assert s == s[..|s| - 1] + [s[|s| - 1]];
  }

  lemma RecordsOfSnoc(chunks: seq<ByteString>)
    requires chunks != []
    ensures RecordsOf(chunks)[..|chunks| - 1] == RecordsOf(chunks[..|chunks| - 1])
  {
  }

  lemma LastIsLargest(s: seq<PartRecord>, chunks: seq<ByteString>)
    requires chunks != [] && |s| == |chunks| && Ordered(s) && multiset(s) == multiset(RecordsOf(chunks))
    ensures s[|s| - 1] == RecordsOf(chunks)[|chunks| - 1]
  {
    var all, n := RecordsOf(chunks), |chunks|;
    assert all[n - 1] in multiset(s);
    var i :| 0 <= i < n && s[i] == all[n - 1];
    assert s[n - 1] in multiset(all);
    var j :| 0 <= j < n && all[j] == s[n - 1];
    assert s[i].number <= s[n - 1].number;
  }

  function Etags(s: seq<PartRecord>): seq<ByteString> {
    if s == [] then [] else [s[0].etag] + Etags(s[1..])
  }

  lemma {:induction false} EtagsIndexed(s: seq<PartRecord>)
    ensures |Etags(s)| == |s| && forall i :: 0 <= i < |s| ==> Etags(s)[i] == s[i].etag
  {
    if s != [] {
      EtagsIndexed(s[1..]);
    }
  }

  // ---------- what a schedule leaves behind

  /** The records appended while `events` happen. */
  function Recorded(events: seq<Event>, chunks: seq<ByteString>): seq<PartRecord>
    requires forall e <- events :: e.i < |chunks|
  {
    if events == [] then []
    else
      var init, last := events[..|events| - 1], events[|events| - 1];
      if last.Record? then Recorded(init, chunks) + [PartRecord(last.i + 1, chunks[last.i])] else Recorded(init, chunks)
  }

  /** The parts staged while `events` happen. */
  function Sent(events: seq<Event>, chunks: seq<ByteString>): map<int, ByteString>
    requires forall e <- events :: e.i < |chunks|
  {
    if events == [] then map[]
    else
      var init, last := events[..|events| - 1], events[|events| - 1];
      if last.Send? then Sent(init, chunks)[last.i + 1 := chunks[last.i]] else Sent(init, chunks)
  }

  lemma {:induction false} SentHolds(events: seq<Event>, chunks: seq<ByteString>)
    requires forall e <- events :: e.i < |chunks|
    ensures forall i: nat | Send(i) in events ::
              i + 1 in Sent(events, chunks) && Sent(events, chunks)[i + 1] == chunks[i]
  {
    if events != [] {
      var init, last := events[..|events| - 1], events[|events| - 1];
      SentHolds(init, chunks);
      assert events == init + [last];
    }
  }

  lemma {:induction false} RecordedCount(events: seq<Event>, chunks: seq<ByteString>, r: PartRecord)
    requires forall e <- events :: e.i < |chunks|
    ensures multiset(Recorded(events, chunks))[r] == if IsRecordOf(r, chunks) then
            multiset(events)[Record(r.number - 1)] else 0
  {
    if events != [] {
      var init, last := events[..|events| - 1], events[|events| - 1];
      RecordedCount(init, chunks, r);
      assert events == init + [last];
      assert multiset(events) == multiset(init) + multiset{last};
      RecordedOneMore(init, last, chunks, r);
    }
  }

  lemma RecordedOneMore(init: seq<Event>, last: Event, chunks: seq<ByteString>, r: PartRecord)
    requires forall e <- init :: e.i < |chunks|
    requires last.i < |chunks|
    ensures multiset(Recorded(init + [last], chunks))[r]
         == multiset(Recorded(init, chunks))[r]
            + (if IsRecordOf(r, chunks) && last == Record(r.number - 1) then 1 else 0)
  {
    var events := init + [last];
    assert events[..|events| - 1] == init;
    if last.Record? {
      var added := PartRecord(last.i + 1, chunks[last.i]);
      assert multiset(Recorded(events, chunks)) == multiset(Recorded(init, chunks)) + multiset{added};
      assert added == r <==> IsRecordOf(r, chunks) && last == Record(r.number - 1);
    }
  }

  predicate IsRecordOf(r: PartRecord, chunks: seq<ByteString>) {
    1 <= r.number <= |chunks| && r.etag == chunks[r.number - 1]
  }

  lemma {:induction false} RecordsOfCount(chunks: seq<ByteString>, r: PartRecord)
    ensures multiset(RecordsOf(chunks))[r] == if IsRecordOf(r, chunks) then 1 else 0
  {
    var n := |chunks|;
    if n > 0 {
      RecordsOfCount(chunks[..n - 1], r);
      OneMoreRecord(chunks, r);
      assert IsRecordOf(r, chunks) <==> IsRecordOf(r, chunks[..n - 1]) || r == PartRecord(n, chunks[n - 1]);
    }
  }

  lemma OneMoreRecord(chunks: seq<ByteString>, r: PartRecord)
    requires chunks != []
    ensures var n := |chunks|;
            multiset(RecordsOf(chunks))[r]
            == multiset(RecordsOf(chunks[..n - 1]))[r] + (if r == PartRecord(n, chunks[n - 1]) then 1 else 0)
  {
    RecordsOfSnoc(chunks);
    LastOut(RecordsOf(chunks));
  }

  /** Whatever the interleaving, sorting restores the order of the stream. */
  lemma ScheduleSorts(events: seq<Event>, chunks: seq<ByteString>)
    requires IsSchedule(events, |chunks|)
    ensures SortByNumber(Recorded(events, chunks)) == RecordsOf(chunks)
    ensures Etags(RecordsOf(chunks)) == chunks
  {
    var got := Recorded(events, chunks);
    forall r: PartRecord
      ensures multiset(got)[r] == multiset(RecordsOf(chunks))[r]
    {
      RecordedCount(events, chunks, r);
      RecordsOfCount(chunks, r);
    }
    assert multiset(got) == multiset(RecordsOf(chunks));
    SortOrders(got);
    OrderedIsStreamOrder(SortByNumber(got), chunks);
    EtagsIndexed(RecordsOf(chunks));
  }

  /** When the last stage completes the upload, the storage holds every listed part with its ETag. */
  lemma AllPartsStaged(events: seq<Event>, chunks: seq<ByteString>)
    requires IsSchedule(events, |chunks|) && chunks != []
    ensures Recorded(events, chunks) != []
    ensures var parts := SortByNumber(Recorded(events, chunks));
            && Concat(Etags(parts)) == Concat(chunks)
            && forall p <- parts :: p.number in Sent(events, chunks) && Sent(events, chunks)[p.number] == p.etag
  {
    ScheduleSorts(events, chunks);
    SentHolds(events, chunks);
    EveryStepHappens(events, |chunks|);
    assert RecordsOf(chunks)[0].number == 1;
    forall p <- RecordsOf(chunks)
      ensures p.number in Sent(events, chunks) && Sent(events, chunks)[p.number] == p.etag
    {
      assert Send(p.number - 1) in events;
    }
  }

  // ---------- the pipeline on one remote path

  class UploadPipeline {
    const chunkSize: nat
    // the storage: the object at the path, and the parts staged under each upload id
    var content: Option<ByteString>
    var staged: map<nat, map<int, ByteString>>
    // the uploader: the finished parts of each open upload
    var uploads: map<nat, seq<PartRecord>>
    // the first and the last stage
    var startId: Option<nat>
    var completeId: Option<nat>

    constructor (chunkSize: nat, content: Option<ByteString>)
      ensures this.chunkSize == chunkSize && this.content == content
      ensures staged == map[] && uploads == map[] && startId == None && completeId == None
    {
      this.chunkSize := chunkSize;
      this.content := content;
      staged, uploads := map[], map[];
      startId, completeId := None, None;
    }

    method CreateMultipartUpload(newId: nat) returns (id: nat)
      requires newId !in uploads && newId !in staged
      modifies this`staged, this`uploads
      ensures id == newId
      ensures staged == old(staged)[id := map[]] && uploads == old(uploads)[id := []]
    {
      id := newId;
      staged := staged[id := map[]];
      uploads := uploads[id := []];
    }

    /** StartMultipartUploadStage: the first full chunk opens an upload that all later chunks belong to. */
    method StartStage(data: ByteString, newId: nat) returns (part: UploadingPart)
      requires |data| <= chunkSize
      requires startId == None ==> newId !in uploads && newId !in staged
      modifies this`staged, this`uploads, this`startId
      ensures part == UploadingPart(data, startId)
      ensures if old(startId) == None && |data| == chunkSize
              then startId == Some(newId) && staged == old(staged)[newId := map[]] &&
                  uploads == old(uploads)[newId := []]
              else startId == old(startId) && staged == old(staged) && uploads == old(uploads)
    {
      if startId == None && |data| == chunkSize {
        var id := CreateMultipartUpload(newId);
        startId := Some(id);
      }
      part := UploadingPart(data, startId);
    }

    /** The storage call of a worker: an upload part numbered from one, or a plain put. */
    method SendStep(e: Element)
      requires e.value.uploadId.Some? ==> e.value.uploadId.value in staged
      modifies this`staged, this`content
      ensures e.value.uploadId == None ==> content == Some(e.value.data) && staged == old(staged)
      ensures e.value.uploadId.Some? ==>
                var id := e.value.uploadId.value;
                content == old(content) && staged == old(staged)[id := old(staged)[id][e.index + 1 := e.value.data]]
    {
      if e.value.uploadId.Some? {
        var id := e.value.uploadId.value;
        staged := staged[id := staged[id][e.index + 1 := e.value.data]];
      } else {
        content := Some(e.value.data);
      }
    }

    /** The locked append of a worker, with the ETag its storage call returned. */
    method RecordStep(e: Element)
      requires e.value.uploadId.Some? ==> e.value.uploadId.value in uploads
      modifies this`uploads, this`completeId
      ensures e.value.uploadId == None ==> uploads == old(uploads) && completeId == old(completeId)
      ensures e.value.uploadId.Some? ==>
                var id := e.value.uploadId.value;
                && uploads == old(uploads)[id := old(uploads)[id] + [PartRecord(e.index + 1, e.value.data)]]
                && completeId == if old(completeId) == None then Some(id) else old(completeId)
    {
      if e.value.uploadId.Some? {
        var id := e.value.uploadId.value;
        uploads := uploads[id := uploads[id] + [PartRecord(e.index + 1, e.value.data)]];
        // the finished element now reaches the last stage
        if completeId == None {
          completeId := Some(id);
        }
      }
    }

    /** The storage assembles the listed parts in list order; it answers false for a part it does not hold. */
    method CompleteMultipartUpload(id: nat) returns (ok: bool)
      requires id in uploads && id in staged
      modifies this`content, this`uploads, this`staged
      ensures var parts := SortByNumber(old(uploads)[id]);
              && ok == (forall p <- parts :: p.number in old(staged)[id] && old(staged)[id][p.number] == p.etag)
              && (ok ==>
                    && content == Some(Concat(Etags(parts)))
                    && uploads == old(uploads) - {id} && staged == old(staged) - {id})
              && (!ok ==> unchanged(this))
    {
      var parts := SortByNumber(uploads[id]);
      ok := forall p <- parts :: p.number in staged[id] && staged[id][p.number] == p.etag;
      if ok {
        content := Some(Concat(Etags(parts)));
        staged := staged - {id};
        uploads := uploads - {id};
      }
    }

    /** The first stage over all chunks, indexed by the map runner in the order they pass. */
    method StartAll(chunks: seq<ByteString>, newId: nat) returns (elements: seq<Element>)
      requires WellChunked(chunks, chunkSize)
      requires startId == None && staged == map[] && uploads == map[]
      modifies this`staged, this`uploads, this`startId
      ensures |elements| == |chunks|
      ensures startId == if chunks != [] && |chunks[0]| == chunkSize then Some(newId) else None
      ensures startId == None ==> |chunks| <= 1 && staged == map[] && uploads == map[]
      ensures startId.Some? ==> staged == map[newId := map[]] && uploads == map[newId := []]
      ensures forall i :: 0 <= i < |chunks| ==> elements[i] == Element(i, UploadingPart(chunks[i], startId))
    {
      elements := [];
      var idx := 0;
      for i := 0 to |chunks|
        invariant idx == i == |elements|
        invariant i == 0 || |chunks[0]| < chunkSize ==> startId == None && staged == map[] && uploads == map[]
        invariant i > 0 && |chunks[0]| == chunkSize ==>
                    startId == Some(newId) && staged == map[newId := map[]] && uploads == map[newId := []]
        invariant forall j :: 0 <= j < i ==> elements[j] == Element(j, UploadingPart(chunks[j], startId))
      {
        var part := StartStage(chunks[i], newId);
        elements := elements + [Element(idx, part)];
        idx := idx + 1;
      }
    }

    /** The workers of a multipart upload. */
    method RunWorkers(elements: seq<Element>, chunks: seq<ByteString>, id: nat, events: seq<Event>)
      requires |elements| == |chunks|
      requires forall i :: 0 <= i < |chunks| ==> elements[i] == Element(i, UploadingPart(chunks[i], Some(id)))
      requires forall e <- events :: e.i < |chunks|
      requires staged == map[id := map[]] && uploads == map[id := []] && completeId == None
      modifies this
      ensures startId == old(startId) && content == old(content)
      ensures staged == map[id := Sent(events, chunks)] && uploads == map[id := Recorded(events, chunks)]
      ensures completeId == if Recorded(events, chunks) == [] then None else Some(id)
    {
      for k := 0 to |events|
        invariant startId == old(startId) && content == old(content)
        invariant staged == map[id := Sent(events[..k], chunks)] && uploads == map[id := Recorded(events[..k], chunks)]
        invariant completeId == if Recorded(events[..k], chunks) == [] then None else Some(id)
      {
        assert events[..k + 1][..k] == events[..k];
        assert events[k] in events;
        match events[k] {
          case Send(i) => SendStep(elements[i]);
          case Record(i) => RecordStep(elements[i]);
        }
      }
      assert events[..|events|] == events;
    }

    /** The worker of a stream that fits into one short chunk. */
    method RunPlainWorker(element: Element, events: seq<Event>)
      requires element.value.uploadId == None
      requires forall e <- events :: e.i == 0
      requires Send(0) in events
      modifies this
      ensures content == Some(element.value.data)
      ensures startId == old(startId) && staged == old(staged) && uploads == old(uploads) &&
              completeId == old(completeId)
    {
      for k := 0 to |events|
        invariant startId == old(startId) && staged == old(staged) && uploads == old(uploads)
        invariant completeId == old(completeId)
        invariant Send(0) in events[..k] ==> content == Some(element.value.data)
      {
        assert events[..k + 1] == events[..k] + [events[k]];
        assert events[k] in events;
        match events[k] {
          case Send(_) => SendStep(element);
          case Record(_) => RecordStep(element);
        }
      }
      assert events[..|events|] == events;
    }

    /**
     * A whole upload. Whatever the order in which the workers' steps interleave, the object ends up as the
     * concatenation of the chunks; an empty stream leaves the path as it was.
     */
    method Upload(chunks: seq<ByteString>, newId: nat, events: seq<Event>) returns (ok: bool)
      requires WellChunked(chunks, chunkSize)
      requires startId == None && completeId == None && staged == map[] && uploads == map[]
      requires IsSchedule(events, |chunks|)
      modifies this
      ensures ok
      ensures content == if chunks == [] then old(content) else Some(Concat(chunks))
      ensures startId == if chunks != [] && |chunks[0]| == chunkSize then Some(newId) else None
      ensures staged == map[] && uploads == map[]
    {
      var elements := StartAll(chunks, newId);
      EveryStepHappens(events, |chunks|);
      if startId.Some? {
        RunWorkers(elements, chunks, newId, events);
        AllPartsStaged(events, chunks);
      } else if |chunks| == 1 {
        RunPlainWorker(elements[0], events);
        assert chunks[1..] == [] && Concat(chunks) == chunks[0];
      }
      ok := true;
      if completeId.Some? {
        ok := CompleteMultipartUpload(completeId.value);
      }
    }
  }

  lemma EveryStepHappens(events: seq<Event>, n: nat)
    requires IsSchedule(events, n)
    ensures forall i: nat | i < n :: Send(i) in events && Record(i) in events
  {
    forall i: nat | i < n
      ensures Send(i) in events && Record(i) in events
    {
      assert multiset(events)[Send(i)] == 1 && multiset(events)[Record(i)] == 1;
    }
  }

  /** Re-chunking and uploading: the object is the stream, for every cut of it and every interleaving. */
  method UploadStream(pieces: seq<ByteString>, chunkSize: nat, bufferSize: nat, before: Option<ByteString>, newId: nat,
                      events: seq<Event>) returns (content: Option<ByteString>)
    requires 0 < chunkSize <= bufferSize
    requires IsSchedule(events, |Rechunk(Concat(pieces), chunkSize)|)
    ensures content == if Concat(pieces) == [] then before else Some(Concat(pieces))
  {
    var chunks := RunChunking(pieces, chunkSize, bufferSize);
    RechunkPartitions(Concat(pieces), chunkSize);
    var pipeline := new UploadPipeline(chunkSize, before);
    var ok := pipeline.Upload(chunks, newId, events);
    content := pipeline.content;
  }
}
