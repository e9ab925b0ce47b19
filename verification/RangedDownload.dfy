/**
 * Ranged download from S3 while other writers overwrite the object: s3_engine.py's download record, the retry wrapper
 * around it, and the loop of download_storage_stage.py. The environment decides, request by request, which version
 * answers and what is lost on the way.
 */
module RangedDownload {
  import opened Bytes

  datatype Version = Version(etag: string, body: ByteString)

  /** The fate of one request: answered, no answer, or an answer whose body breaks off. */
  datatype Fate = Answered | NoAnswer | BodyLost

  /** The version (or absence) that request number `t` meets, and its fate. */
  datatype Environment = Environment(at: nat -> Option<Version>, fate: nat -> Fate)

  /** An ETag names one content (section 8.8.3 of RFC 9110). */
  ghost predicate EtagsIdentify(env: Environment) {
    forall s: nat, t: nat | env.at(s).Some? && env.at(t).Some? && env.at(s).value.etag == env.at(t).value.etag ::
      env.at(s).value.body == env.at(t).value.body
  }

  /** A 206 response: ETag, the complete length from Content-Range, and the bytes of the range. */
  datatype Response = Response(etag: string, total: nat, body: ByteString)

  /** A range request (section 14.2 of RFC 9110): None for a missing object or a range behind its end. */
  function Serve(stored: Option<Version>, start: nat, end: nat): Option<Response>
    requires start <= end
  {
    if stored == None || start >= |stored.value.body| then None
    else
      var v := stored.value;
      Some(Response(v.etag, |v.body|, v.body[start..Min(end + 1, |v.body|)]))
  }

  /**
   * A request for the bytes from `start` on that gives no cause to raise: it got no answer, met no object, met the
   * version being delivered, or met one that ends before `start`, which has no such range to return.
   */
  predicate Quiet(env: Environment, t: nat, version: Version, start: nat) {
    || env.fate(t) == NoAnswer
    || env.at(t) == None
    || env.at(t).value.etag == version.etag
    || |env.at(t).value.body| <= start
  }

  /** A request for the bytes from `start` on that brings none, so that it is made again. */
  predicate Fruitless(env: Environment, t: nat, start: nat) {
    env.fate(t) != Answered || env.at(t) == None || |env.at(t).value.body| <= start
  }

  /** From request `from` on, every request is answered in full by one version. */
  ghost predicate AllAnswered(env: Environment, version: Version, from: nat) {
    forall t: nat | from <= t :: env.at(t) == Some(version) && env.fate(t) == Answered
  }

  /** One attempt: data, the normal end, an overwrite (StorageError), or an error that may be retried. */
  datatype Attempt = Data(bytes: ByteString) | End | Overwritten | Retryable

  datatype DownloadResult = Complete | Conflict | GaveUp

  const MAX_ATTEMPTS := 30

  /**
   * `n` bytes are what a first range request of `partLen` brings from `version`: the range ends where the version in
   * hand did when it was made, which is one met by an earlier request.
   */
  ghost predicate AskedFor(env: Environment, lo: nat, hi: nat, partLen: nat, version: Version, n: nat) {
    exists t: nat :: lo <= t < hi && env.at(t).Some? &&
      n == Min(Min(partLen, |env.at(t).value.body|), |version.body|)
  }

  /** All pieces but the first and the last are of length `partLen`, and none is longer. */
  ghost predicate Even(pieces: seq<ByteString>, partLen: nat) {
    && (forall piece <- pieces :: |piece| <= partLen)
    && forall k | 0 < k < |pieces| - 1 :: |pieces[k]| == partLen
  }

  class Download {
    const env: Environment
    var rangeStart: nat
    var totalSize: nat
    var etag: string
    var requests: nat // requests made so far
    ghost var version: Version // the version being delivered
    ghost var since: nat // the request that met it first
    ghost var delivered: ByteString

    ghost predicate Valid()
      reads this
    {
      && since < requests
      && env.at(since) == Some(version)
      && etag == version.etag
      && totalSize == |version.body|
      && rangeStart <= totalSize
      && delivered == version.body[..rangeStart]
    }

    /** create_multipart_download on a version that its HEAD request met. */
    constructor (env: Environment, head: Version, requests: nat)
      requires env.at(requests) == Some(head)
      ensures Valid() && this.env == env && rangeStart == 0 && version == head && delivered == []
      ensures this.requests == requests + 1 && since == requests
    {
      this.env := env;
      rangeStart := 0;
      totalSize := |head.body|;
      etag := head.etag;
      this.requests := requests + 1;
      version := head;
      since := requests;
      delivered := [];
    }

    /** The body of download_part. */
    method TryPart(partLen: nat) returns (r: Attempt)
      requires Valid() && EtagsIdentify(env) && 0 < partLen
      modifies this
      ensures Valid() && requests >= old(requests) && since >= old(since)
      ensures r.Data? ==>
                r.bytes != [] && delivered == old(delivered) + r.bytes && rangeStart == old(rangeStart) + |r.bytes|
      ensures !r.Data? ==> delivered == old(delivered) && rangeStart == old(rangeStart)
      ensures r.Data? ==>
                |r.bytes| == Min(Min(old(rangeStart) + partLen, old(totalSize)), |version.body|) - old(rangeStart)
      ensures r.End? <==> old(rangeStart >= totalSize)
      ensures r.End? ==> version == old(version) && delivered == version.body
      // after the first byte the version is fixed: the request that is answered meets it, or an overwrite is raised
      ensures old(rangeStart) > 0 ==> version == old(version) && since == old(since)
      ensures r.Data? ==> requests == old(requests) + 1 && env.at(old(requests)) == Some(version)
      ensures r.Overwritten? ==>
                && old(rangeStart) > 0 && requests == old(requests) + 1
                && env.at(old(requests)).Some? && !Quiet(env, old(requests), version, rangeStart)
      ensures old(rangeStart) > 0 && !r.Overwritten? ==>
                forall t: nat :: old(requests) <= t < requests ==> Quiet(env, t, version, old(rangeStart))
      ensures r.Retryable? ==> requests == old(requests) + 1 && Fruitless(env, old(requests), rangeStart)
      ensures AllAnswered(env, old(version), old(requests)) ==> (r.Data? || r.End?) && version == old(version)
    {
      if rangeStart >= totalSize {
        return End;
      }
      var rangeEnd := Min(rangeStart + partLen, totalSize) - 1;
      var t := requests;
      requests := requests + 1;
      var response := Serve(env.at(t), rangeStart, rangeEnd);
      if env.fate(t) == NoAnswer || response == None {
        return Retryable;
      }
      var part := response.value;
      if part.etag != etag {
        if rangeStart == 0 {
          totalSize := part.total;
          etag := part.etag;
          version := env.at(t).value;
          since := t;
        } else {
          return Overwritten;
        }
      }
      assert env.at(t).value.body == version.body;
      if env.fate(t) == BodyLost {
        return Retryable;
      }
      rangeStart := rangeStart + |part.body|;
      delivered := delivered + part.body;
      r := Data(part.body);
    }

    /** The retry wrapper: errors of the storage are retried, an overwrite is not. */
    method DownloadPart(partLen: nat) returns (r: Attempt)
      requires Valid() && EtagsIdentify(env) && 0 < partLen
      modifies this
      ensures Valid() && requests >= old(requests) && since >= old(since)
      ensures r.Data? ==>
                r.bytes != [] && delivered == old(delivered) + r.bytes && rangeStart == old(rangeStart) + |r.bytes|
      ensures !r.Data? ==> delivered == old(delivered) && rangeStart == old(rangeStart)
      ensures r.Data? && old(rangeStart) > 0 ==> |r.bytes| == Min(partLen, |version.body| - old(rangeStart))
      ensures r.Data? && old(rangeStart) == 0 ==>
                AskedFor(env, old(since), requests - 1, partLen, version, |r.bytes|)
      ensures r.End? ==> delivered == version.body
      ensures old(rangeStart) > 0 ==> version == old(version) && since == old(since)
      ensures r.Data? ==> requests > old(requests) && env.at(requests - 1) == Some(version)
      ensures r.Overwritten? ==>
                && rangeStart > 0 && requests > old(requests)
                && env.at(requests - 1).Some? && !Quiet(env, requests - 1, version, rangeStart)
      ensures old(rangeStart) > 0 ==>
                forall t: nat :: old(requests) <= t < (if r.Overwritten? then requests - 1 else requests) ==>
                  Quiet(env, t, version, old(rangeStart))
      ensures r.Retryable? ==>
                && requests == old(requests) + MAX_ATTEMPTS
                && forall t: nat :: old(requests) <= t < requests ==> Fruitless(env, t, rangeStart)
      ensures AllAnswered(env, old(version), old(requests)) ==> (r.Data? || r.End?) && version == old(version)
    {
      var attempts := 0;
      r := Retryable;
      while r.Retryable? && attempts < MAX_ATTEMPTS
        invariant Valid() && requests >= old(requests) && since >= old(since)
        invariant r.Data? ==>
                    r.bytes != [] && delivered == old(delivered) + r.bytes && rangeStart == old(rangeStart) + |r.bytes|
        invariant !r.Data? ==> delivered == old(delivered) && rangeStart == old(rangeStart)
        invariant r.Data? && old(rangeStart) > 0 ==> |r.bytes| == Min(partLen, |version.body| - old(rangeStart))
        invariant r.Data? && old(rangeStart) == 0 ==>
                    AskedFor(env, old(since), requests - 1, partLen, version, |r.bytes|)
        invariant r.End? ==> delivered == version.body
        invariant old(rangeStart) > 0 ==> version == old(version) && since == old(since)
        invariant r.Data? ==> requests > old(requests) && env.at(requests - 1) == Some(version)
        invariant r.Overwritten? ==>
                    && rangeStart > 0 && requests > old(requests)
                    && env.at(requests - 1).Some? && !Quiet(env, requests - 1, version, rangeStart)
        invariant old(rangeStart) > 0 ==>
                    forall t: nat :: old(requests) <= t < (if r.Overwritten? then requests - 1 else requests) ==>
                      Quiet(env, t, version, old(rangeStart))
        invariant 0 <= attempts <= MAX_ATTEMPTS
        invariant r.Retryable? ==>
                    && requests == old(requests) + attempts
                    && forall t: nat :: old(requests) <= t < requests ==> Fruitless(env, t, rangeStart)
        invariant AllAnswered(env, old(version), old(requests)) ==>
                    version == old(version) && (attempts > 0 ==> r.Data? || r.End?)
        decreases r.Retryable?, MAX_ATTEMPTS - attempts
      {
        ghost var met := since;
        r := TryPart(partLen);
        assert env.at(met).Some? && old(since) <= met;
        attempts := attempts + 1;
      }
    }
  }

  /** The requests whose bytes were delivered. */
  ghost predicate AllMet(env: Environment, answered: seq<nat>, version: Version) {
    forall t <- answered :: env.at(t) == Some(version)
  }

  /** The last request whose answer was delivered before `end`, or the one after it. */
  function NextAnswer(answered: seq<nat>, k: nat, end: nat): nat {
    if k + 1 < |answered| then answered[k + 1] else end
  }

  /**
   * Between two delivered pieces, and behind the last one up to request `end`, no request gave cause to raise;
   * `starts[k]` bytes had been delivered once piece `k` was.
   */
  ghost predicate Undisturbed(env: Environment, version: Version, answered: seq<nat>, starts: seq<nat>, end: nat)
    requires |starts| == |answered|
  {
    forall k, t: nat | 0 <= k < |answered| && answered[k] < t < NextAnswer(answered, k, end) ::
      Quiet(env, t, version, starts[k])
  }

  lemma UndisturbedOn(env: Environment, version: Version, answered: seq<nat>, starts: seq<nat>, end: nat, more: nat,
                       start: nat)
    requires |starts| == |answered| > 0 && end <= more && Undisturbed(env, version, answered, starts, end)
    requires start == starts[|starts| - 1] && forall t: nat | end <= t < more :: Quiet(env, t, version, start)
    ensures Undisturbed(env, version, answered, starts, more)
  {
  }

  lemma UndisturbedNext(env: Environment, version: Version, answered: seq<nat>, starts: seq<nat>, end: nat, start: nat)
    requires |starts| == |answered| && 0 < end && Undisturbed(env, version, answered, starts, end)
    ensures Undisturbed(env, version, answered + [end - 1], starts + [start], end)
  {
  }

  /** How many bytes each piece completes. */
  ghost predicate Lengths(pieces: seq<ByteString>, starts: seq<nat>) {
    |starts| == |pieces| && forall k | 0 <= k < |pieces| :: starts[k] == |Concat(pieces[..k + 1])|
  }

  lemma LengthsNext(pieces: seq<ByteString>, starts: seq<nat>, piece: ByteString)
    requires Lengths(pieces, starts)
    ensures Lengths(pieces + [piece], starts + [|Concat(pieces + [piece])|])
  {
    var more := pieces + [piece];
    forall k | 0 <= k < |pieces|
      ensures starts[k] == |Concat(more[..k + 1])|
    {
      assert more[..k + 1] == pieces[..k + 1];
    }
    assert more[..|pieces| + 1] == more;
  }

  /** What is known of the pieces delivered when request `end` is the next one. */
  ghost predicate Log(env: Environment, first: nat, partLen: nat, version: Version, pieces: seq<ByteString>,
                      answered: seq<nat>, starts: seq<nat>, end: nat) {
    && |answered| == |pieces| && AllMet(env, answered, version) && Lengths(pieces, starts)
    && Undisturbed(env, version, answered, starts, end)
    && (forall piece <- pieces :: piece != []) && Even(pieces, partLen)
    && (pieces != [] ==> AskedFor(env, first, answered[0], partLen, version, |pieces[0]|))
    && (|pieces| > 1 && |Concat(pieces)| < |version.body| ==> |pieces[|pieces| - 1]| == partLen)
  }

  lemma NothingYet(pieces: seq<ByteString>)
    requires forall piece <- pieces :: piece != []
    ensures pieces != [] <==> |Concat(pieces)| > 0
  {
    if pieces != [] {
      assert pieces[0] in pieces && |Concat(pieces)| == |pieces[0]| + |Concat(pieces[1..])|;
    }
  }

  /** Requests that brought nothing; before the first piece the version may have changed. */
  lemma LogGoesOn(env: Environment, first: nat, partLen: nat, before: Version, version: Version,
                  pieces: seq<ByteString>, answered: seq<nat>, starts: seq<nat>, end: nat, more: nat)
    requires Log(env, first, partLen, before, pieces, answered, starts, end)
    requires pieces != [] ==>
               && version == before && end <= more
               && forall t: nat | end <= t < more :: Quiet(env, t, version, |Concat(pieces)|)
    ensures Log(env, first, partLen, version, pieces, answered, starts, more)
  {
    if pieces != [] {
      assert pieces[..|pieces|] == pieces;
      UndisturbedOn(env, version, answered, starts, end, more, |Concat(pieces)|);
    }
  }

  lemma LogNext(env: Environment, first: nat, partLen: nat, version: Version, pieces: seq<ByteString>,
                answered: seq<nat>, starts: seq<nat>, end: nat, piece: ByteString)
    requires Log(env, first, partLen, version, pieces, answered, starts, end)
    requires 0 < partLen && 0 < end && env.at(end - 1) == Some(version) && piece != []
    requires Concat(pieces + [piece]) == Concat(pieces) + piece
    requires pieces != [] ==> |piece| == Min(partLen, |version.body| - |Concat(pieces)|)
    requires pieces == [] ==> AskedFor(env, first, end - 1, partLen, version, |piece|)
    ensures Log(env, first, partLen, version, pieces + [piece], answered + [end - 1],
                starts + [|Concat(pieces + [piece])|], end)
  {
    LengthsNext(pieces, starts, piece);
    UndisturbedNext(env, version, answered, starts, end, |Concat(pieces + [piece])|);
    StaysEven(env, partLen, version, pieces, piece);
  }

  lemma StaysEven(env: Environment, partLen: nat, version: Version, pieces: seq<ByteString>, piece: ByteString)
    requires Even(pieces, partLen) && |piece| <= partLen && piece != []
    requires |pieces| > 1 && |Concat(pieces)| < |version.body| ==> |pieces[|pieces| - 1]| == partLen
    requires pieces != [] ==> |piece| == Min(partLen, |version.body| - |Concat(pieces)|)
    ensures Even(pieces + [piece], partLen)
  {
  }

  lemma FirstInFull(env: Environment, head: Version, first: nat, partLen: nat, version: Version,
                    pieces: seq<ByteString>, answered: seq<nat>, starts: seq<nat>, end: nat)
    requires Log(env, first, partLen, version, pieces, answered, starts, end) && Concat(pieces) <= version.body
    ensures AllAnswered(env, head, first) && version == head && |pieces| > 1 ==> |pieces[0]| == partLen
  {
    if |pieces| > 1 {
      assert Concat(pieces) == pieces[0] + Concat(pieces[1..]);
      assert forall piece <- pieces[1..] :: piece in pieces;
      NothingYet(pieces[1..]);
    }
  }

  /** One turn of the loop in download_storage_stage.py. */
  method NextPiece(download: Download, ghost head: Version, ghost first: nat, partLen: nat, pieces: seq<ByteString>,
                   ghost answered: seq<nat>, ghost starts: seq<nat>)
    returns (data: Attempt, pieces': seq<ByteString>, ghost answered': seq<nat>, ghost starts': seq<nat>,
             ghost end: nat)
    requires download.Valid() && EtagsIdentify(download.env) && 0 < partLen && first <= download.since
    requires download.delivered == Concat(pieces) && download.rangeStart == |Concat(pieces)|
    requires Log(download.env, first, partLen, download.version, pieces, answered, starts, download.requests)
    modifies download
    ensures download.Valid() && download.since >= old(download.since) && download.requests >= old(download.requests)
    ensures download.delivered == Concat(pieces') && download.rangeStart == |Concat(pieces')|
    ensures end == if data.Overwritten? then download.requests - 1 else download.requests
    ensures Log(download.env, first, partLen, download.version, pieces', answered', starts', end)
    ensures old(download.rangeStart) > 0 ==> download.version == old(download.version)
    ensures data.Data? ==> download.rangeStart > old(download.rangeStart)
    ensures !data.Data? ==> pieces' == pieces
    ensures data.End? ==> Concat(pieces') == download.version.body
    ensures data.Overwritten? ==>
              && pieces' != [] && download.requests > old(download.requests)
              && download.env.at(download.requests - 1).Some?
              && !Quiet(download.env, download.requests - 1, download.version, |Concat(pieces')|)
    ensures data.Retryable? ==>
              && download.requests == old(download.requests) + MAX_ATTEMPTS
              && forall t: nat :: old(download.requests) <= t < download.requests ==>
                   Fruitless(download.env, t, |Concat(pieces')|)
    ensures AllAnswered(download.env, old(download.version), old(download.requests)) ==>
              (data.Data? || data.End?) && download.version == old(download.version)
  {
    ghost var begun, before := download.requests, download.version;
    pieces', answered', starts' := pieces, answered, starts;
    NothingYet(pieces);
    data := download.DownloadPart(partLen);
    end := if data.Overwritten? then download.requests - 1 else download.requests;
    LogGoesOn(download.env, first, partLen, before, download.version, pieces, answered, starts, begun, end);
    if data.Data? {
      pieces', answered', starts' := Append(pieces, data.bytes), answered + [end - 1], starts + [download.rangeStart];
      if pieces == [] {
        AskedSince(download.env, first, old(download.since), end - 1, partLen, download.version, |data.bytes|);
      }
      LogNext(download.env, first, partLen, download.version, pieces, answered, starts, end, data.bytes);
    }
  }

  function Append(pieces: seq<ByteString>, piece: ByteString): (more: seq<ByteString>)
    ensures more == pieces + [piece] && Concat(more) == Concat(pieces) + piece
  {
    ConcatSnoc(pieces, piece);
    pieces + [piece]
  }

  lemma AskedSince(env: Environment, first: nat, lo: nat, hi: nat, partLen: nat, version: Version, n: nat)
    requires first <= lo && AskedFor(env, lo, hi, partLen, version, n)
    ensures AskedFor(env, first, hi, partLen, version, n)
  {
  }

  /** The loop, with what is known of the pieces in one. */
  method DownloadLog(env: Environment, partLen: nat, head: Version, first: nat)
    returns (pieces: seq<ByteString>, outcome: DownloadResult, ghost version: Version, ghost answered: seq<nat>,
             ghost starts: seq<nat>, requests: nat, ghost end: nat)
    requires 0 < partLen && EtagsIdentify(env) && env.at(first) == Some(head)
    ensures exists t: nat :: first <= t < requests && env.at(t) == Some(version)
    ensures Concat(pieces) <= version.body
    ensures end == if outcome == Conflict then requests - 1 else requests
    ensures Log(env, first, partLen, version, pieces, answered, starts, end)
    ensures outcome == Complete ==> Concat(pieces) == version.body
    ensures outcome == Conflict ==>
              && pieces != [] && requests > first && env.at(requests - 1).Some?
              && !Quiet(env, requests - 1, version, |Concat(pieces)|)
    ensures outcome == GaveUp ==>
              && requests > first + MAX_ATTEMPTS
              && forall t: nat :: requests - MAX_ATTEMPTS <= t < requests ==> Fruitless(env, t, |Concat(pieces)|)
    ensures AllAnswered(env, head, first) ==> outcome == Complete && version == head
  {
    var download := new Download(env, head, first);
    pieces, answered, starts := [], [], [];
    var data := Retryable;
    while true
      invariant fresh(download) && download.Valid() && download.env == env
      invariant first <= download.since && first < download.requests
      invariant download.delivered == Concat(pieces) && download.rangeStart == |Concat(pieces)|
      invariant Log(env, first, partLen, download.version, pieces, answered, starts, download.requests)
      invariant AllAnswered(env, head, first) ==> download.version == head
      decreases download.rangeStart == 0, download.totalSize - download.rangeStart
    {
      data, pieces, answered, starts, end := NextPiece(download, head, first, partLen, pieces, answered, starts);
      if !data.Data? {
        break;
      }
    }
    outcome := if data.End? then Complete else if data.Overwritten? then Conflict else GaveUp;
    version, requests := download.version, download.requests;
    assert env.at(download.since) == Some(version);
  }

  /**
   * The download stage from its HEAD request to the end. Whatever is overwritten or lost in between:
   * - every delivered byte comes from one version, met by the HEAD request or later, and is a prefix of it;
   * - a normal end delivers that whole version;
   * - behind the first byte the first answer of another version that has the wanted bytes is raised, and nothing else;
   * - no piece is longer than asked for, and all but the first and the last are exactly that long; the first may be
   *   shorter, if the version in hand when it was asked for was;
   * - it gives up only after MAX_ATTEMPTS requests in a row that brought no bytes, so not at all if every request is
   *   answered by the version of the HEAD request.
   */
  method DownloadAll(env: Environment, partLen: nat, head: Version, first: nat)
    returns (pieces: seq<ByteString>, outcome: DownloadResult, ghost version: Version, ghost answered: seq<nat>,
        ghost starts: seq<nat>, requests: nat)
    requires 0 < partLen && EtagsIdentify(env) && env.at(first) == Some(head)
    ensures exists t: nat :: first <= t < requests && env.at(t) == Some(version)
    ensures Concat(pieces) <= version.body
    ensures outcome == Complete ==> Concat(pieces) == version.body
    ensures |answered| == |pieces| && AllMet(env, answered, version) && Lengths(pieces, starts)
    ensures outcome == Conflict ==>
              && pieces != [] && requests > first && env.at(requests - 1).Some?
              && !Quiet(env, requests - 1, version, |Concat(pieces)|)
    ensures Undisturbed(env, version, answered, starts, if outcome == Conflict then requests - 1 else requests)
    ensures outcome == GaveUp ==>
              && requests > first + MAX_ATTEMPTS
              && forall t: nat :: requests - MAX_ATTEMPTS <= t < requests ==> Fruitless(env, t, |Concat(pieces)|)
    ensures AllAnswered(env, head, first) ==> outcome == Complete && version == head
    ensures forall piece <- pieces :: piece != []
    ensures Even(pieces, partLen)
    ensures pieces != [] ==> AskedFor(env, first, answered[0], partLen, version, |pieces[0]|)
    ensures AllAnswered(env, head, first) && |pieces| > 1 ==> |pieces[0]| == partLen
  {
    ghost var end;
    pieces, outcome, version, answered, starts, requests, end := DownloadLog(env, partLen, head, first);
    FirstInFull(env, head, first, partLen, version, pieces, answered, starts, end);
  }
}
