/** copyObject of scripts/cloudflare/migrate-storage-to-r2.ts: the bytes of a source object,
    in whatever chunks they come, are put at once or uploaded in parts. Every request to the
    destination may fail, with or without having had its effect. */
module MultipartCopy {
  import opened Results

  type Bytes = seq<bv8>

  datatype Stored = Stored(body: Bytes, metadata: string)

  datatype Upload = Upload(key: string, metadata: string, parts: map<nat, Bytes>)

  /** Lost: the request takes effect but its answer never comes. */
  datatype Outcome = Done | Failed | Lost

  datatype Request = PutObject | Create | Part | Complete | Abort

  /** A request of this kind, from number first on, that had this outcome. */
  ghost predicate Happened(log: seq<Request>, outcome: nat -> Outcome, first: nat, kind: Request, o: Outcome) {
    exists k :: first <= k < |log| && log[k] == kind && outcome(k) == o
  }

  /** All requests from one number up to another took effect and were answered. */
  ghost predicate AllDone(outcome: nat -> Outcome, from: nat, to: nat) {
    forall k: nat :: from <= k < to ==> outcome(k) == Done
  }

  lemma HappenedNext(log: seq<Request>, outcome: nat -> Outcome, first: nat, next: Request)
    requires first <= |log|
    ensures forall kind, o :: Happened(log + [next], outcome, first, kind, o) <==>
              Happened(log, outcome, first, kind, o) || (kind == next && outcome(|log|) == o)
  {
    var longer := log + [next];
    forall kind, o
      ensures Happened(longer, outcome, first, kind, o) <==>
              Happened(log, outcome, first, kind, o) || (kind == next && outcome(|log|) == o)
    {
      if Happened(log, outcome, first, kind, o) {
        var k :| first <= k < |log| && log[k] == kind && outcome(k) == o;
        assert longer[k] == kind;
      }
      if kind == next && outcome(|log|) == o {
        assert longer[|log|] == kind;
      }
    }
  }

  function Concat(chunks: seq<Bytes>): Bytes {
    if chunks == [] then [] else Concat(chunks[..|chunks| - 1]) + chunks[|chunks| - 1]
  }

  lemma ConcatOne(chunks: seq<Bytes>, chunk: Bytes)
    ensures Concat(chunks + [chunk]) == Concat(chunks) + chunk
  {
    assert (chunks + [chunk])[..|chunks|] == chunks;
  }

  /** The parts that an upload holds under these numbers. */
  function PartsOf(upload: Upload, numbers: seq<nat>): (parts: seq<Bytes>)
    requires forall k :: 0 <= k < |numbers| ==> numbers[k] in upload.parts
    ensures |parts| == |numbers| && forall k :: 0 <= k < |numbers| ==> parts[k] == upload.parts[numbers[k]]
  {
    seq(|numbers|, k requires 0 <= k < |numbers| => upload.parts[numbers[k]])
  }

  /** The destination bucket. Nobody else writes to it during a copy. */
  class Store {
    const outcome: nat -> Outcome
    var requests: nat
    ghost var log: seq<Request>
    var objects: map<string, Stored>
    var uploads: map<nat, Upload>
    var created: nat

    constructor (outcome: nat -> Outcome, objects: map<string, Stored>)
      ensures this.outcome == outcome && this.objects == objects && uploads == map[] && Valid()
    {
      this.outcome, this.objects := outcome, objects;
      requests, log, uploads, created := 0, [], map[], 0;
    }

    ghost predicate Valid()
      reads this
    {
      |log| == requests && forall id :: id in uploads ==> id < created
    }

    method Put(key: string, stored: Stored) returns (ok: bool)
      requires Valid()
      modifies this`requests, this`log, this`objects
      ensures Valid() && log == old(log) + [PutObject]
      ensures ok <==> outcome(old(requests)).Done?
      ensures objects == if outcome(old(requests)).Failed? then old(objects) else old(objects)[key := stored]
    {
      var answer := outcome(requests);
      requests, log := requests + 1, log + [PutObject];
      if answer != Failed {
        objects := objects[key := stored];
      }
      ok := answer == Done;
    }

    method CreateUpload(key: string, metadata: string) returns (id: Option<nat>)
      requires Valid()
      modifies this`requests, this`log, this`uploads, this`created
      ensures Valid() && log == old(log) + [Create]
      ensures id == if outcome(old(requests)).Done? then Some(old(created)) else None
      ensures old(created) !in old(uploads)
      ensures uploads == if outcome(old(requests)).Failed? then old(uploads)
                         else old(uploads)[old(created) := Upload(key, metadata, map[])]
    {
      var answer := outcome(requests);
      requests, log := requests + 1, log + [Create];
      id := if answer == Done then Some(created) else None;
      if answer != Failed {
        uploads := uploads[created := Upload(key, metadata, map[])];
      }
      created := created + 1;
    }

    method UploadPart(id: nat, number: nat, body: Bytes) returns (ok: bool)
      requires Valid() && id in uploads
      modifies this`requests, this`log, this`uploads
      ensures Valid() && log == old(log) + [Part]
      ensures ok <==> outcome(old(requests)).Done?
      ensures uploads == if outcome(old(requests)).Failed? then old(uploads)
                         else old(uploads)[id := old(uploads)[id].(parts := old(uploads)[id].parts[number := body])]
    {
      var answer := outcome(requests);
      requests, log := requests + 1, log + [Part];
      if answer != Failed {
        uploads := uploads[id := uploads[id].(parts := uploads[id].parts[number := body])];
      }
      ok := answer == Done;
    }

    /** The object becomes the parts that are listed, in the order of the list. */
    method CompleteUpload(id: nat, numbers: seq<nat>) returns (ok: bool)
      requires Valid() && id in uploads
      requires forall k :: 0 <= k < |numbers| ==> numbers[k] in uploads[id].parts
      modifies this`requests, this`log, this`objects, this`uploads
      ensures Valid() && log == old(log) + [Complete]
      ensures ok <==> outcome(old(requests)).Done?
      ensures outcome(old(requests)).Failed? ==> objects == old(objects) && uploads == old(uploads)
      ensures !outcome(old(requests)).Failed? ==>
                var upload := old(uploads)[id];
                && uploads == old(uploads) - {id}
                && objects == old(objects)[upload.key := Stored(Concat(PartsOf(upload, numbers)), upload.metadata)]
    {
      var answer := outcome(requests);
      requests, log := requests + 1, log + [Complete];
      if answer != Failed {
        var upload := uploads[id];
        objects := objects[upload.key := Stored(Concat(PartsOf(upload, numbers)), upload.metadata)];
        uploads := uploads - {id};
      }
      ok := answer == Done;
    }

    /** An upload that is gone already stays gone. */
    method AbortUpload(id: nat)
      requires Valid()
      modifies this`requests, this`log, this`uploads
      ensures Valid() && log == old(log) + [Abort]
      ensures uploads == if outcome(old(requests)).Failed? then old(uploads) else old(uploads) - {id}
    {
      var answer := outcome(requests);
      requests, log := requests + 1, log + [Abort];
      if answer != Failed {
        uploads := uploads - {id};
      }
    }
  }

  function Numbers(count: nat): (numbers: seq<nat>)
    ensures |numbers| == count && forall k :: 0 <= k < count ==> numbers[k] == k + 1
  {
    seq(count, k requires 0 <= k < count => k + 1)
  }

  /** The parts cut from what came so far, and the rest in the buffer. */
  ghost predicate IsCut(parts: seq<Bytes>, buffered: Bytes, bytes: Bytes, partSize: nat) {
    && Concat(parts) + buffered == bytes
    && (forall k :: 0 <= k < |parts| ==> |parts[k]| >= partSize)
    && |buffered| < partSize
  }

  /** What the upload of a copy holds. */
  ghost predicate Holds(upload: Upload, key: string, metadata: string, parts: seq<Bytes>) {
    && upload.key == key && upload.metadata == metadata
    && forall n: nat :: 1 <= n <= |parts| ==> n in upload.parts && upload.parts[n] == parts[n - 1]
  }

  lemma UploadHolds(upload: Upload, key: string, metadata: string, parts: seq<Bytes>)
    requires Holds(upload, key, metadata, parts)
    ensures forall k :: 0 <= k < |parts| ==> Numbers(|parts|)[k] in upload.parts
    ensures PartsOf(upload, Numbers(|parts|)) == parts
  {
  }

  /** The uploads are as before, apart from the one of this copy. */
  ghost predicate OnlyOwnUpload(uploads: map<nat, Upload>, before: map<nat, Upload>, id: Option<nat>) {
    match id
    case None => uploads == before
    case Some(own) => own !in before && uploads - {own} == before
  }

  /** Between requests: the upload of this copy, if there is one, holds the parts. */
  ghost predicate Open(uploads: map<nat, Upload>, before: map<nat, Upload>, id: Option<nat>, key: string,
                       metadata: string, parts: seq<Bytes>) {
    && OnlyOwnUpload(uploads, before, id) && (id.None? <==> parts == [])
    && (id.Some? ==> id.value in uploads && Holds(uploads[id.value], key, metadata, parts))
  }

  /** The requests from number first on only created an upload or sent parts to it, and the
      answer to its creation was not lost unless there is no upload to name. */
  ghost predicate OnlySent(log: seq<Request>, outcome: nat -> Outcome, first: nat, id: Option<nat>) {
    && (forall k :: first <= k < |log| ==> log[k] in {Create, Part})
    && (id.Some? ==> !Happened(log, outcome, first, Create, Lost))
  }

  /** What is left when sending has failed. */
  ghost predicate Failing(store: Store, first: nat, before: map<nat, Upload>, id: Option<nat>)
    reads store
  {
    if id.Some? then OnlyOwnUpload(store.uploads, before, id) && id.value in store.uploads
    else store.uploads == before <==> !Happened(store.log, store.outcome, first, Create, Lost)
  }

  /** uploadPart, and the upload itself if this is the first part. */
  method SendPart(store: Store, ghost first: nat, ghost before: map<nat, Upload>, id0: Option<nat>, key: string,
                  metadata: string, parts: seq<Bytes>, body: Bytes)
    returns (ok: bool, id: Option<nat>)
    requires store.Valid() && Open(store.uploads, before, id0, key, metadata, parts)
    requires first <= store.requests && OnlySent(store.log, store.outcome, first, id0)
    requires !Happened(store.log, store.outcome, first, Create, Lost)
    modifies store`requests, store`log, store`uploads, store`created
    ensures store.Valid() && first <= store.requests
    ensures OnlySent(store.log, store.outcome, first, id) && Failing(store, first, before, id)
    ensures old(store.requests) < store.requests
    ensures ok <==> AllDone(store.outcome, old(store.requests), store.requests)
    ensures ok ==> id.Some? && Open(store.uploads, before, id, key, metadata, parts + [body])
  {
    ok, id := true, id0;
    if id.None? {
      HappenedNext(store.log, store.outcome, first, Create);
      id := store.CreateUpload(key, metadata);
      if id.None? {
        return false, id;
      }
    }
    HappenedNext(store.log, store.outcome, first, Part);
    ok := store.UploadPart(id.value, |parts| + 1, body);
  }

  lemma MoreChunks(parts: seq<Bytes>, buffered: Bytes, chunks: seq<Bytes>, k: nat)
    requires k < |chunks| && Concat(parts) + buffered == Concat(chunks[..k])
    ensures Concat(parts) + (buffered + chunks[k]) == Concat(chunks[..k + 1])
  {
    assert chunks[..k + 1] == chunks[..k] + [chunks[k]];
    ConcatOne(chunks[..k], chunks[k]);
  }

  lemma CutPart(parts: seq<Bytes>, buffered: Bytes, bytes: Bytes)
    requires Concat(parts) + buffered == bytes
    ensures Concat(parts + [buffered]) + [] == bytes
  {
    ConcatOne(parts, buffered);
  }

  /** The parts that go to the upload while the source is read, which, when broken, fails after
      its last chunk. */
  method SendParts(store: Store, key: string, metadata: string, chunks: seq<Bytes>, broken: bool, partSize: nat)
    returns (ok: bool, id: Option<nat>, parts: seq<Bytes>, buffered: Bytes)
    requires store.Valid() && partSize > 0
    modifies store`requests, store`log, store`uploads, store`created
    ensures store.Valid() && old(store.requests) <= store.requests
    ensures OnlySent(store.log, store.outcome, old(store.requests), id)
    ensures Failing(store, old(store.requests), old(store.uploads), id)
    ensures ok <==> !broken && AllDone(store.outcome, old(store.requests), store.requests)
    ensures ok ==> IsCut(parts, buffered, Concat(chunks), partSize)
    ensures ok ==> Open(store.uploads, old(store.uploads), id, key, metadata, parts)
    ensures ok ==> !Happened(store.log, store.outcome, old(store.requests), Create, Lost)
  {
    ok, id, parts, buffered := true, None, [], [];
    for k := 0 to |chunks|
      invariant ok && store.Valid() && old(store.requests) <= store.requests
      invariant AllDone(store.outcome, old(store.requests), store.requests)
      invariant OnlySent(store.log, store.outcome, old(store.requests), id)
      invariant !Happened(store.log, store.outcome, old(store.requests), Create, Lost)
      invariant Open(store.uploads, old(store.uploads), id, key, metadata, parts)
      invariant IsCut(parts, buffered, Concat(chunks[..k]), partSize)
    {
      MoreChunks(parts, buffered, chunks, k);
      buffered := buffered + chunks[k];
      if |buffered| >= partSize {
        ok, id := SendPart(store, old(store.requests), old(store.uploads), id, key, metadata, parts, buffered);
        if !ok {
          return;
        }
        CutPart(parts, buffered, Concat(chunks[..k + 1]));
        parts, buffered := parts + [buffered], [];
      }
    }
    assert chunks[..|chunks|] == chunks;
    ok := !broken;
  }

  /** All but the last part are at least partSize long, and the last is not empty. */
  ghost predicate WellCut(parts: seq<Bytes>, bytes: Bytes, partSize: nat) {
    && (parts == [] <==> |bytes| < partSize)
    && (parts != [] ==> Concat(parts) == bytes)
    && forall k :: 0 <= k < |parts| ==> |parts[k]| >= if k < |parts| - 1 then partSize else 1
  }

  lemma CutIsWellCut(parts: seq<Bytes>, buffered: Bytes, bytes: Bytes, partSize: nat)
    requires IsCut(parts, buffered, bytes, partSize) && partSize > 0
    ensures parts == [] ==> buffered == bytes && WellCut(parts, bytes, partSize)
    ensures parts != [] && buffered == [] ==> WellCut(parts, bytes, partSize)
    ensures parts != [] && buffered != [] ==> WellCut(parts + [buffered], bytes, partSize)
  {
    assert Concat(parts) + [] == Concat(parts);
    assert Concat([]) + buffered == buffered;
    ConcatOne(parts, buffered);
    if parts != [] {
      ConcatOne(parts[..|parts| - 1], parts[|parts| - 1]);
      assert parts == parts[..|parts| - 1] + [parts[|parts| - 1]];
      assert |Concat(parts)| >= partSize;
    }
  }

  /** Up to the request that completes the copy; small is the body of a source that never filled
      a part. */
  method SendAll(store: Store, key: string, metadata: string, chunks: seq<Bytes>, broken: bool, partSize: nat)
    returns (ok: bool, id: Option<nat>, parts: seq<Bytes>, small: Bytes)
    requires store.Valid() && partSize > 0
    modifies store`requests, store`log, store`uploads, store`created
    ensures store.Valid() && old(store.requests) <= store.requests
    ensures OnlySent(store.log, store.outcome, old(store.requests), id)
    ensures Failing(store, old(store.requests), old(store.uploads), id)
    ensures ok <==> !broken && AllDone(store.outcome, old(store.requests), store.requests)
    ensures ok ==> WellCut(parts, Concat(chunks), partSize) && (id.None? ==> small == Concat(chunks))
    ensures ok ==> Open(store.uploads, old(store.uploads), id, key, metadata, parts)
    ensures ok ==> !Happened(store.log, store.outcome, old(store.requests), Create, Lost)
  {
    ok, id, parts, small := SendParts(store, key, metadata, chunks, broken, partSize);
    if !ok {
      return;
    }
    CutIsWellCut(parts, small, Concat(chunks), partSize);
    if id.Some? && |small| > 0 {
      ok, id := SendPart(store, old(store.requests), old(store.uploads), id, key, metadata, parts, small);
      parts := parts + [small];
    }
  }

  /** The request that makes the object, a put or the completion of the upload, had this outcome. */
  ghost predicate Completed(store: Store, first: nat, o: Outcome)
    reads store
  {
    Happened(store.log, store.outcome, first, PutObject, o) || Happened(store.log, store.outcome, first, Complete, o)
  }

  /** The object is there, whole, exactly if the request that makes it took effect; and it is
      reported exactly if that request was answered. */
  ghost predicate IsCopied(store: Store, first: nat, before: map<string, Stored>, key: string, copy: Stored,
                           copied: bool, broken: bool)
    reads store
  {
    && (copied <==> Completed(store, first, Done))
    && store.objects ==
        (if Completed(store, first, Done) || Completed(store, first, Lost) then before[key := copy] else before)
    && (broken ==> !Completed(store, first, Done) && !Completed(store, first, Lost))
  }

  /** The upload of a copy stays behind. */
  ghost predicate LeavesUpload(store: Store, first: nat)
    reads store
  {
    || Happened(store.log, store.outcome, first, Create, Lost)
    || (Happened(store.log, store.outcome, first, Abort, Failed) && !Completed(store, first, Lost))
  }

  /** The try of copyObject: everything but the clean-up. */
  method Transfer(store: Store, key: string, metadata: string, chunks: seq<Bytes>, broken: bool, partSize: nat)
    returns (ok: bool, id: Option<nat>, parts: seq<Bytes>)
    requires store.Valid() && partSize > 0
    modifies store
    ensures store.Valid() && old(store.requests) <= store.requests
    ensures IsCopied(store, old(store.requests), old(store.objects), key, Stored(Concat(chunks), metadata), ok, broken)
    ensures ok <==> !broken && AllDone(store.outcome, old(store.requests), store.requests)
    ensures ok ==> WellCut(parts, Concat(chunks), partSize)
    ensures forall o :: !Happened(store.log, store.outcome, old(store.requests), Abort, o)
    ensures id.Some? ==> !Happened(store.log, store.outcome, old(store.requests), Create, Lost)
    ensures if id.None? || Completed(store, old(store.requests), Done) || Completed(store, old(store.requests), Lost)
            then store.uploads == old(store.uploads) <==>
                !Happened(store.log, store.outcome, old(store.requests), Create, Lost)
            else OnlyOwnUpload(store.uploads, old(store.uploads), id) && id.value in store.uploads
    ensures id.Some? ==> id.value !in old(store.uploads)
  {
    var small;
    ok, id, parts, small := SendAll(store, key, metadata, chunks, broken, partSize);
    SendingCompletesNothing(store.log, store.outcome, old(store.requests), id);
    if !ok {
      return;
    }
    if id.None? {
      HappenedNext(store.log, store.outcome, old(store.requests), PutObject);
      ok := store.Put(key, Stored(small, metadata));
    } else {
      ok := CompleteCopy(store, old(store.requests), old(store.uploads), id.value, key, metadata, parts);
    }
  }

  lemma SendingCompletesNothing(log: seq<Request>, outcome: nat -> Outcome, first: nat, id: Option<nat>)
    requires OnlySent(log, outcome, first, id)
    ensures forall o :: !Happened(log, outcome, first, PutObject, o)
    ensures forall o :: !Happened(log, outcome, first, Complete, o)
    ensures forall o :: !Happened(log, outcome, first, Abort, o)
  {
  }

  /** The completion of a copy in parts. */
  method CompleteCopy(store: Store, ghost first: nat, ghost before: map<nat, Upload>, id: nat, key: string,
                      metadata: string, parts: seq<Bytes>)
    returns (ok: bool)
    requires store.Valid() && first <= store.requests && parts != []
    requires OnlySent(store.log, store.outcome, first, Some(id))
    requires Open(store.uploads, before, Some(id), key, metadata, parts)
    modifies store`requests, store`log, store`objects, store`uploads
    ensures store.Valid() && first <= store.requests
    ensures IsCopied(store, first, old(store.objects), key, Stored(Concat(parts), metadata), ok, false)
    ensures old(store.requests) < store.requests
    ensures ok <==> AllDone(store.outcome, old(store.requests), store.requests)
    ensures forall o :: !Happened(store.log, store.outcome, first, Abort, o)
    ensures !Happened(store.log, store.outcome, first, Create, Lost)
    ensures if Completed(store, first, Done) || Completed(store, first, Lost) then store.uploads == before
            else OnlyOwnUpload(store.uploads, before, Some(id)) && id in store.uploads
  {
    SendingCompletesNothing(store.log, store.outcome, first, Some(id));
    UploadHolds(store.uploads[id], key, metadata, parts);
    HappenedNext(store.log, store.outcome, first, Complete);
    ok := store.CompleteUpload(id, Numbers(|parts|));
  }

  /** copyObject. It returns exactly if the source can be read and every request is answered. Then
      the object is the whole source; the parts were numbered from 1, all but the last at least
      partSize long, and there were none if the source never filled one. If it throws, nothing
      changed, unless it was the answer of the request that makes the object that got lost, and
      then the object is whole; it never is a piece of the source. An upload stays behind exactly
      if the answer to its creation was lost, so that nobody knew what to abort, or the request to
      abort it failed. */
  method CopyObject(store: Store, key: string, metadata: string, chunks: seq<Bytes>, broken: bool, partSize: nat)
    returns (copied: bool, parts: seq<Bytes>)
    requires store.Valid() && partSize > 0
    modifies store
    ensures store.Valid() && old(store.requests) <= store.requests
    ensures IsCopied(store, old(store.requests), old(store.objects), key, Stored(Concat(chunks), metadata), copied,
              broken)
    ensures copied <==> !broken && AllDone(store.outcome, old(store.requests), store.requests)
    ensures copied ==> WellCut(parts, Concat(chunks), partSize)
    ensures store.uploads == old(store.uploads) <==> !LeavesUpload(store, old(store.requests))
  {
    var id;
    copied, id, parts := Transfer(store, key, metadata, chunks, broken, partSize);
    if !copied && id.Some? {
      HappenedNext(store.log, store.outcome, old(store.requests), Abort);
      store.AbortUpload(id.value);
    }
  }
}
