/** Properties of the artifact store over whole runs, crashes included. */
module StoreRuns {
  import opened Prelude
  import opened Store
  import opened ArtifactCatalog

  // ----- the invariant of the files

  ghost predicate Describes(sha: Bytes -> Hex, hex: Hex, ref: ArtifactRef) {
    exists content: Bytes :: sha(content) == hex
      && ref == ReferenceTo(hex, content, ref.mediaType, ref.restricted, ref.rawData)
  }

  ghost predicate WellStored(sha: Bytes -> Hex, f: Files) {
    && (forall hex :: hex in f.blobs ==> hex in f.metadata && sha(f.blobs[hex].content) == hex)
    && (forall hex :: hex in f.metadata ==> Describes(sha, hex, f.metadata[hex]))
  }

  lemma PutKeeps(sha: Bytes -> Hex, f: Files, content: Bytes, mediaType: string, restricted: bool, rawData: bool,
                 now: int, crash: Crash)
    requires WellStored(sha, f)
    ensures WellStored(sha, Put(sha, f, content, mediaType, restricted, rawData, now, crash).0)
  {
    var hex := sha(content);
    var ref := ReferenceTo(hex, content, mediaType, restricted, rawData);
    PutEffect(sha, f, content, mediaType, restricted, rawData, now, crash);
    hide Put;
    assert Describes(sha, hex, ref);
  }

  /** A put writes at most the metadata and the blob of its digest, the blob never alone. */
  lemma PutEffect(sha: Bytes -> Hex, f: Files, content: Bytes, mediaType: string, restricted: bool, rawData: bool,
                  now: int, crash: Crash)
    ensures var g := Put(sha, f, content, mediaType, restricted, rawData, now, crash).0;
            var hex := sha(content);
            && (g.metadata == f.metadata
                || g.metadata == f.metadata[hex := ReferenceTo(hex, content, mediaType, restricted, rawData)])
            && (g.blobs == f.blobs || (hex in g.metadata && g.blobs == f.blobs[hex := Blob(content, now)]))
  {}

  lemma ApplyKeeps(sha: Bytes -> Hex, s: System, op: Op)
    requires WellStored(sha, s.files)
    ensures WellStored(sha, Apply(sha, s, op).files)
  {
    if op.PutOp? {
      PutKeeps(sha, s.files, op.content, op.mediaType, op.restricted, op.rawData, op.now, op.crash);
    }
  }

  /** In every reachable state each blob has metadata and hashes to its key, and each metadata
      record describes bytes that hash to its key. */
  lemma {:induction false} RunsAreWellStored(sha: Bytes -> Hex, ops: seq<Op>)
    ensures WellStored(sha, After(sha, ops).files)
  {
    if ops != [] {
      RunsAreWellStored(sha, ops[..|ops| - 1]);
      ApplyKeeps(sha, After(sha, ops[..|ops| - 1]), ops[|ops| - 1]);
    }
  }

  // ----- metadata is permanent

  lemma ApplyKeepsMetadata(sha: Bytes -> Hex, s: System, op: Op, hex: Hex)
    requires hex in s.files.metadata
    ensures hex in Apply(sha, s, op).files.metadata
    ensures Apply(sha, s, op).files.metadata[hex] == s.files.metadata[hex]
  {}

  /** Once written, the metadata of a digest never changes or disappears, whatever is collected. */
  lemma {:induction false} MetadataIsPermanent(sha: Bytes -> Hex, ops: seq<Op>, more: seq<Op>, hex: Hex)
    requires hex in After(sha, ops).files.metadata
    ensures hex in After(sha, ops + more).files.metadata
    ensures After(sha, ops + more).files.metadata[hex] == After(sha, ops).files.metadata[hex]
  {
    if more == [] {
      assert ops + more == ops;
    } else {
      var init := more[..|more| - 1];
      MetadataIsPermanent(sha, ops, init, hex);
      assert (ops + more)[..|ops + more| - 1] == ops + init;
      ApplyKeepsMetadata(sha, After(sha, ops + init), more[|more| - 1], hex);
    }
  }

  /** The outcome of a put in a well-stored state: it succeeds exactly when the digest is new or
      classified the same way, and a refusal changes nothing. */
  lemma PutOutcomes(sha: Bytes -> Hex, f: Files, content: Bytes, mediaType: string, restricted: bool, rawData: bool,
                    now: int)
    requires Injective(sha) && WellStored(sha, f) && !Blank(mediaType)
    ensures var hex := sha(content);
            var ref := ReferenceTo(hex, content, mediaType, restricted, rawData);
            var (g, outcome) := Put(sha, f, content, mediaType, restricted, rawData, now, NoCrash);
            if hex in f.metadata && f.metadata[hex] != ref then outcome == Refused(Integrity) && g == f
            else
              && outcome == Stored(ref)
              && g.metadata == f.metadata[hex := ref]
              && g.blobs == if hex in f.blobs then f.blobs else f.blobs[hex := Blob(content, now)]
  {
    var hex := sha(content);
    if hex in f.metadata {
      assert Describes(sha, hex, f.metadata[hex]);
    }
  }

  /** Whatever happened in between, even a crash during the first put or a collection, putting the
      same bytes under another classification fails and changes nothing. */
  lemma ReclassificationFails(sha: Bytes -> Hex, ops: seq<Op>, more: seq<Op>, content: Bytes,
                              mediaType: string, restricted: bool, rawData: bool, now: int)
    requires Injective(sha) && !Blank(mediaType)
    requires sha(content) in After(sha, ops).files.metadata
    requires After(sha, ops).files.metadata[sha(content)]
      != ReferenceTo(sha(content), content, mediaType, restricted, rawData)
    ensures var f := After(sha, ops + more).files;
            Put(sha, f, content, mediaType, restricted, rawData, now, NoCrash) == (f, Refused(Integrity))
  {
    RunsAreWellStored(sha, ops + more);
    MetadataIsPermanent(sha, ops, more, sha(content));
    PutOutcomes(sha, After(sha, ops + more).files, content, mediaType, restricted, rawData, now);
  }

  // ----- collection

  /** Exactly the unreferenced blobs at or past the minimum age that the sweep reached go. */
  lemma CollectionIsExact(sha: Bytes -> Hex, s: System, referenced: set<Hex>, now: int, minimumAge: nat,
                          dryRun: bool, reached: set<Hex>, hex: Hex)
    requires hex in s.files.blobs
    ensures var t := Apply(sha, s, CollectOp(referenced, now - minimumAge, dryRun, reached));
            && (hex !in t.files.blobs <==>
                 !dryRun && hex in reached && hex !in referenced && now - s.files.blobs[hex].mtime >= minimumAge)
            && (hex in t.files.blobs ==> t.files.blobs[hex] == s.files.blobs[hex])
            && t.files.metadata == s.files.metadata
  {}

  /** The operation is a collection that takes the blob away. */
  predicate Removes(f: Files, op: Op, hex: Hex) {
    op.CollectOp? && !op.dryRun && hex in op.reached && Collectable(f, op.referenced, op.cutoff, hex)
  }

  /** The operation is a put that leaves the blob stored. */
  predicate Stores(sha: Bytes -> Hex, f: Files, op: Op, hex: Hex) {
    op.PutOp? && sha(op.content) == hex && Outcome(sha, f, op).Stored?
  }

  function Outcome(sha: Bytes -> Hex, f: Files, op: Op): PutOutcome
    requires op.PutOp?
  {
    Put(sha, f, op.content, op.mediaType, op.restricted, op.rawData, op.now, op.crash).1
  }

  /** A blob is there after a step exactly when the step stored it, or it was there and the step did
      not remove it; then it is the blob that was there. */
  lemma BlobStep(sha: Bytes -> Hex, s: System, op: Op, hex: Hex)
    ensures var t := Apply(sha, s, op);
            && (hex in t.files.blobs <==>
                 Stores(sha, s.files, op, hex) || (hex in s.files.blobs && !Removes(s.files, op, hex)))
            && (hex in s.files.blobs && hex in t.files.blobs ==> t.files.blobs[hex] == s.files.blobs[hex])
  {}

  /** After the first `k` operations of `more`, which follow `ops`. */
  function FilesAt(sha: Bytes -> Hex, ops: seq<Op>, more: seq<Op>, k: nat): Files
    requires k <= |more|
  {
    After(sha, ops + more[..k]).files
  }

  lemma NextFiles(sha: Bytes -> Hex, ops: seq<Op>, more: seq<Op>, k: nat)
    requires k < |more|
    ensures After(sha, ops + more[..k + 1]) == Apply(sha, After(sha, ops + more[..k]), more[k])
  {
    assert (ops + more[..k + 1])[..|ops| + k] == ops + more[..k];
  }

  /** The blob was collected by the operation at `k` and no later put stored it again. */
  ghost predicate LostAt(sha: Bytes -> Hex, ops: seq<Op>, more: seq<Op>, hex: Hex, k: nat)
    requires k < |more|
  {
    && Removes(FilesAt(sha, ops, more, k), more[k], hex)
    && forall j :: k < j < |more| ==> !Stores(sha, FilesAt(sha, ops, more, j), more[j], hex)
  }

  ghost predicate Lost(sha: Bytes -> Hex, ops: seq<Op>, more: seq<Op>, hex: Hex) {
    exists k :: 0 <= k < |more| && LostAt(sha, ops, more, hex, k)
  }

  /** A blob that was there is missing exactly when some collection in between took it away and no
      put has stored it since. */
  lemma {:induction false} MissingIffLost(sha: Bytes -> Hex, ops: seq<Op>, more: seq<Op>, hex: Hex)
    requires hex in After(sha, ops).files.blobs
    ensures hex !in After(sha, ops + more).files.blobs <==> Lost(sha, ops, more, hex)
  {
    if more == [] {
      assert ops + more == ops;
    } else {
      var n := |more| - 1;
      MissingIffLost(sha, ops, more[..n], hex);
      LostNext(sha, ops, more, hex);
      NextFiles(sha, ops, more, n);
      assert more[..n + 1] == more;
      BlobStep(sha, After(sha, ops + more[..n]), more[n], hex);
    }
  }

  lemma LostNext(sha: Bytes -> Hex, ops: seq<Op>, more: seq<Op>, hex: Hex)
    requires more != []
    ensures var n := |more| - 1;
            Lost(sha, ops, more, hex) <==>
              || Removes(FilesAt(sha, ops, more, n), more[n], hex)
              || (Lost(sha, ops, more[..n], hex) && !Stores(sha, FilesAt(sha, ops, more, n), more[n], hex))
  {
    hide Removes, Stores, After;
    var n := |more| - 1;
    var init := more[..n];
    assert forall k :: 0 <= k <= n ==> init[..k] == more[..k];
    if k :| 0 <= k < |more| && LostAt(sha, ops, more, hex, k) {
      if k < n { assert LostAt(sha, ops, init, hex, k); }
    }
    if Removes(FilesAt(sha, ops, more, n), more[n], hex) {
      assert LostAt(sha, ops, more, hex, n);
    }
    if Lost(sha, ops, init, hex) && !Stores(sha, FilesAt(sha, ops, more, n), more[n], hex) {
      var k :| 0 <= k < n && LostAt(sha, ops, init, hex, k);
      assert LostAt(sha, ops, more, hex, k);
    }
  }

  /** A blob modified at `mtime` is safe from the operation, whatever the state. */
  predicate Spares(op: Op, hex: Hex, mtime: int) {
    op.CollectOp? && !op.dryRun ==> hex in op.referenced || hex !in op.reached || mtime > op.cutoff
  }

  /** An operation spares a blob exactly when it takes it away in no state of the store. */
  lemma SparesExactlyWhen(op: Op, hex: Hex, mtime: int)
    ensures Spares(op, hex, mtime) <==>
      forall f: Files :: hex in f.blobs && f.blobs[hex].mtime == mtime ==> !Removes(f, op, hex)
  {
    var f := Files(map[hex := Blob([], mtime)], map[]);
    if forall f: Files :: hex in f.blobs && f.blobs[hex].mtime == mtime ==> !Removes(f, op, hex) {
      assert !Removes(f, op, hex);
    }
  }

  ghost predicate AllSpare(more: seq<Op>, hex: Hex, mtime: int) {
    forall k :: 0 <= k < |more| ==> Spares(more[k], hex, mtime)
  }

  /** A blob stays, unchanged, through any operations that all spare it. */
  lemma {:induction false} SparedBlobStays(sha: Bytes -> Hex, ops: seq<Op>, more: seq<Op>, hex: Hex)
    requires hex in After(sha, ops).files.blobs
    requires AllSpare(more, hex, After(sha, ops).files.blobs[hex].mtime)
    ensures hex in After(sha, ops + more).files.blobs
    ensures After(sha, ops + more).files.blobs[hex] == After(sha, ops).files.blobs[hex]
  {
    if more == [] {
      assert ops + more == ops;
    } else {
      var n := |more| - 1;
      SparedBlobStays(sha, ops, more[..n], hex);
      NextFiles(sha, ops, more, n);
      assert more[..n + 1] == more;
      BlobStep(sha, After(sha, ops + more[..n]), more[n], hex);
    }
  }

  // ----- what was put reads back

  lemma StoredMeans(sha: Bytes -> Hex, f: Files, content: Bytes, mediaType: string, restricted: bool, rawData: bool,
                    now: int, crash: Crash, ref: ArtifactRef)
    requires Put(sha, f, content, mediaType, restricted, rawData, now, crash).1 == Stored(ref)
    ensures ref == ReferenceTo(sha(content), content, mediaType, restricted, rawData)
    ensures var g := Put(sha, f, content, mediaType, restricted, rawData, now, crash).0;
            ref.uri in g.blobs && ref.uri in g.metadata && g.metadata[ref.uri] == ref
  {}

  lemma ReadsBack(sha: Bytes -> Hex, f: Files, ref: ArtifactRef, content: Bytes, allow: bool)
    requires Injective(sha) && WellStored(sha, f)
    requires ref == ReferenceTo(sha(content), content, ref.mediaType, ref.restricted, ref.rawData)
    requires ref.uri in f.metadata && f.metadata[ref.uri] == ref
    ensures Read(sha, f, ref, allow) ==
              if (ref.restricted || ref.rawData) && !allow then Err(AccessDenied)
              else if ref.uri in f.blobs then Ok(content)
              else Err(BlobNotFound)
  {}

  /** After a put that returned `ref`, at any later moment: a reader without the authorisation a
      sensitive artifact needs is denied, and otherwise the bytes that were put are read, unless a
      collection took the blob away and nothing stored it since. Operations that spare the blob
      cannot bring that about. */
  lemma PutThenRead(sha: Bytes -> Hex, ops: seq<Op>, put: Op, ref: ArtifactRef, more: seq<Op>, allow: bool)
    requires Injective(sha)
    requires put.PutOp? && Outcome(sha, After(sha, ops).files, put) == Stored(ref)
    ensures Read(sha, After(sha, ops + [put] + more).files, ref, allow) ==
              if (ref.restricted || ref.rawData) && !allow then Err(AccessDenied)
              else if Lost(sha, ops + [put], more, ref.uri) then Err(BlobNotFound)
              else Ok(put.content)
    ensures ref.uri in After(sha, ops + [put]).files.blobs
    ensures AllSpare(more, ref.uri, After(sha, ops + [put]).files.blobs[ref.uri].mtime)
      ==> !Lost(sha, ops + [put], more, ref.uri)
  {
    hide WellStored, Injective, Read, Put, Lost, AllSpare;
    var stored := ops + [put];
    assert stored[..|ops|] == ops;
    assert After(sha, stored) == Apply(sha, After(sha, ops), put);
    StoredMeans(sha, After(sha, ops).files, put.content, put.mediaType, put.restricted, put.rawData, put.now,
                put.crash, ref);
    RunsAreWellStored(sha, stored + more);
    MetadataIsPermanent(sha, stored, more, ref.uri);
    ReadsBack(sha, After(sha, stored + more).files, ref, put.content, allow);
    MissingIffLost(sha, stored, more, ref.uri);
    if AllSpare(more, ref.uri, After(sha, stored).files.blobs[ref.uri].mtime) {
      SparedBlobStays(sha, stored, more, ref.uri);
    }
  }

  // ----- what does not protect a blob

  /** A deduplicated put leaves the blob's modification time alone, so it does not protect the blob
      from the next collection: only the referenced set does. */
  lemma ReputDoesNotProtect(sha: Bytes -> Hex, f: Files, ref: ArtifactRef, content: Bytes, now: int, cutoff: int,
                            referenced: set<Hex>)
    requires Injective(sha) && WellStored(sha, f) && !Blank(ref.mediaType)
    requires ref == ReferenceTo(sha(content), content, ref.mediaType, ref.restricted, ref.rawData)
    requires ref.uri in f.blobs && f.metadata[ref.uri] == ref
    ensures var (g, outcome) := Put(sha, f, content, ref.mediaType, ref.restricted, ref.rawData, now, NoCrash);
            && outcome == Stored(ref) && g == f
            && (ref.uri in Swept(g, referenced, cutoff, g.blobs.Keys).blobs <==>
                 ref.uri in referenced || f.blobs[ref.uri].mtime > cutoff)
  {
    PutOutcomes(sha, f, content, ref.mediaType, ref.restricted, ref.rawData, now);
    assert f.metadata[ref.uri := ref] == f.metadata;
  }
}
