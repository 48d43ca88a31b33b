/** The content-addressed artifact store of padawan/artifacts/store.py: its two file trees, and
    what each operation does to them, crash points included. */
module Store {
  import opened Finite
  import opened Prelude

  type Bytes = seq<bv8>

  /** 64 lower-case hexadecimal digits, ordered as the numbers they write. */
  type Hex = nat

  /** Each identity field holds the digest it embeds. */
  datatype ArtifactRef = ArtifactRef(
    artifactId: Hex, uri: Hex, digest: Hex, mediaType: string, size: nat, restricted: bool, rawData: bool)
  {
    predicate Consistent() { digest == uri && artifactId == uri }

    predicate Sensitive() { restricted || rawData }
  }

  datatype Blob = Blob(content: Bytes, mtime: int)

  datatype Files = Files(blobs: map<Hex, Blob>, metadata: map<Hex, ArtifactRef>)

  datatype StoreError = EmptyMediaType | AccessDenied | Integrity | BlobNotFound

  /** The point inside `put_bytes` at which the process dies, if it does. */
  datatype Crash = NoCrash | BeforeMetadata | BeforeBlob

  datatype PutOutcome = Stored(ref: ArtifactRef) | Refused(error: StoreError) | Died

  const EMPTY := Files(map[], map[])

  predicate Blank(s: string) {
    forall i :: 0 <= i < |s| ==> s[i] in " \t\n\r"
  }

  function ReferenceTo(hex: Hex, content: Bytes, mediaType: string, restricted: bool, rawData: bool): ArtifactRef {
    ArtifactRef(hex, hex, hex, mediaType, |content|, restricted, rawData)
  }

  /** `_read_metadata`: missing metadata is a denial, malformed metadata an integrity failure. */
  function ReadMetadata(f: Files, hex: Hex): Result<ArtifactRef, StoreError> {
    if hex !in f.metadata then Err(AccessDenied)
    else if !f.metadata[hex].Consistent() || f.metadata[hex].uri != hex then Err(Integrity)
    else Ok(f.metadata[hex])
  }

  predicate Intact(sha: Bytes -> Hex, content: Bytes, digest: Hex, size: nat) {
    |content| == size && sha(content) == digest
  }

  /** The second half of `put_bytes`: verify the blob that is there, or write it. */
  function PutBlob(sha: Bytes -> Hex, f: Files, ref: ArtifactRef, content: Bytes, now: int, crash: Crash)
    : (Files, PutOutcome)
  {
    if ref.uri in f.blobs then
      if Intact(sha, f.blobs[ref.uri].content, ref.digest, ref.size) then (f, Stored(ref)) else (f, Refused(Integrity))
    else if crash.BeforeBlob? then (f, Died)
    else (f.(blobs := f.blobs[ref.uri := Blob(content, now)]), Stored(ref))
  }

  function Put(sha: Bytes -> Hex, f: Files, content: Bytes, mediaType: string, restricted: bool, rawData: bool,
               now: int, crash: Crash): (Files, PutOutcome)
  {
    if Blank(mediaType) then (f, Refused(EmptyMediaType))
    else
      var hex := sha(content);
      var ref := ReferenceTo(hex, content, mediaType, restricted, rawData);
      if hex in f.blobs || hex in f.metadata then
        var stored := ReadMetadata(f, hex);
        if stored.Err? then (f, Refused(stored.error))
        else if stored.value != ref then (f, Refused(Integrity))
        else PutBlob(sha, f, ref, content, now, crash)
      else if crash.BeforeMetadata? then (f, Died)
      else PutBlob(sha, f.(metadata := f.metadata[hex := ref]), ref, content, now, crash)
  }

  function Read(sha: Bytes -> Hex, f: Files, ref: ArtifactRef, allowRestricted: bool): Result<Bytes, StoreError> {
    if !ref.Consistent() then Err(Integrity)
    else
      var hex := ref.uri;
      var stored := ReadMetadata(f, hex);
      if stored.Err? then Err(stored.error)
      else if stored.value.Sensitive() && !allowRestricted then Err(AccessDenied)
      else if stored.value != ref then Err(Integrity)
      else if hex !in f.blobs then Err(BlobNotFound)
      else
        var content := f.blobs[hex].content;
        if Intact(sha, content, stored.value.digest, stored.value.size) then Ok(content) else Err(Integrity)
  }

  // ----- what the operations do with any contents, damaged ones included

  /** A reference names one digest throughout. */
  ghost predicate NamesOneDigest(ref: ArtifactRef) { ref.artifactId == ref.digest && ref.digest == ref.uri }

  /** The stored classification asks for an authorisation. */
  ghost predicate NeedsAuthorisation(ref: ArtifactRef) { ref.restricted || ref.rawData }

  /** A read succeeds exactly when the stored metadata is the supplied reference, the reader has the
      authorisation it asks for, and the blob has its size and hashes to its digest. */
  lemma ReadSucceedsWhen(sha: Bytes -> Hex, f: Files, ref: ArtifactRef, allow: bool, content: Bytes)
    ensures Read(sha, f, ref, allow) == Ok(content) <==>
      && NamesOneDigest(ref) && ref.uri in f.metadata && f.metadata[ref.uri] == ref
      && (NeedsAuthorisation(ref) ==> allow)
      && ref.uri in f.blobs && f.blobs[ref.uri].content == content
      && |content| == ref.size && sha(content) == ref.digest
  {}

  /** It is denied exactly for a digest without metadata, and for a reader without the authorisation
      that the stored metadata asks for, whatever the supplied reference claims. */
  lemma ReadIsDeniedWhen(sha: Bytes -> Hex, f: Files, ref: ArtifactRef, allow: bool)
    ensures Read(sha, f, ref, allow) == Err(AccessDenied) <==>
      && NamesOneDigest(ref)
      && (|| ref.uri !in f.metadata
          || (NamesOneDigest(f.metadata[ref.uri]) && f.metadata[ref.uri].uri == ref.uri
              && NeedsAuthorisation(f.metadata[ref.uri]) && !allow))
    ensures Read(sha, f, ref, allow) == Err(BlobNotFound) <==>
      && NamesOneDigest(ref) && ref.uri in f.metadata && f.metadata[ref.uri] == ref
      && (NeedsAuthorisation(ref) ==> allow) && ref.uri !in f.blobs
    ensures Read(sha, f, ref, allow) != Err(EmptyMediaType)
  {}

  ghost predicate OnlySpaces(s: string) {
    forall i :: 0 <= i < |s| ==> s[i] == ' ' || s[i] == '\t' || s[i] == '\n' || s[i] == '\r'
  }

  lemma BlankIsOnlySpaces(s: string)
    ensures Blank(s) <==> OnlySpaces(s)
  {}

  /** What is known of the digest agrees with the put: nothing, or metadata that equals the reference
      and, if there is a blob, bytes of the right size and digest. */
  ghost predicate Agrees(sha: Bytes -> Hex, f: Files, ref: ArtifactRef) {
    && (ref.uri in f.blobs || ref.uri in f.metadata ==> ref.uri in f.metadata && f.metadata[ref.uri] == ref)
    && (ref.uri in f.blobs ==>
          |f.blobs[ref.uri].content| == ref.size && sha(f.blobs[ref.uri].content) == ref.digest)
  }

  /** A put that does not die succeeds exactly when the media type says something and what is stored
      agrees; it then adds what was missing, and a refusal changes nothing. */
  lemma PutSucceedsWhen(sha: Bytes -> Hex, f: Files, content: Bytes, mediaType: string, restricted: bool,
                        rawData: bool, now: int)
    ensures var hex := sha(content);
            var ref := ArtifactRef(hex, hex, hex, mediaType, |content|, restricted, rawData);
            var (g, outcome) := Put(sha, f, content, mediaType, restricted, rawData, now, NoCrash);
            if OnlySpaces(mediaType) then g == f && outcome == Refused(EmptyMediaType)
            else if Agrees(sha, f, ref) then
              && outcome == Stored(ref) && g.metadata == f.metadata[hex := ref]
              && g.blobs == if hex in f.blobs then f.blobs else f.blobs[hex := Blob(content, now)]
            else
              && g == f
              && outcome == Refused(if hex in f.blobs && hex !in f.metadata then AccessDenied else Integrity)
  {
    BlankIsOnlySpaces(mediaType);
    var hex := sha(content);
    if hex in f.metadata && f.metadata[hex] == ReferenceTo(hex, content, mediaType, restricted, rawData) {
      assert f.metadata == f.metadata[hex := f.metadata[hex]];
    }
  }

  /** A put dies only where it would write: before the metadata of a new digest, leaving everything as
      it was, or before a missing blob, leaving the metadata without it. */
  lemma PutDiesWhen(sha: Bytes -> Hex, f: Files, content: Bytes, mediaType: string, restricted: bool,
                    rawData: bool, now: int, crash: Crash)
    ensures var hex := sha(content);
            var ref := ArtifactRef(hex, hex, hex, mediaType, |content|, restricted, rawData);
            var (g, outcome) := Put(sha, f, content, mediaType, restricted, rawData, now, crash);
            var isNew := hex !in f.blobs && hex !in f.metadata;
            if !OnlySpaces(mediaType) && crash == BeforeMetadata && isNew then outcome == Died && g == f
            else if !OnlySpaces(mediaType) && crash == BeforeBlob && hex !in f.blobs && Agrees(sha, f, ref) then
              outcome == Died && g.metadata == f.metadata[hex := ref] && g.blobs == f.blobs
            else (g, outcome) == Put(sha, f, content, mediaType, restricted, rawData, now, NoCrash)
  {
    BlankIsOnlySpaces(mediaType);
    var hex := sha(content);
    if hex in f.metadata && f.metadata[hex] == ReferenceTo(hex, content, mediaType, restricted, rawData) {
      assert f.metadata == f.metadata[hex := f.metadata[hex]];
    }
  }

  /** Unreferenced, and not modified after the cutoff. */
  predicate Collectable(f: Files, referenced: set<Hex>, cutoff: int, hex: Hex) {
    hex in f.blobs && hex !in referenced && f.blobs[hex].mtime <= cutoff
  }

  /** The blobs of `f` without the collectable ones among `reached`, the paths a sweep got to. */
  function Swept(f: Files, referenced: set<Hex>, cutoff: int, reached: set<Hex>): Files {
    f.(blobs := map hex
         | hex in f.blobs && !(hex in reached && Collectable(f, referenced, cutoff, hex)) :: f.blobs[hex])
  }

  // ----- the store object

  datatype Collection = Collection(scanned: nat, eligible: seq<Hex>, deleted: seq<Hex>, dryRun: bool)

  class LocalArtifactStore {
    const sha: Bytes -> Hex
    var blobs: map<Hex, Blob>
    var metadata: map<Hex, ArtifactRef>

    function Contents(): Files
      reads this
    {
      Files(blobs, metadata)
    }

    constructor (digest: Bytes -> Hex)
      ensures sha == digest && Contents() == EMPTY
    {
      sha := digest;
      blobs, metadata := map[], map[];
    }

    method PutBytes(content: Bytes, mediaType: string, restricted: bool, rawData: bool, now: int, crash: Crash)
        returns (r: PutOutcome)
      modifies this
      ensures (Contents(), r) == Put(sha, old(Contents()), content, mediaType, restricted, rawData, now, crash)
    {
      if Blank(mediaType) { return Refused(EmptyMediaType); }
      var hex := sha(content);
      var ref := ReferenceTo(hex, content, mediaType, restricted, rawData);
      if hex in blobs || hex in metadata {
        var stored := ReadMetadata(Contents(), hex);
        if stored.Err? { return Refused(stored.error); }
        if stored.value != ref { return Refused(Integrity); }
      } else {
        if crash == BeforeMetadata { return Died; }
        metadata := metadata[hex := ref];
      }
      if hex in blobs {
        if !Intact(sha, blobs[hex].content, hex, |content|) { return Refused(Integrity); }
      } else {
        if crash == BeforeBlob { return Died; }
        blobs := blobs[hex := Blob(content, now)];
      }
      return Stored(ref);
    }

    method ReadBytes(ref: ArtifactRef, allowRestricted: bool) returns (r: Result<Bytes, StoreError>)
      ensures r == Read(sha, Contents(), ref, allowRestricted)
      ensures r.Ok? ==>
        && ref.uri in metadata && metadata[ref.uri] == ref && ref.uri in blobs && blobs[ref.uri].content == r.value
        && sha(r.value) == ref.digest && |r.value| == ref.size
        && (ref.restricted || ref.rawData ==> allowRestricted)
    {
      if !ref.Consistent() { return Err(Integrity); }
      var stored := ReadMetadata(Contents(), ref.uri);
      if stored.Err? { return Err(stored.error); }
      if stored.value.Sensitive() && !allowRestricted { return Err(AccessDenied); }
      if stored.value != ref { return Err(Integrity); }
      if ref.uri !in blobs { return Err(BlobNotFound); }
      var content := blobs[ref.uri].content;
      if !Intact(sha, content, stored.value.digest, stored.value.size) { return Err(Integrity); }
      return Ok(content);
    }

    /** The sweep over the sorted blob paths; the process may die after any number of them. */
    method CollectGarbage(referenced: set<Hex>, minimumAge: nat, dryRun: bool, now: int, survives: nat)
        returns (r: Option<Collection>, ghost reached: set<Hex>)
      modifies this`blobs
      ensures reached <= old(blobs).Keys && (r.Some? ==> reached == old(blobs).Keys)
      ensures Contents() ==
        if dryRun then old(Contents()) else Swept(old(Contents()), referenced, now - minimumAge, reached)
      ensures r.Some? ==> Reports(r.value, old(Contents()), referenced, now - minimumAge, dryRun)
    {
      hide Ascending, Swept, Eligible, Prefix, Reports;
      var cutoff := now - minimumAge;
      var paths := Ascending(blobs.Keys);
      var eligible: seq<Hex>, deleted: seq<Hex> := [], [];
      var scanned := 0;
      reached := {};
      ghost var files := Contents();
      SweepStarts(files, referenced, cutoff, paths);
      while scanned < |paths|
        invariant scanned <= |paths| && reached == Prefix(paths, scanned)
        invariant Contents() == if dryRun then files else Swept(files, referenced, cutoff, reached)
        invariant Eligible(files, referenced, cutoff, paths[..scanned], eligible)
        invariant deleted == if dryRun then [] else eligible
      {
        if scanned == survives {
          PrefixWithin(paths, scanned);
          return None, reached;
        }
        var hex := paths[scanned];
        SweepStep(files, referenced, cutoff, paths, scanned, eligible);
        scanned := scanned + 1;
        reached := reached + {hex};
        if hex in referenced || blobs[hex].mtime > cutoff { continue; }
        eligible := eligible + [hex];
        if !dryRun {
          blobs := blobs - {hex};
          deleted := deleted + [hex];
        }
      }
      SweepEnds(files, referenced, cutoff, paths, eligible);
      r := Some(Collection(scanned, eligible, deleted, dryRun));
    }
  }

  ghost function Prefix(paths: seq<Hex>, n: nat): set<Hex>
    requires n <= |paths|
  {
    set i | 0 <= i < n :: paths[i]
  }

  /** `eligible` lists, in order, the collectable paths among `paths`. */
  ghost predicate Eligible(f: Files, referenced: set<Hex>, cutoff: int, paths: seq<Hex>, eligible: seq<Hex>) {
    && StrictlyIncreasing(eligible)
    && forall hex :: hex in eligible <==> hex in paths && Collectable(f, referenced, cutoff, hex)
  }

  /** A finished sweep's report: every blob scanned, the collectable ones listed in order, and
      exactly those deleted unless it was a dry run. */
  ghost predicate Reports(c: Collection, f: Files, referenced: set<Hex>, cutoff: int, dryRun: bool) {
    && c.scanned == |f.blobs.Keys| && c.dryRun == dryRun
    && StrictlyIncreasing(c.eligible)
    && (forall hex :: hex in c.eligible <==> Collectable(f, referenced, cutoff, hex))
    && c.deleted == (if dryRun then [] else c.eligible)
  }

  lemma SweepStarts(f: Files, referenced: set<Hex>, cutoff: int, paths: seq<Hex>)
    ensures Swept(f, referenced, cutoff, {}) == f
    ensures Prefix(paths, 0) == {} && Eligible(f, referenced, cutoff, paths[..0], [])
  {}

  lemma PrefixWithin(paths: seq<Hex>, n: nat)
    requires n <= |paths|
    ensures forall hex :: hex in Prefix(paths, n) ==> hex in paths
    ensures n == |paths| ==> forall hex :: hex in paths ==> hex in Prefix(paths, n)
  {}

  lemma SweepEnds(f: Files, referenced: set<Hex>, cutoff: int, paths: seq<Hex>, eligible: seq<Hex>)
    requires |paths| == |f.blobs.Keys| && forall hex :: hex in paths <==> hex in f.blobs
    requires Eligible(f, referenced, cutoff, paths[..|paths|], eligible)
    ensures Reports(Collection(|paths|, eligible, [], true), f, referenced, cutoff, true)
    ensures Reports(Collection(|paths|, eligible, eligible, false), f, referenced, cutoff, false)
    ensures Prefix(paths, |paths|) == f.blobs.Keys
  {
    assert paths[..|paths|] == paths;
    PrefixWithin(paths, |paths|);
  }

  lemma SweepStep(f: Files, referenced: set<Hex>, cutoff: int, paths: seq<Hex>, n: nat, eligible: seq<Hex>)
    requires n < |paths| && StrictlyIncreasing(paths) && forall hex :: hex in paths ==> hex in f.blobs
    requires Eligible(f, referenced, cutoff, paths[..n], eligible)
    ensures var hex, before := paths[n], Prefix(paths, n);
            && Prefix(paths, n + 1) == before + {hex}
            && hex in Swept(f, referenced, cutoff, before).blobs
            && Swept(f, referenced, cutoff, before).metadata == f.metadata
            && Swept(f, referenced, cutoff, before).blobs[hex] == f.blobs[hex]
            && if Collectable(f, referenced, cutoff, hex) then
                 && Eligible(f, referenced, cutoff, paths[..n + 1], eligible + [hex])
                 && Swept(f, referenced, cutoff, before + {hex})
                    == Files(Swept(f, referenced, cutoff, before).blobs - {hex}, f.metadata)
               else
                 && Eligible(f, referenced, cutoff, paths[..n + 1], eligible)
                 && Swept(f, referenced, cutoff, before + {hex}) == Swept(f, referenced, cutoff, before)
  {
    var hex, before := paths[n], Prefix(paths, n);
    assert hex in paths && hex !in before;
    assert paths[..n + 1] == paths[..n] + [hex];
    assert forall i :: 0 <= i < |eligible| ==> eligible[i] in paths[..n];
  }
}
