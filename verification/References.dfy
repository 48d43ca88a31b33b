/** Which runs keep every referenced artifact readable: what collections may take away while
    transactions are open. */
module References {
  import opened Prelude
  import opened Store
  import opened ArtifactCatalog
  import opened StoreRuns

  // ----- the catalog agrees with the files

  /** Every row is the metadata the files hold under its id. */
  ghost predicate Described(f: Files, rows: map<Hex, ArtifactRef>) {
    forall id :: id in rows ==>
      && rows[id].Consistent() && rows[id].uri == id
      && id in f.metadata && f.metadata[id] == rows[id]
  }

  ghost predicate HasRows(rows: map<Hex, ArtifactRef>, references: set<(Owner, Hex)>) {
    forall r :: r in references ==> r.1 in rows
  }

  /** The committed rows and those of each open transaction are described, and every reference has
      its row. */
  ghost predicate Registered(s: System) {
    && Described(s.files, s.catalog.rows) && HasRows(s.catalog.rows, s.catalog.references)
    && forall tx :: tx in s.open ==> OpenRegistered(s, tx)
  }

  ghost predicate OpenRegistered(s: System, tx: nat) {
    && Described(s.files, Own(s, tx).rows)
    && HasRows(Joined(s.catalog, Own(s, tx)).rows, Own(s, tx).references)
  }

  lemma ReadDescribes(sha: Bytes -> Hex, f: Files, ref: ArtifactRef)
    requires Read(sha, f, ref, true).Ok?
    ensures ref.Consistent() && ref.uri in f.metadata && f.metadata[ref.uri] == ref && ref.uri in f.blobs
  {}

  lemma RegisterDescribes(sha: Bytes -> Hex, s: System, tx: nat, ref: ArtifactRef)
    requires Registered(s)
    ensures var r := Register(sha, s.files, s.catalog, Own(s, tx), ref);
            && (r.Ok? <==> Read(sha, s.files, ref, true).Ok?)
            && (r.Ok? ==>
                 && Described(s.files, r.value.rows)
                 && r.value.references == Own(s, tx).references
                 && ref.artifactId in Joined(s.catalog, r.value).rows
                 && HasRows(Joined(s.catalog, r.value).rows, r.value.references))
  {
    hide Read;
    assert OpenRegistered(s, tx) by { if tx in s.open { assert OpenRegistered(s, tx); } }
    if Read(sha, s.files, ref, true).Ok? { ReadDescribes(sha, s.files, ref); }
  }

  lemma ClaimRegisters(sha: Bytes -> Hex, s: System, op: Op)
    requires Registered(s) && (op.RegisterOp? || op.ReferenceOp?)
    ensures Registered(Apply(sha, s, op))
  {
    hide Register;
    RegisterDescribes(sha, s, op.tx, op.ref);
    var t := Apply(sha, s, op);
    forall tx | tx in t.open ensures OpenRegistered(t, tx) {
      if tx != op.tx { assert OpenRegistered(s, tx); }
    }
  }

  lemma ApplyRegisters(sha: Bytes -> Hex, s: System, op: Op)
    requires Registered(s)
    ensures Registered(Apply(sha, s, op))
  {
    if op.RegisterOp? || op.ReferenceOp? {
      ClaimRegisters(sha, s, op);
    } else {
      var t := Apply(sha, s, op);
      forall id | id in s.files.metadata
        ensures id in t.files.metadata && t.files.metadata[id] == s.files.metadata[id]
      {
        ApplyKeepsMetadata(sha, s, op, id);
      }
      forall tx | tx in t.open ensures OpenRegistered(t, tx) {
        assert OpenRegistered(s, tx);
      }
      if op.CommitOp? && op.tx in s.open { assert OpenRegistered(s, op.tx); }
    }
  }

  lemma {:induction false} RunsAreRegistered(sha: Bytes -> Hex, ops: seq<Op>)
    ensures Registered(After(sha, ops))
  {
    if ops != [] {
      RunsAreRegistered(sha, ops[..|ops| - 1]);
      ApplyRegisters(sha, After(sha, ops[..|ops| - 1]), ops[|ops| - 1]);
    }
  }

  /** On every run the catalog never conflicts with a reference the store verifies: `register` fails
      only where the read of the bytes does. */
  lemma CatalogNeverConflicts(sha: Bytes -> Hex, ops: seq<Op>, tx: nat, ref: ArtifactRef)
    ensures var s := After(sha, ops);
            Register(sha, s.files, s.catalog, Own(s, tx), ref).Ok? <==> Read(sha, s.files, ref, true).Ok?
  {
    RunsAreRegistered(sha, ops);
    RegisterDescribes(sha, After(sha, ops), tx, ref);
  }

  // ----- what a step records

  /** A reference is committed by the commit of a transaction that inserted it, and stays until its
      owner is released; nothing else changes the committed references. */
  lemma ReferencesStep(sha: Bytes -> Hex, s: System, op: Op, owner: Owner, id: Hex)
    ensures (owner, id) in Apply(sha, s, op).catalog.references <==>
      || (op.CommitOp? && op.tx in s.open && (owner, id) in s.open[op.tx].references)
      || ((owner, id) in s.catalog.references && !(op.ReleaseOp? && owner.ownerId in op.ownerIds))
  {}

  /** A transaction inserts a reference when its bytes verify, unless it sees it already; it loses what
      it inserted by ending, or by a rollback to before it. */
  lemma InsertionsStep(sha: Bytes -> Hex, s: System, op: Op, tx: nat, owner: Owner, id: Hex)
    requires Registered(s)
    ensures (owner, id) in Own(Apply(sha, s, op), tx).references <==>
      || (&& op.ReferenceOp? && op.tx == tx && op.owner == owner && op.ref.artifactId == id
          && Read(sha, s.files, op.ref, true).Ok? && (owner, id) !in s.catalog.references)
      || (&& (owner, id) in Own(s, tx).references && op != CommitOp(tx)
          && (op.RollbackOp? && op.tx == tx ==>
                Partial(s.catalog, Own(s, tx), op.kept) && (owner, id) in op.kept.references))
  {
    hide Read, Put, Swept;
    if op.RegisterOp? || op.ReferenceOp? { RegisterDescribes(sha, s, op.tx, op.ref); }
  }

  /** What a successful registration leaves in the transaction. */
  lemma RegisterInserts(sha: Bytes -> Hex, s: System, tx: nat, ref: ArtifactRef)
    requires Registered(s) && Read(sha, s.files, ref, true).Ok?
    ensures var own := Own(s, tx);
            var r := Register(sha, s.files, s.catalog, own, ref);
            && r.Ok? && r.value.references == own.references
            && (forall id :: id in own.rows ==> id in r.value.rows && r.value.rows[id] == own.rows[id])
            && forall id :: id in r.value.rows <==> id in own.rows || (id == ref.artifactId && id !in s.catalog.rows)
  {
    RegisterDescribes(sha, s, tx, ref);
    hide Read;
  }

  /** Likewise for the rows: a registration that verifies inserts the row unless the transaction sees it. */
  lemma RegistrationsStep(sha: Bytes -> Hex, s: System, op: Op, tx: nat, id: Hex)
    requires Registered(s)
    ensures id in Own(Apply(sha, s, op), tx).rows <==>
      || (&& (op.RegisterOp? || op.ReferenceOp?) && op.tx == tx && op.ref.artifactId == id
          && Read(sha, s.files, op.ref, true).Ok? && id !in s.catalog.rows)
      || (&& id in Own(s, tx).rows && op != CommitOp(tx)
          && (op.RollbackOp? && op.tx == tx ==> Partial(s.catalog, Own(s, tx), op.kept) && id in op.kept.rows))
  {
    hide Read, Put, Swept, Registered, Register;
    if op.RegisterOp? || op.ReferenceOp? {
      RegisterDescribes(sha, s, op.tx, op.ref);
      if Read(sha, s.files, op.ref, true).Ok? { RegisterInserts(sha, s, op.tx, op.ref); }
    }
  }

  /** Going back to a savepoint undoes what was inserted since, and going back to the start everything. */
  lemma RollbackUndoes(sha: Bytes -> Hex, s: System, op: Op)
    requires Registered(s) && (op.RegisterOp? || op.ReferenceOp?)
    ensures var t := Apply(sha, s, op);
            && Own(Apply(sha, t, RollbackOp(op.tx, Own(s, op.tx))), op.tx) == Own(s, op.tx)
            && Own(Apply(sha, t, RollbackOp(op.tx, NOTHING)), op.tx) == NOTHING
  {
    var t := Apply(sha, s, op);
    EarlierIsPartial(sha, s, op);
    hide Read, Register, Registered, Partial, Joined;
    assert t.catalog == s.catalog;
  }

  lemma EarlierIsPartial(sha: Bytes -> Hex, s: System, op: Op)
    requires Registered(s) && (op.RegisterOp? || op.ReferenceOp?)
    ensures Partial(s.catalog, Own(Apply(sha, s, op), op.tx), Own(s, op.tx))
  {
    hide Read, Register;
    assert OpenRegistered(s, op.tx) by { if op.tx in s.open { assert OpenRegistered(s, op.tx); } }
    hide Registered;
    RegisterDescribes(sha, s, op.tx, op.ref);
    if Read(sha, s.files, op.ref, true).Ok? { RegisterInserts(sha, s, op.tx, op.ref); }
  }

  /** An artifact is registered from the commit on of a transaction that registered it. */
  lemma RowsStep(sha: Bytes -> Hex, s: System, op: Op, id: Hex)
    ensures id in Apply(sha, s, op).catalog.rows <==>
      id in s.catalog.rows || (op.CommitOp? && op.tx in s.open && id in s.open[op.tx].rows)
  {}

  /** The digests of the artifacts that have a committed reference, and no others. */
  lemma ReferencedExactly(s: System, hex: Hex)
    requires Registered(s)
    ensures hex in ReferencedDigests(s.catalog) <==> exists r :: r in s.catalog.references && r.1 == hex
  {}

  // ----- readable means present

  ghost predicate Readable(sha: Bytes -> Hex, s: System, id: Hex) {
    && id in s.catalog.rows
    && var read := Read(sha, s.files, s.catalog.rows[id], true);
       read.Ok? && sha(read.value) == s.catalog.rows[id].digest
  }

  /** Every referenced artifact reads back bytes with its digest. */
  ghost predicate AllReadable(sha: Bytes -> Hex, s: System) {
    forall r :: r in s.catalog.references ==> Readable(sha, s, r.1)
  }

  ghost predicate Present(s: System) {
    forall r :: r in s.catalog.references ==> r.1 in s.files.blobs
  }

  lemma ReadableIsPresent(sha: Bytes -> Hex, s: System)
    requires Injective(sha) && Registered(s) && WellStored(sha, s.files)
    ensures AllReadable(sha, s) <==> Present(s)
  {
    forall r | r in s.catalog.references ensures Readable(sha, s, r.1) <==> r.1 in s.files.blobs {
      assert Describes(sha, r.1, s.files.metadata[r.1]);
    }
  }

  // ----- one step

  /** No collection in the step takes a referenced blob away. */
  ghost predicate SparesReferenced(s: System, op: Op) {
    forall r :: r in s.catalog.references ==> !Removes(s.files, op, r.1)
  }

  /** A commit in the step finds the blobs of all references it brings. */
  ghost predicate CommitFinds(s: System, op: Op) {
    op.CommitOp? ==> forall r :: r in Own(s, op.tx).references ==> r.1 in s.files.blobs
  }

  lemma PresentStep(sha: Bytes -> Hex, s: System, op: Op)
    requires Present(s)
    ensures Present(Apply(sha, s, op)) <==> SparesReferenced(s, op) && CommitFinds(s, op)
  {
    var t := Apply(sha, s, op);
    if !op.ReleaseOp? {
      forall r | r in s.catalog.references
        ensures r in t.catalog.references && (r.1 in t.files.blobs <==> !Removes(s.files, op, r.1))
      {
        BlobStep(sha, s, op, r.1);
      }
    }
  }

  // ----- runs

  ghost predicate ReadableThroughout(sha: Bytes -> Hex, ops: seq<Op>) {
    forall k :: 0 <= k <= |ops| ==> AllReadable(sha, After(sha, ops[..k]))
  }

  ghost predicate SparesThroughout(sha: Bytes -> Hex, ops: seq<Op>) {
    forall k :: 0 <= k < |ops| ==> SparesReferenced(After(sha, ops[..k]), ops[k])
  }

  ghost predicate FindsThroughout(sha: Bytes -> Hex, ops: seq<Op>) {
    forall k :: 0 <= k < |ops| ==> CommitFinds(After(sha, ops[..k]), ops[k])
  }

  lemma {:induction false} PresentUpTo(sha: Bytes -> Hex, ops: seq<Op>, k: nat)
    requires k <= |ops| && SparesThroughout(sha, ops) && FindsThroughout(sha, ops)
    ensures Present(After(sha, ops[..k]))
  {
    if k > 0 {
      PresentUpTo(sha, ops, k - 1);
      NextState(sha, ops, k - 1);
      PresentStep(sha, After(sha, ops[..k - 1]), ops[k - 1]);
    }
  }

  /** Every referenced artifact reads back at every moment of a run exactly when no collection takes
      away a blob that is referenced at that time, and every commit finds the blobs of the references
      it brings. */
  lemma ReadableIffSpared(sha: Bytes -> Hex, ops: seq<Op>)
    requires Injective(sha)
    ensures ReadableThroughout(sha, ops) <==> SparesThroughout(sha, ops) && FindsThroughout(sha, ops)
  {
    hide AllReadable, Present, SparesReferenced, CommitFinds, Registered, WellStored, Injective, After;
    forall k | 0 <= k <= |ops| ensures AllReadable(sha, After(sha, ops[..k])) <==> Present(After(sha, ops[..k])) {
      RunsAreRegistered(sha, ops[..k]);
      RunsAreWellStored(sha, ops[..k]);
      ReadableIsPresent(sha, After(sha, ops[..k]));
    }
    if SparesThroughout(sha, ops) && FindsThroughout(sha, ops) {
      forall k | 0 <= k <= |ops| ensures Present(After(sha, ops[..k])) {
        PresentUpTo(sha, ops, k);
      }
    }
    if ReadableThroughout(sha, ops) {
      forall k | 0 <= k < |ops|
        ensures SparesReferenced(After(sha, ops[..k]), ops[k]) && CommitFinds(After(sha, ops[..k]), ops[k])
      {
        NextState(sha, ops, k);
        PresentStep(sha, After(sha, ops[..k]), ops[k]);
      }
    }
  }

  // ----- the same, of the collections alone

  /** The transaction has inserted a reference to the artifact. */
  ghost predicate Claims(s: System, tx: nat, hex: Hex) {
    exists r :: r in Own(s, tx).references && r.1 == hex
  }

  /** After step `i` and before step `j`. */
  ghost predicate NothingStores(sha: Bytes -> Hex, ops: seq<Op>, i: nat, j: nat, hex: Hex)
    requires j <= |ops|
  {
    forall m :: i < m < j ==> !Stores(sha, After(sha, ops[..m]).files, ops[m], hex)
  }

  /** The transaction later commits the claim, and nothing stores the blob before that. */
  ghost predicate CommitsAfter(sha: Bytes -> Hex, ops: seq<Op>, k: nat, tx: nat, hex: Hex) {
    exists j :: k < j < |ops| && CommitsAt(sha, ops, k, j, tx, hex)
  }

  ghost predicate CommitsAt(sha: Bytes -> Hex, ops: seq<Op>, k: nat, j: nat, tx: nat, hex: Hex)
    requires k < j < |ops|
  {
    ops[j] == CommitOp(tx) && Claims(After(sha, ops[..j]), tx, hex) && NothingStores(sha, ops, k, j, hex)
  }

  /** At step `k` the blob is referenced, or claimed by a transaction that goes on to commit
      the claim. */
  ghost predicate Needed(sha: Bytes -> Hex, ops: seq<Op>, k: nat, hex: Hex)
    requires k <= |ops|
  {
    || (exists r :: r in After(sha, ops[..k]).catalog.references && r.1 == hex)
    || exists tx :: Claims(After(sha, ops[..k]), tx, hex) && CommitsAfter(sha, ops, k, tx, hex)
  }

  ghost predicate SparesNeeded(sha: Bytes -> Hex, ops: seq<Op>) {
    forall k, hex :: 0 <= k < |ops| && Needed(sha, ops, k, hex) ==> !Removes(After(sha, ops[..k]).files, ops[k], hex)
  }

  /** A new claim is of a blob that was just verified. */
  lemma ClaimStep(sha: Bytes -> Hex, s: System, op: Op, tx: nat, hex: Hex)
    requires Claims(Apply(sha, s, op), tx, hex)
    ensures Claims(s, tx, hex) || hex in Apply(sha, s, op).files.blobs
  {
    hide Read, Put, Swept;
    if op.ReferenceOp? && Read(sha, s.files, op.ref, true).Ok? {
      ReadDescribes(sha, s.files, op.ref);
    }
  }

  /** A claimed blob that is missing was taken away while it was claimed. */
  lemma {:induction false} MissingClaim(sha: Bytes -> Hex, ops: seq<Op>, k: nat, tx: nat, hex: Hex) returns (i: nat)
    requires k <= |ops|
    requires Claims(After(sha, ops[..k]), tx, hex) && hex !in After(sha, ops[..k]).files.blobs
    ensures i < k && Claims(After(sha, ops[..i]), tx, hex) && Removes(After(sha, ops[..i]).files, ops[i], hex)
    ensures NothingStores(sha, ops, i, k, hex)
    decreases k
  {
    hide Apply, Claims, Removes, Stores;
    i := 0;
    if k == 0 {
      NoClaims(sha, tx, hex);
    } else {
      var s, op := After(sha, ops[..k - 1]), ops[k - 1];
      NextState(sha, ops, k - 1);
      ClaimStep(sha, s, op, tx, hex);
      BlobStep(sha, s, op, hex);
      if Removes(s.files, op, hex) {
        i := k - 1;
      } else {
        i := MissingClaim(sha, ops, k - 1, tx, hex);
      }
    }
  }

  lemma NoClaims(sha: Bytes -> Hex, tx: nat, hex: Hex)
    ensures !Claims(After(sha, []), tx, hex)
  {}

  /** A blob taken away stays missing until it is stored again. */
  lemma {:induction false} StaysMissing(sha: Bytes -> Hex, ops: seq<Op>, k: nat, j: nat, hex: Hex)
    requires k < j <= |ops| && NothingStores(sha, ops, k, j, hex)
    requires Removes(After(sha, ops[..k]).files, ops[k], hex)
    ensures hex !in After(sha, ops[..j]).files.blobs
    decreases j
  {
    hide Apply;
    NextState(sha, ops, j - 1);
    BlobStep(sha, After(sha, ops[..j - 1]), ops[j - 1], hex);
    if k < j - 1 {
      StaysMissing(sha, ops, k, j - 1, hex);
    }
  }

  /** Every referenced artifact reads back at every moment of a run exactly when no collection takes
      away a blob that is referenced then, or claimed then by a transaction that goes on to commit the
      claim before the blob is stored again. */
  lemma ReadableIffNeededSpared(sha: Bytes -> Hex, ops: seq<Op>)
    requires Injective(sha)
    ensures ReadableThroughout(sha, ops) <==> SparesNeeded(sha, ops)
  {
    hide ReadableThroughout, Removes, After, Claims, NothingStores;
    ReadableIffSpared(sha, ops);
    if SparesNeeded(sha, ops) {
      forall k | 0 <= k < |ops| ensures SparesReferenced(After(sha, ops[..k]), ops[k]) {
        SparesFromNeeded(sha, ops, k);
      }
      forall k | 0 <= k < |ops| ensures CommitFinds(After(sha, ops[..k]), ops[k]) {
        FindsFromNeeded(sha, ops, k);
      }
    }
    if ReadableThroughout(sha, ops) {
      forall k, hex | 0 <= k < |ops| && Needed(sha, ops, k, hex)
        ensures !Removes(After(sha, ops[..k]).files, ops[k], hex)
      {
        NeededFromFinds(sha, ops, k, hex);
      }
    }
  }

  lemma SparesFromNeeded(sha: Bytes -> Hex, ops: seq<Op>, k: nat)
    requires k < |ops| && SparesNeeded(sha, ops)
    ensures SparesReferenced(After(sha, ops[..k]), ops[k])
  {
    hide Removes, After;
    forall r | r in After(sha, ops[..k]).catalog.references ensures Needed(sha, ops, k, r.1) {}
  }

  lemma CommitNeeds(sha: Bytes -> Hex, ops: seq<Op>, i: nat, j: nat, tx: nat, hex: Hex)
    requires i < j < |ops| && CommitsAt(sha, ops, i, j, tx, hex) && Claims(After(sha, ops[..i]), tx, hex)
    ensures Needed(sha, ops, i, hex)
  {
    assert CommitsAfter(sha, ops, i, tx, hex);
  }

  lemma FindsFromNeeded(sha: Bytes -> Hex, ops: seq<Op>, k: nat)
    requires k < |ops| && SparesNeeded(sha, ops)
    ensures CommitFinds(After(sha, ops[..k]), ops[k])
  {
    hide Removes, After, NothingStores;
    var s, op := After(sha, ops[..k]), ops[k];
    if op.CommitOp? {
      forall r | r in Own(s, op.tx).references ensures r.1 in s.files.blobs {
        if r.1 !in s.files.blobs {
          assert Claims(s, op.tx, r.1);
          var i := MissingClaim(sha, ops, k, op.tx, r.1);
          CommitNeeds(sha, ops, i, k, op.tx, r.1);
        }
      }
    }
  }

  lemma NeededFromFinds(sha: Bytes -> Hex, ops: seq<Op>, k: nat, hex: Hex)
    requires k < |ops| && SparesThroughout(sha, ops) && FindsThroughout(sha, ops) && Needed(sha, ops, k, hex)
    ensures !Removes(After(sha, ops[..k]).files, ops[k], hex)
  {
    hide Removes, After, NothingStores;
    var s := After(sha, ops[..k]);
    if Removes(s.files, ops[k], hex) {
      assert SparesReferenced(s, ops[k]);
      var tx :| Claims(s, tx, hex) && CommitsAfter(sha, ops, k, tx, hex);
      var j :| k < j < |ops| && CommitsAt(sha, ops, k, j, tx, hex);
      assert CommitFinds(After(sha, ops[..j]), ops[j]);
      StaysMissing(sha, ops, k, j, hex);
    }
  }

  // ----- what the caller of a collection can check

  /** The artifacts referenced, and those claimed by open transactions. */
  function Promised(s: System): set<Hex> {
    (set r | r in s.catalog.references :: r.1) + (set tx, r | tx in s.open && r in s.open[tx].references :: r.1)
  }

  /** A collection in the step is given each promised digest, or a cutoff before its blob. */
  predicate Guards(s: System, op: Op) {
    op.CollectOp? && !op.dryRun ==>
      forall hex :: hex in Promised(s) ==>
        hex in op.referenced || (hex in s.files.blobs && s.files.blobs[hex].mtime > op.cutoff)
  }

  lemma NeededIsPromised(sha: Bytes -> Hex, ops: seq<Op>, k: nat, hex: Hex)
    requires k <= |ops| && Needed(sha, ops, k, hex)
    ensures hex in Promised(After(sha, ops[..k]))
  {
    hide After, CommitsAfter;
    var s := After(sha, ops[..k]);
    if r :| r in s.catalog.references && r.1 == hex {
    } else {
      var tx :| Claims(s, tx, hex) && CommitsAfter(sha, ops, k, tx, hex);
      assert tx in s.open;
    }
  }

  ghost predicate GuardsThroughout(sha: Bytes -> Hex, ops: seq<Op>) {
    forall k :: 0 <= k < |ops| ==> Guards(After(sha, ops[..k]), ops[k])
  }

  /** If every collection also keeps what open transactions claim, by the set it is given or by its
      cutoff, every referenced artifact reads back at every moment. */
  lemma GuardedStayReadable(sha: Bytes -> Hex, ops: seq<Op>)
    requires Injective(sha) && GuardsThroughout(sha, ops)
    ensures ReadableThroughout(sha, ops)
  {
    hide ReadableThroughout, Needed, After, Promised;
    forall k, hex | 0 <= k < |ops| && Needed(sha, ops, k, hex)
      ensures !Removes(After(sha, ops[..k]).files, ops[k], hex)
    {
      NeededIsPromised(sha, ops, k, hex);
      assert Guards(After(sha, ops[..k]), ops[k]);
    }
    ReadableIffNeededSpared(sha, ops);
  }

  /** When all referenced blobs are there: a full sweep leaves them there exactly when each is in the
      given set or newer than the cutoff, and so it is wherever the sweep may be cut short. */
  lemma CollectionHoldsIff(sha: Bytes -> Hex, s: System, referenced: set<Hex>, cutoff: int)
    requires Present(s)
    ensures Present(Apply(sha, s, CollectOp(referenced, cutoff, false, s.files.blobs.Keys)))
      <==> Protects(s, referenced, cutoff)
    ensures (forall reached :: Present(Apply(sha, s, CollectOp(referenced, cutoff, false, reached))))
      <==> Protects(s, referenced, cutoff)
  {
    hide Apply, Present;
    PresentStep(sha, s, CollectOp(referenced, cutoff, false, s.files.blobs.Keys));
    SparesWhenProtected(s, referenced, cutoff);
    forall reached | Protects(s, referenced, cutoff)
      ensures Present(Apply(sha, s, CollectOp(referenced, cutoff, false, reached)))
    {
      PresentStep(sha, s, CollectOp(referenced, cutoff, false, reached));
    }
  }

  /** Every committed reference is in the given set or its blob newer than the cutoff. */
  predicate Protects(s: System, referenced: set<Hex>, cutoff: int) {
    forall r :: r in s.catalog.references ==>
      r.1 in referenced || (r.1 in s.files.blobs && s.files.blobs[r.1].mtime > cutoff)
  }

  lemma SparesWhenProtected(s: System, referenced: set<Hex>, cutoff: int)
    requires Present(s)
    ensures SparesReferenced(s, CollectOp(referenced, cutoff, false, s.files.blobs.Keys))
      <==> Protects(s, referenced, cutoff)
    ensures Protects(s, referenced, cutoff) ==>
      forall reached :: SparesReferenced(s, CollectOp(referenced, cutoff, false, reached))
  {}

  /** The blobs of all referenced artifacts are there, and whichever transaction commits next they
      still are. */
  ghost predicate Safe(sha: Bytes -> Hex, s: System) {
    Present(s) && forall tx :: Present(Apply(sha, s, CommitOp(tx)))
  }

  lemma SafeIsKept(sha: Bytes -> Hex, s: System)
    ensures Safe(sha, s) <==> Promised(s) <= s.files.blobs.Keys
  {
    if Safe(sha, s) {
      forall tx, r | tx in s.open && r in s.open[tx].references ensures r.1 in s.files.blobs {
        assert Present(Apply(sha, s, CommitOp(tx)));
      }
    }
  }

  /** A full sweep leaves a safe state safe exactly when it guards what is promised, and so it is
      wherever the sweep may be cut short. */
  lemma CollectionIsSafeIff(sha: Bytes -> Hex, s: System, referenced: set<Hex>, cutoff: int)
    requires Safe(sha, s)
    ensures Safe(sha, Apply(sha, s, CollectOp(referenced, cutoff, false, s.files.blobs.Keys)))
      <==> Guards(s, CollectOp(referenced, cutoff, false, {}))
    ensures (forall reached :: Safe(sha, Apply(sha, s, CollectOp(referenced, cutoff, false, reached))))
      <==> Guards(s, CollectOp(referenced, cutoff, false, {}))
  {
    hide Safe, Promised;
    SafeIsKept(sha, s);
    forall reached
      ensures Safe(sha, Apply(sha, s, CollectOp(referenced, cutoff, false, reached))) <==>
        forall hex :: hex in Promised(s) ==> !(hex in reached && Collectable(s.files, referenced, cutoff, hex))
    {
      SafeAfterSweep(sha, s, referenced, cutoff, reached);
    }
  }

  lemma SafeAfterSweep(sha: Bytes -> Hex, s: System, referenced: set<Hex>, cutoff: int, reached: set<Hex>)
    requires Promised(s) <= s.files.blobs.Keys
    ensures Safe(sha, Apply(sha, s, CollectOp(referenced, cutoff, false, reached))) <==>
      forall hex :: hex in Promised(s) ==> !(hex in reached && Collectable(s.files, referenced, cutoff, hex))
  {
    hide Safe;
    var t := Apply(sha, s, CollectOp(referenced, cutoff, false, reached));
    SafeIsKept(sha, t);
    assert Promised(t) == Promised(s);
    hide Promised;
    assert forall hex :: hex in t.files.blobs <==>
      hex in s.files.blobs && !(hex in reached && Collectable(s.files, referenced, cutoff, hex));
  }

  // ----- the digests referenced at the time

  /** The collection was given every digest referenced at the time. */
  ghost predicate Current(s: System, op: Op) {
    op.CollectOp? ==> ReferencedDigests(s.catalog) <= op.referenced
  }

  ghost predicate AllCurrent(sha: Bytes -> Hex, ops: seq<Op>) {
    forall k :: 0 <= k < |ops| ==> Current(After(sha, ops[..k]), ops[k])
  }

  lemma CurrentSpares(s: System, op: Op)
    requires Registered(s) && Current(s, op)
    ensures SparesReferenced(s, op)
  {
    forall r | r in s.catalog.references ensures r.1 in ReferencedDigests(s.catalog) {
      assert s.catalog.rows[r.1].digest == r.1;
    }
  }

  /** No open transaction claims anything while a collection runs. */
  ghost predicate CollectsQuietly(sha: Bytes -> Hex, ops: seq<Op>) {
    forall k, tx, hex :: 0 <= k < |ops| && ops[k].CollectOp? ==> !Claims(After(sha, ops[..k]), tx, hex)
  }

  lemma QuietlyFinds(sha: Bytes -> Hex, ops: seq<Op>)
    requires CollectsQuietly(sha, ops)
    ensures FindsThroughout(sha, ops)
  {
    hide After, NothingStores;
    forall k | 0 <= k < |ops| ensures CommitFinds(After(sha, ops[..k]), ops[k]) {
      var s, op := After(sha, ops[..k]), ops[k];
      if op.CommitOp? {
        forall r | r in Own(s, op.tx).references ensures r.1 in s.files.blobs {
          if r.1 !in s.files.blobs {
            assert Claims(s, op.tx, r.1);
            var i := MissingClaim(sha, ops, k, op.tx, r.1);
          }
        }
      }
    }
  }

  /** When every collection is given the digests referenced at that time: every referenced artifact
      reads back at every moment exactly when every commit finds the blobs of its references, as it
      does if no transaction has claimed anything while a collection runs. */
  lemma ReferencedStayReadable(sha: Bytes -> Hex, ops: seq<Op>)
    requires Injective(sha) && AllCurrent(sha, ops)
    ensures ReadableThroughout(sha, ops) <==> FindsThroughout(sha, ops)
    ensures CollectsQuietly(sha, ops) ==> ReadableThroughout(sha, ops)
  {
    hide ReadableThroughout, FindsThroughout, CollectsQuietly;
    forall k | 0 <= k < |ops| ensures SparesReferenced(After(sha, ops[..k]), ops[k]) {
      RunsAreRegistered(sha, ops[..k]);
      assert Current(After(sha, ops[..k]), ops[k]);
      CurrentSpares(After(sha, ops[..k]), ops[k]);
    }
    ReadableIffSpared(sha, ops);
    if CollectsQuietly(sha, ops) { QuietlyFinds(sha, ops); }
  }

  // ----- two ways to lose a referenced artifact

  function PutText(content: Bytes): Op { PutOp(content, "text", false, false, 0, NoCrash) }

  lemma AfterPut(sha: Bytes -> Hex, content: Bytes)
    ensures var ref := ReferenceTo(sha(content), content, "text", false, false);
            After(sha, [PutText(content)])
              == System(Files(map[sha(content) := Blob(content, 0)], map[sha(content) := ref]), NOTHING, map[])
  {
    var op := PutText(content);
    assert [op][..0] == [];
    assert After(sha, [op]) == Apply(sha, After(sha, []), op);
    assert "text"[0] == 't' && !Blank("text");
  }

  /** Verify and claim; collect what no committed row refers to; commit. */
  function LosingRun(content: Bytes, ref: ArtifactRef, owner: Owner): seq<Op> {
    [PutText(content), ReferenceOp(0, ref, owner), CollectOp({}, 0, false, {ref.uri}), CommitOp(0)]
  }

  lemma LosingStates(sha: Bytes -> Hex, content: Bytes, owner: Owner)
    ensures var ref := ReferenceTo(sha(content), content, "text", false, false);
            var ops, own := LosingRun(content, ref, owner), Catalog(map[ref.uri := ref], {(owner, ref.uri)});
            var metadata := map[ref.uri := ref];
            && After(sha, ops[..0]) == START
            && After(sha, ops[..1]) == System(Files(map[ref.uri := Blob(content, 0)], metadata), NOTHING, map[])
            && After(sha, ops[..2]) == System(Files(map[ref.uri := Blob(content, 0)], metadata), NOTHING, map[0 := own])
            && After(sha, ops[..3]) == System(Files(map[], metadata), NOTHING, map[0 := own])
            && After(sha, ops) == System(Files(map[], metadata), own, map[])
  {
    var ref := ReferenceTo(sha(content), content, "text", false, false);
    var ops := LosingRun(content, ref, owner);
    AfterPut(sha, content);
    assert ops[..1] == [PutText(content)] && ops[..0] == [] && ops[..4] == ops;
    assert After(sha, ops[..0]) == START;
    hide After, Apply;
    NextState(sha, ops, 1);
    NextState(sha, ops, 2);
    NextState(sha, ops, 3);
    LosingSteps(sha, content, owner);
  }

  lemma LosingSteps(sha: Bytes -> Hex, content: Bytes, owner: Owner)
    ensures var ref := ReferenceTo(sha(content), content, "text", false, false);
            var stored := Files(map[ref.uri := Blob(content, 0)], map[ref.uri := ref]);
            var collected := Files(map[], map[ref.uri := ref]);
            var own := Catalog(map[ref.uri := ref], {(owner, ref.uri)});
            && Apply(sha, System(stored, NOTHING, map[]), ReferenceOp(0, ref, owner))
                 == System(stored, NOTHING, map[0 := own])
            && Apply(sha, System(stored, NOTHING, map[0 := own]), CollectOp({}, 0, false, {ref.uri}))
                 == System(collected, NOTHING, map[0 := own])
            && Apply(sha, System(collected, NOTHING, map[0 := own]), CommitOp(0)) == System(collected, own, map[])
  {
    var ref := ReferenceTo(sha(content), content, "text", false, false);
    var own := Catalog(map[ref.uri := ref], {(owner, ref.uri)});
    assert Joined(NOTHING, own) == own;
  }

  /** The bytes are verified, collected while nothing committed refers to them, and then the reference
      is committed: every collection was given the digests referenced at the time, none took away a
      referenced blob, and the referenced artifact is gone. */
  lemma UncommittedReferenceIsLost(sha: Bytes -> Hex, content: Bytes, owner: Owner)
    ensures var ref := ReferenceTo(sha(content), content, "text", false, false);
            var ops := LosingRun(content, ref, owner);
            && AllCurrent(sha, ops) && SparesThroughout(sha, ops)
            && (owner, ref.artifactId) in After(sha, ops).catalog.references
            && Read(sha, After(sha, ops).files, ref, true) == Err(BlobNotFound)
  {
    var ref := ReferenceTo(sha(content), content, "text", false, false);
    var ops := LosingRun(content, ref, owner);
    LosingStates(sha, content, owner);
    hide After;
    forall k | 0 <= k < |ops|
      ensures Current(After(sha, ops[..k]), ops[k]) && SparesReferenced(After(sha, ops[..k]), ops[k])
    {
      assert k == 0 || k == 1 || k == 2 || k == 3;
      assert k < 3 ==> After(sha, ops[..k]).catalog == NOTHING;
    }
  }

  /** A referenced set computed too early is not enough either: the reference is committed after the
      snapshot, and the artifact collected all the same. */
  lemma StaleSnapshotLosesArtifact(sha: Bytes -> Hex, content: Bytes, owner: Owner)
    ensures var ref := ReferenceTo(sha(content), content, "text", false, false);
            var before := After(sha, [PutText(content)]);
            var snapshot := ReferencedDigests(before.catalog);
            var s := Apply(sha, Apply(sha, before, ReferenceOp(0, ref, owner)), CommitOp(0));
            && (owner, ref.artifactId) in s.catalog.references
            && Read(sha, s.files, ref, true) == Ok(content)
            && Read(sha, Apply(sha, s, CollectOp(snapshot, 0, false, {ref.uri})).files, ref, true) == Err(BlobNotFound)
  {
    AfterPut(sha, content);
  }
}
