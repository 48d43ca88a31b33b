/** The catalog over the artifact store: what `register` and `reference` do inside a transaction, and
    the store, the catalog and the open transactions as one step machine. */
module ArtifactCatalog {
  import opened Prelude
  import opened Store

  datatype Owner = Owner(ownerType: string, ownerId: string)

  /** Registered artifacts by id, and the owners holding a reference to them. */
  datatype Catalog = Catalog(rows: map<Hex, ArtifactRef>, references: set<(Owner, Hex)>)

  const NOTHING := Catalog(map[], {})

  /** What a transaction sees: the committed rows and its own. */
  function Joined(c: Catalog, own: Catalog): Catalog {
    Catalog(c.rows + own.rows, c.references + own.references)
  }

  /** `register`: verify the stored bytes, then insert the row or insist that it is the same. Returns
      what the transaction has inserted. */
  function Register(sha: Bytes -> Hex, f: Files, c: Catalog, own: Catalog, ref: ArtifactRef)
    : Result<Catalog, StoreError>
  {
    var verified := Read(sha, f, ref, true);
    var seen := Joined(c, own);
    if verified.Err? then Err(verified.error)
    else if ref.artifactId in seen.rows then
      if seen.rows[ref.artifactId] == ref then Ok(own) else Err(Integrity)
    else Ok(own.(rows := own.rows[ref.artifactId := ref]))
  }

  /** `reference`: register, then insert the ownership reference unless it is there. */
  function Reference(sha: Bytes -> Hex, f: Files, c: Catalog, own: Catalog, ref: ArtifactRef, owner: Owner)
    : Result<Catalog, StoreError>
  {
    var registered := Register(sha, f, c, own, ref);
    if registered.Err? then Err(registered.error)
    else if (owner, ref.artifactId) in Joined(c, own).references then Ok(registered.value)
    else Ok(registered.value.(references := registered.value.references + {(owner, ref.artifactId)}))
  }

  function ReferencedDigests(c: Catalog): set<Hex> {
    set r | r in c.references && r.1 in c.rows :: c.rows[r.1].digest
  }

  // ----- the machine

  /** `open` holds what each open transaction has inserted: nobody else sees it before the commit. */
  datatype System = System(files: Files, catalog: Catalog, open: map<nat, Catalog>)

  /** `reached` are the blob paths a sweep got to before it ended or the process died. Anything
      may come between a verification and the commit. A rollback returns to the part that was inserted
      before a savepoint, or to nothing. */
  datatype Op =
    | PutOp(content: Bytes, mediaType: string, restricted: bool, rawData: bool, now: int, crash: Crash)
    | ReadOp(ref: ArtifactRef, allowRestricted: bool)
    | CollectOp(referenced: set<Hex>, cutoff: int, dryRun: bool, reached: set<Hex>)
    | RegisterOp(tx: nat, ref: ArtifactRef)
    | ReferenceOp(tx: nat, ref: ArtifactRef, owner: Owner)
    | CommitOp(tx: nat)
    | RollbackOp(tx: nat, kept: Catalog)
    | ReleaseOp(ownerIds: set<string>)

  function Own(s: System, tx: nat): Catalog {
    if tx in s.open then s.open[tx] else NOTHING
  }

  /** Some of what a transaction has inserted, no reference without its row. */
  predicate Partial(c: Catalog, own: Catalog, kept: Catalog) {
    && (forall id :: id in kept.rows ==> id in own.rows && own.rows[id] == kept.rows[id])
    && kept.references <= own.references
    && forall r :: r in kept.references ==> r.1 in Joined(c, kept).rows
  }

  function Apply(sha: Bytes -> Hex, s: System, op: Op): System {
    match op
    case PutOp(content, mediaType, restricted, rawData, now, crash) =>
      s.(files := Put(sha, s.files, content, mediaType, restricted, rawData, now, crash).0)
    case ReadOp(_, _) => s
    case CollectOp(referenced, cutoff, dryRun, reached) =>
      if dryRun then s else s.(files := Swept(s.files, referenced, cutoff, reached))
    case RegisterOp(tx, ref) =>
      var r := Register(sha, s.files, s.catalog, Own(s, tx), ref);
      if r.Ok? then s.(open := s.open[tx := r.value]) else s
    case ReferenceOp(tx, ref, owner) =>
      var r := Reference(sha, s.files, s.catalog, Own(s, tx), ref, owner);
      if r.Ok? then s.(open := s.open[tx := r.value]) else s
    case CommitOp(tx) => s.(catalog := Joined(s.catalog, Own(s, tx)), open := s.open - {tx})
    case RollbackOp(tx, kept) =>
      s.(open := s.open[tx := if Partial(s.catalog, Own(s, tx), kept) then kept else NOTHING])
    case ReleaseOp(ownerIds) =>
      s.(catalog := s.catalog.(references := set r | r in s.catalog.references && r.0.ownerId !in ownerIds))
  }

  const START := System(EMPTY, NOTHING, map[])

  function After(sha: Bytes -> Hex, ops: seq<Op>): System {
    if ops == [] then START else Apply(sha, After(sha, ops[..|ops| - 1]), ops[|ops| - 1])
  }

  lemma NextState(sha: Bytes -> Hex, ops: seq<Op>, k: nat)
    requires k < |ops|
    ensures After(sha, ops[..k + 1]) == Apply(sha, After(sha, ops[..k]), ops[k])
  {
    assert ops[..k + 1][..k] == ops[..k];
  }

  /** SHA-256 is taken to be collision-free. */
  ghost predicate Injective(sha: Bytes -> Hex) {
    forall x, y :: sha(x) == sha(y) ==> x == y
  }
}
