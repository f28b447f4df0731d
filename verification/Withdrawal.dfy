/** The except clause of the Python/TypeScript coordinator (refresh_coordinator.py):
    five staged rollbacks, then the journal's own. */
module Withdrawal {
  import opened Basics
  import opened FileSystems
  import opened Publication
  import opened Staging
  import opened Transaction

  type Store = FileSystem<Name, Content>

  /** The staged objects and remembered bytes of one run. */
  datatype Kept = Kept(registration: StagedRegistration?, manifest: StagedManifest?, provider: ProviderDatabaseBackup?,
                       providerCalled: bool, stateBefore: Option<Content>, manifestBefore: Option<Content>) {
    ghost predicate Valid()
      reads registration, manifest, provider
    {
      && (registration != null ==> registration.Valid())
      && (manifest != null ==> manifest.Valid())
      && (provider != null ==> provider.Valid())
    }
  }

  function At(files: Files, l: Label): Option<Content> {
    if Published(l) in files then Some(files[Published(l)]) else None
  }

  // ---------- What a run has in hand ----------

  /** What is left of the private backups are copies of `base`, and so are the remembered bytes. */
  ghost predicate Loose(kept: Kept, d: Storage, base: Files)
    requires d.Valid()
    reads kept.registration, kept.manifest, kept.provider
  {
    && (kept.manifest != null && kept.manifest.backup.Some? ==> Copy(d, kept.manifest.backup, base, Manifest))
    && (kept.registration != null && kept.registration.backup.Some? ==> Copy(d, kept.registration.backup, base, Sidecar))
    && (kept.provider != null && kept.provider.backup.Some? ==> Copy(d, kept.provider.backup, base, Provider))
    && (kept.provider != null ==> (kept.provider.existed <==> Published(Provider) in base))
    && kept.stateBefore == At(base, State) && kept.manifestBefore == At(base, Manifest)
  }

  ghost predicate ManifestArmed(kept: Kept, base: Files)
    reads kept.manifest
  {
    kept.manifest != null && kept.manifest.published && kept.manifest.backup.None? ==> Published(Manifest) !in base
  }

  ghost predicate RegistrationArmed(kept: Kept, d: Storage, base: Files)
    reads kept.registration
  {
    kept.registration != null && kept.registration.published ==>
      kept.registration.Identified(d) && (kept.registration.backup.None? ==> Published(Sidecar) !in base)
  }

  ghost predicate ProviderArmed(kept: Kept)
    reads kept.provider
  {
    kept.provider != null && kept.provider.existed ==> kept.provider.backup.Some?
  }

  /** No private backup that the staged rollbacks from the i-th on need has been
      given up, and the published index is still the one of this run. */
  ghost predicate Armed(kept: Kept, d: Storage, base: Files, i: nat)
    reads kept.registration, kept.manifest, kept.provider
  {
    && (i <= 0 ==> ManifestArmed(kept, base))
    && (i <= 1 ==> RegistrationArmed(kept, d, base))
    && (i <= 4 ==> ProviderArmed(kept))
  }

  /** The artifacts in the order of the staged rollbacks. */
  const ORDER: seq<Label> := [Manifest, Sidecar, State, Manifest, Provider]

  /** The staged rollback of the manifest has nothing to do, and so on for the other four. */
  ghost predicate Idle(kept: Kept, i: nat)
    reads kept.registration, kept.manifest
  {
    match i
    case 0 => kept.manifest == null || !kept.manifest.published
    case 1 => kept.registration == null || !kept.registration.published
    case 2 => !kept.providerCalled
    case 3 => kept.manifestBefore.None?
    case _ => kept.provider == null || !kept.providerCalled
  }

  ghost function AllIdle(kept: Kept): (idle: seq<bool>)
    ensures |idle| == |ORDER|
    reads kept.registration, kept.manifest
  {
    [Idle(kept, 0), Idle(kept, 1), Idle(kept, 2), Idle(kept, 3), Idle(kept, 4)]
  }

  /** Where the staged rollbacks from the i-th on have nothing to do, the artifact
      is that of `base`; the second one of the manifest can rely on the first. */
  ghost predicate Covered(idle: seq<bool>, files: Files, base: Files, i: nat)
    requires |idle| == |ORDER|
  {
    forall j | i <= j < |ORDER| :: CoveredAt(idle, files, base, i, j)
  }

  ghost predicate CoveredAt(idle: seq<bool>, files: Files, base: Files, i: nat, j: nat)
    requires j < |ORDER| == |idle|
  {
    idle[j] && (j == 3 ==> i > 0) ==> SameAt(files, base, Published(ORDER[j]))
  }

  /** A transaction that may have begun to give up its backups. */
  ghost predicate Held(d: Storage, journal: Document, journaled: Document, base: Files) {
    && d.Valid() && Journaled(d, journaled) && BackedUp(d, journaled, base)
    && Remembers(journal, journaled) && Acceptable(Standard, journaled)
  }

  lemma OpenHeld(d: Storage, journal: Document, journaled: Document, base: Files)
    requires Open(Standard, d, journal, journaled, base)
    ensures Held(d, journal, journaled, base)
  {
  }

  lemma HeldFrame(d: Storage, d': Storage, journal: Document, journaled: Document, base: Files, except: set<Name>)
    requires Held(d, journal, journaled, base) && d'.Valid() && Untouched(d.Files(), d'.Files(), except)
    requires forall n | n in except :: Replaceable(journaled, n) && n != Journal
    ensures Held(d', journal, journaled, base)
    ensures Complete(d.names.Keys, journaled) ==> Complete(d'.names.Keys, journaled)
  {
    BackedUpFrame(d, d', journaled, base, except);
    assert SameAt(d.Files(), d'.Files(), Journal);
  }

  // ---------- Mixtures of two generations ----------

  /** The artifacts of `removed` are missing, those of `restored` are the ones of
      `base`, and all others are the ones of `next`. */
  ghost predicate Mixed(files: Files, base: Files, next: Files, restored: set<Label>, removed: set<Label>) {
    forall n: Name | n.Published? || n.Shard? :: MixedAt(files, base, next, restored, removed, n)
  }

  ghost predicate MixedAt(files: Files, base: Files, next: Files, restored: set<Label>, removed: set<Label>, n: Name) {
    if n.Published? && n.artifact in removed then n !in files
    else if n.Published? && n.artifact in restored then SameAt(files, base, n)
    else SameAt(files, next, n)
  }

  /** Nothing but the artifact of `l` differs; it is as it was, or that of `base`, or gone. */
  ghost predicate Touched(a: Files, b: Files, base: Files, l: Label) {
    && (forall n: Name | (n.Published? || n.Shard?) && n != Published(l) :: SameAt(a, b, n))
    && (SameAt(a, b, Published(l)) || SameAt(b, base, Published(l)) || Published(l) !in b)
  }

  lemma MixedStep(a: Files, b: Files, base: Files, next: Files, restored: set<Label>, removed: set<Label>, l: Label)
    returns (restored': set<Label>, removed': set<Label>)
    requires Mixed(a, base, next, restored, removed) && Touched(a, b, base, l)
    ensures Mixed(b, base, next, restored', removed')
    ensures SameAt(b, base, Published(l)) ==> restored' == restored + {l} && removed' == removed - {l}
    ensures !SameAt(b, base, Published(l)) && SameAt(a, b, Published(l)) ==> restored' == restored && removed' == removed
  {
    restored', removed' := restored, removed;
    if SameAt(b, base, Published(l)) {
      restored', removed' := restored + {l}, removed - {l};
    } else if !SameAt(a, b, Published(l)) {
      removed' := removed + {l};
    }
    forall n: Name | n.Published? || n.Shard?
      ensures MixedAt(b, base, next, restored', removed', n)
    {
      assert MixedAt(a, base, next, restored, removed, n);
      assert n != Published(l) ==> SameAt(a, b, n);
    }
  }

  lemma MixedRestored(a: Files, b: Files, base: Files, next: Files, restored: set<Label>, removed: set<Label>, done: set<Label>)
    requires Mixed(a, base, next, restored, removed) && Restored(a, b, done, base)
    ensures Mixed(b, base, next, restored + done, removed - done)
  {
    forall n: Name | n.Published? || n.Shard?
      ensures MixedAt(b, base, next, restored + done, removed - done, n)
    {
      assert MixedAt(a, base, next, restored, removed, n) && RestoredAt(a, b, done, base, n);
    }
  }

  lemma MixedFrame(d: Storage, d': Storage, base: Files, next: Files, restored: set<Label>, removed: set<Label>)
    requires d.Valid() && d'.Valid() && World(d) == World(d')
    requires Mixed(d.Files(), base, next, restored, removed)
    ensures Mixed(d'.Files(), base, next, restored, removed)
  {
    forall n: Name | n.Published? || n.Shard?
      ensures MixedAt(d'.Files(), base, next, restored, removed, n)
    {
      assert MixedAt(d.Files(), base, next, restored, removed, n);
      assert n in World(d) <==> n in World(d');
    }
  }

  /** The mixture is all of `base`. */
  predicate AllOld(base: Files, next: Files, restored: set<Label>, removed: set<Label>) {
    forall l: Label ::
      if l in removed then Published(l) !in base else l in restored || At(base, l) == At(next, l)
  }

  /** The mixture is all of `next`. */
  predicate AllNew(base: Files, next: Files, restored: set<Label>, removed: set<Label>) {
    forall l: Label ::
      if l in removed then Published(l) !in next else l in restored ==> At(base, l) == At(next, l)
  }

  lemma MixedWhole(d: Storage, base: Files, next: Files, restored: set<Label>, removed: set<Label>)
    requires d.Valid() && Mixed(d.Files(), base, next, restored, removed) && Shown(base) && Shown(next)
    requires forall n: Name | n.Shard? :: SameAt(base, next, n)
    ensures World(d) == base <==> AllOld(base, next, restored, removed)
    ensures World(d) == next <==> AllNew(base, next, restored, removed)
  {
    forall l: Label
      ensures At(World(d), l) ==
        if l in removed then None else if l in restored then At(base, l) else At(next, l)
    {
      assert MixedAt(d.Files(), base, next, restored, removed, Published(l));
    }
    forall n: Name | n.Shard?
      ensures SameAt(World(d), base, n) && SameAt(World(d), next, n)
    {
      assert MixedAt(d.Files(), base, next, restored, removed, n);
    }
    SameFiles(World(d), base);
    SameFiles(World(d), next);
  }

  lemma SameFiles(a: Files, b: Files)
    requires Shown(a) && Shown(b) && forall n: Name | n.Shard? :: SameAt(a, b, n)
    ensures a == b <==> forall l: Label :: At(a, l) == At(b, l)
  {
    if forall l: Label :: At(a, l) == At(b, l) {
      forall n: Name
        ensures n in a <==> n in b
        ensures n in a ==> a[n] == b[n]
      {
        assert n.Published? ==> At(a, n.artifact) == At(b, n.artifact);
        assert n.Shard? ==> SameAt(a, b, n);
      }
    }
  }

  // ---------- The staged rollbacks ----------

  /** Moves the private backup of the manifest back. */
  method RollbackManifest(fs: Store, manifest: StagedManifest, ghost journal: Document, ghost journaled: Document, ghost base: Files)
    returns (o: Outcome)
    requires Held(fs.disk, journal, journaled, base) && manifest.Valid()
    requires manifest.backup.Some? ==> Copy(fs.disk, manifest.backup, base, Manifest)
    modifies fs, manifest
    ensures Held(fs.disk, journal, journaled, base) && manifest.Valid() && fs.faults >= old(fs.faults)
    ensures Complete(old(fs.disk).names.Keys, journaled) ==> Complete(fs.disk.names.Keys, journaled)
    ensures manifest.backup.Some? ==> Copy(fs.disk, manifest.backup, base, Manifest)
    ensures ScratchKept(old(fs.disk).Files(), fs.disk.Files(), OwnNames(manifest.temporary, old(manifest.backup)))
    ensures SameInode(old(fs.disk), fs.disk, Published(Sidecar))
    ensures Touched(old(fs.disk).Files(), fs.disk.Files(), base, Manifest)
    ensures if o.Ok? && old(manifest.published)
      then old(manifest.backup.None? ==> Published(Manifest) !in base) ==> SameAt(fs.disk.Files(), base, Published(Manifest))
      else SameAt(old(fs.disk).Files(), fs.disk.Files(), Published(Manifest))
    ensures fs.faults == old(fs.faults) ==> o.Ok?
  {
    ghost var was, backup := fs.disk, manifest.backup;
    ghost var except := {Published(Manifest)} + OwnNames(manifest.temporary, manifest.backup);
    o := manifest.Rollback(fs);
    HeldFrame(was, fs.disk, journal, journaled, base, except);
    TouchedFrame(was, fs.disk, base, Manifest, backup, except);
    if manifest.backup.Some? {
      CopyFrame(was, fs.disk, backup, base, Manifest, {manifest.temporary});
    }
  }

  method WithdrawManifest(fs: Store, kept: Kept, ghost journal: Document, ghost journaled: Document, ghost base: Files)
    returns (o: Outcome)
    requires Held(fs.disk, journal, journaled, base) && kept.Valid() && Loose(kept, fs.disk, base)
    modifies fs, kept.manifest
    ensures Held(fs.disk, journal, journaled, base) && kept.Valid() && Loose(kept, fs.disk, base) && fs.faults >= old(fs.faults)
    ensures Complete(old(fs.disk).names.Keys, journaled) ==> Complete(fs.disk.names.Keys, journaled)
    ensures Touched(old(fs.disk).Files(), fs.disk.Files(), base, Manifest)
    ensures old(ManifestArmed(kept, base)) ==>
      SameAt(old(fs.disk).Files(), fs.disk.Files(), Published(Manifest)) || SameAt(fs.disk.Files(), base, Published(Manifest))
    ensures o.Ok? && old(ManifestArmed(kept, base) && (Idle(kept, 0) ==> SameAt(fs.disk.Files(), base, Published(Manifest)))) ==>
      SameAt(fs.disk.Files(), base, Published(Manifest))
    ensures old(RegistrationArmed(kept, fs.disk, base)) ==> RegistrationArmed(kept, fs.disk, base)
    ensures fs.faults == old(fs.faults) ==> o.Ok?
  {
    o := Ok;
    if kept.manifest != null {
      ghost var was := fs.disk;
      ghost var except := OwnNames(kept.manifest.temporary, kept.manifest.backup);
      o := RollbackManifest(fs, kept.manifest, journal, journaled, base);
      OthersKept(was, fs.disk, kept, base, except);
    }
  }

  /** A step that spares a private backup keeps it a copy. */
  ghost predicate Spared(d: Storage, d': Storage, backup: Option<Name>, base: Files, l: Label, except: set<Name>)
    requires d.Valid() && d'.Valid()
  {
    backup.Some? && backup.value !in except && Copy(d, backup, base, l) ==> Copy(d', backup, base, l)
  }

  lemma OthersKept(d: Storage, d': Storage, kept: Kept, base: Files, except: set<Name>)
    requires d.Valid() && d'.Valid() && ScratchKept(d.Files(), d'.Files(), except)
    ensures kept.registration != null ==> Spared(d, d', kept.registration.backup, base, Sidecar, except)
    ensures kept.provider != null ==> Spared(d, d', kept.provider.backup, base, Provider, except)
    ensures kept.manifest != null ==> Spared(d, d', kept.manifest.backup, base, Manifest, except)
  {
  }

  /** Moves the private backup of the registration index back, if the index is still this run's. */
  method RollbackRegistration(fs: Store, registration: StagedRegistration, ghost journal: Document, ghost journaled: Document,
                              ghost base: Files)
    returns (o: Outcome)
    requires Held(fs.disk, journal, journaled, base) && registration.Valid()
    requires registration.backup.Some? ==> Copy(fs.disk, registration.backup, base, Sidecar)
    modifies fs, registration
    ensures Held(fs.disk, journal, journaled, base) && registration.Valid() && fs.faults >= old(fs.faults)
    ensures Complete(old(fs.disk).names.Keys, journaled) ==> Complete(fs.disk.names.Keys, journaled)
    ensures registration.backup.Some? ==> Copy(fs.disk, registration.backup, base, Sidecar)
    ensures ScratchKept(old(fs.disk).Files(), fs.disk.Files(), OwnNames(registration.temporary, old(registration.backup)))
    ensures Touched(old(fs.disk).Files(), fs.disk.Files(), base, Sidecar)
    ensures old(registration.published && registration.backup.None? ==> Published(Sidecar) !in base) ==>
      SameAt(old(fs.disk).Files(), fs.disk.Files(), Published(Sidecar)) || SameAt(fs.disk.Files(), base, Published(Sidecar))
    ensures o.Ok? && old(registration.published) && old(registration.backup.None? ==> Published(Sidecar) !in base) ==>
      SameAt(fs.disk.Files(), base, Published(Sidecar))
    ensures !old(registration.published) ==> SameAt(old(fs.disk).Files(), fs.disk.Files(), Published(Sidecar))
    ensures fs.faults == old(fs.faults) ==> !o.Crashed?
    ensures fs.faults == old(fs.faults) && old(registration.published ==> registration.Identified(fs.disk)) ==> o.Ok?
  {
    ghost var was, backup, published := fs.disk, registration.backup, registration.published;
    ghost var except := {Published(Sidecar)} + OwnNames(registration.temporary, registration.backup);
    o := registration.Rollback(fs);
    HeldFrame(was, fs.disk, journal, journaled, base, except);
    TouchedFrame(was, fs.disk, base, Sidecar, backup, except);
    if registration.backup.Some? {
      CopyFrame(was, fs.disk, backup, base, Sidecar, {registration.temporary});
    }
  }

  method WithdrawRegistration(fs: Store, kept: Kept, ghost journal: Document, ghost journaled: Document, ghost base: Files)
    returns (o: Outcome)
    requires Held(fs.disk, journal, journaled, base) && kept.Valid() && Loose(kept, fs.disk, base)
    modifies fs, kept.registration
    ensures Held(fs.disk, journal, journaled, base) && kept.Valid() && Loose(kept, fs.disk, base) && fs.faults >= old(fs.faults)
    ensures Complete(old(fs.disk).names.Keys, journaled) ==> Complete(fs.disk.names.Keys, journaled)
    ensures Touched(old(fs.disk).Files(), fs.disk.Files(), base, Sidecar)
    ensures old(RegistrationArmed(kept, fs.disk, base)) ==>
      SameAt(old(fs.disk).Files(), fs.disk.Files(), Published(Sidecar)) || SameAt(fs.disk.Files(), base, Published(Sidecar))
    ensures o.Ok? && old(RegistrationArmed(kept, fs.disk, base) && (Idle(kept, 1) ==> SameAt(fs.disk.Files(), base, Published(Sidecar)))) ==>
      SameAt(fs.disk.Files(), base, Published(Sidecar))
    ensures fs.faults == old(fs.faults) ==> !o.Crashed? && (old(RegistrationArmed(kept, fs.disk, base)) ==> o.Ok?)
  {
    o := Ok;
    if kept.registration != null {
      ghost var was := fs.disk;
      ghost var except := OwnNames(kept.registration.temporary, kept.registration.backup);
      o := RollbackRegistration(fs, kept.registration, journal, journaled, base);
      OthersKept(was, fs.disk, kept, base, except);
    }
  }

  /** _restore_file with remembered bytes. */
  method WithdrawBytes(fs: Store, kept: Kept, l: Label, payload: Option<Content>, ghost journal: Document,
                       ghost journaled: Document, ghost base: Files)
    returns (o: Outcome)
    requires Held(fs.disk, journal, journaled, base) && kept.Valid() && Loose(kept, fs.disk, base)
    requires l in journaled.artifacts && payload == At(base, l)
    modifies fs
    ensures Held(fs.disk, journal, journaled, base) && Loose(kept, fs.disk, base) && fs.faults >= old(fs.faults)
    ensures Complete(old(fs.disk).names.Keys, journaled) ==> Complete(fs.disk.names.Keys, journaled)
    ensures Touched(old(fs.disk).Files(), fs.disk.Files(), base, l)
    ensures if o.Ok? then SameAt(fs.disk.Files(), base, Published(l))
            else SameAt(old(fs.disk).Files(), fs.disk.Files(), Published(l))
    ensures fs.faults == old(fs.faults) ==> o.Ok?
  {
    ghost var was := fs.disk;
    o := RestoreFile(fs, l, payload);
    HeldFrame(was, fs.disk, journal, journaled, base, {Published(l)});
    OthersKept(was, fs.disk, kept, base, {Published(l)});
  }

  /** Moves the private backup of the Provider's database back. */
  method WithdrawProvider(fs: Store, kept: Kept, ghost journal: Document, ghost journaled: Document, ghost base: Files)
    returns (o: Outcome)
    requires Held(fs.disk, journal, journaled, base) && kept.Valid() && Loose(kept, fs.disk, base) && kept.provider != null
    modifies fs, kept.provider
    ensures Held(fs.disk, journal, journaled, base) && kept.Valid() && Loose(kept, fs.disk, base) && fs.faults >= old(fs.faults)
    ensures Complete(old(fs.disk).names.Keys, journaled) ==> Complete(fs.disk.names.Keys, journaled)
    ensures Touched(old(fs.disk).Files(), fs.disk.Files(), base, Provider)
    ensures if o.Ok? then SameAt(fs.disk.Files(), base, Published(Provider)) else fs.disk == old(fs.disk)
    ensures fs.faults == old(fs.faults) ==> !o.Crashed? && (old(ProviderArmed(kept)) ==> o.Ok?)
    ensures old(ProviderArmed(kept)) && !o.Ok? ==> ProviderArmed(kept)
  {
    ghost var was, backup := fs.disk, kept.provider.backup;
    ghost var own := OwnBackup(kept.provider.backup);
    ghost var except := {Published(Provider)} + own;
    o := kept.provider.Rollback(fs);
    HeldFrame(was, fs.disk, journal, journaled, base, except);
    TouchedFrame(was, fs.disk, base, Provider, backup, except);
    OthersKept(was, fs.disk, kept, base, own);
  }

  /** A rollback that moved a copy of `base` back, or removed the artifact for want of one. */
  lemma TouchedFrame(d: Storage, d': Storage, base: Files, l: Label, backup: Option<Name>, except: set<Name>)
    requires d.Valid() && d'.Valid() && Untouched(d.Files(), d'.Files(), except)
    requires forall n | n in except :: n == Published(l) || n.Scratch?
    requires SameAt(d.Files(), d'.Files(), Published(l)) || TookBack(d.Files(), d'.Files(), l, backup)
    requires backup.Some? ==> Copy(d, backup, base, l)
    ensures Touched(d.Files(), d'.Files(), base, l)
    ensures TookBack(d.Files(), d'.Files(), l, backup) && (backup.None? ==> Published(l) !in base) ==>
      SameAt(d'.Files(), base, Published(l))
  {
  }

  /** The i-th staged rollback. */
  method Act(fs: Store, kept: Kept, i: nat, ghost journal: Document, ghost journaled: Document, ghost base: Files)
    returns (o: Outcome)
    requires Held(fs.disk, journal, journaled, base) && kept.Valid() && Loose(kept, fs.disk, base) && i < |ORDER|
    modifies fs, kept.registration, kept.manifest, kept.provider
    ensures Held(fs.disk, journal, journaled, base) && kept.Valid() && Loose(kept, fs.disk, base) && fs.faults >= old(fs.faults)
    ensures Complete(old(fs.disk).names.Keys, journaled) ==> Complete(fs.disk.names.Keys, journaled)
    ensures Touched(old(fs.disk).Files(), fs.disk.Files(), base, ORDER[i])
    ensures old(Armed(kept, fs.disk, base, i)) ==>
      && Armed(kept, fs.disk, base, i + 1)
      && (SameAt(old(fs.disk).Files(), fs.disk.Files(), Published(ORDER[i])) || SameAt(fs.disk.Files(), base, Published(ORDER[i])))
    ensures o.Ok? && old(Armed(kept, fs.disk, base, i) && (Idle(kept, i) ==> SameAt(fs.disk.Files(), base, Published(ORDER[i])))) ==>
      SameAt(fs.disk.Files(), base, Published(ORDER[i]))
    ensures i == 0 ==> Idle(kept, 1) == old(Idle(kept, 1))
    ensures fs.faults == old(fs.faults) ==> !o.Crashed? && (old(Armed(kept, fs.disk, base, i)) ==> o.Ok?)
  {
    o := Ok;
    match i {
      case 0 =>
        o := WithdrawManifest(fs, kept, journal, journaled, base);
      case 1 =>
        o := WithdrawRegistration(fs, kept, journal, journaled, base);
      case _ =>
        o := ActRemembered(fs, kept, i, journal, journaled, base);
    }
  }

  /** The last three: remembered bytes, and the Provider's database. */
  method ActRemembered(fs: Store, kept: Kept, i: nat, ghost journal: Document, ghost journaled: Document, ghost base: Files)
    returns (o: Outcome)
    requires Held(fs.disk, journal, journaled, base) && kept.Valid() && Loose(kept, fs.disk, base) && 2 <= i < |ORDER|
    modifies fs, kept.provider
    ensures Held(fs.disk, journal, journaled, base) && kept.Valid() && Loose(kept, fs.disk, base) && fs.faults >= old(fs.faults)
    ensures Complete(old(fs.disk).names.Keys, journaled) ==> Complete(fs.disk.names.Keys, journaled)
    ensures Touched(old(fs.disk).Files(), fs.disk.Files(), base, ORDER[i])
    ensures if o.Ok? && !Idle(kept, i) then SameAt(fs.disk.Files(), base, Published(ORDER[i]))
            else SameAt(old(fs.disk).Files(), fs.disk.Files(), Published(ORDER[i]))
    ensures i < 4 && old(ProviderArmed(kept)) ==> ProviderArmed(kept)
    ensures fs.faults == old(fs.faults) ==> !o.Crashed? && (old(ProviderArmed(kept)) ==> o.Ok?)
  {
    o := Ok;
    match i {
      case 2 =>
        if kept.providerCalled {
          o := WithdrawBytes(fs, kept, State, kept.stateBefore, journal, journaled, base);
        }
      case 3 =>
        if kept.manifestBefore.Some? {
          o := WithdrawBytes(fs, kept, Manifest, kept.manifestBefore, journal, journaled, base);
        }
      case _ =>
        if kept.provider != null && kept.providerCalled {
          o := WithdrawProvider(fs, kept, journal, journaled, base);
        }
    }
  }

  /** What one more staged rollback that succeeded covers. */
  lemma CoveredStep(idle: seq<bool>, a: Files, b: Files, base: Files, i: nat)
    requires |idle| == |ORDER| && i < |ORDER| && Touched(a, b, base, ORDER[i]) && Covered(idle, a, base, i)
    requires SameAt(b, base, Published(ORDER[i]))
    ensures Covered(idle, b, base, i + 1)
  {
    var i' := i + 1;
    forall j | i' <= j < |ORDER|
      ensures CoveredAt(idle, b, base, i', j)
    {
      assert CoveredAt(idle, a, base, i, j);
      assert ORDER[j] != ORDER[i] ==> SameAt(a, b, Published(ORDER[j]));
    }
  }

  /** What the i-th rollback makes of a mixture.  `whole` tells that no earlier one has failed. */
  lemma MixtureStep(a: Files, b: Files, base: Files, start: Files, idle: seq<bool>, i: nat, whole: bool, ok: bool,
                    restored: set<Label>, removed: set<Label>)
    returns (restored': set<Label>, removed': set<Label>, k: nat)
    requires |idle| == |ORDER| && i < |ORDER| && Mixed(a, base, start, restored, removed) && Touched(a, b, base, ORDER[i])
    requires whole ==> Covered(idle, a, base, i) && restored == Elements(ORDER[..i])
    requires whole ==> SameAt(a, b, Published(ORDER[i])) || SameAt(b, base, Published(ORDER[i]))
    requires whole && ok ==> SameAt(b, base, Published(ORDER[i]))
    ensures Mixed(b, base, start, restored', removed') && k <= |ORDER|
    ensures SameAt(a, b, Published(ORDER[i])) || SameAt(b, base, Published(ORDER[i])) ==> removed' <= removed
    ensures whole ==> restored' == Elements(ORDER[..k])
    ensures whole && ok ==> Covered(idle, b, base, i + 1) && k == i + 1
  {
    restored', removed' := MixedStep(a, b, base, start, restored, removed, ORDER[i]);
    assert ORDER[..i + 1] == ORDER[..i] + [ORDER[i]];
    k := if SameAt(b, base, Published(ORDER[i])) then i + 1 else i;
    if whole && ok {
      CoveredStep(idle, a, b, base, i);
    }
  }

  /** How far the staged rollbacks have come: what they have made of the files of
      `start`, with all private backups in hand at first (`armed`) and no failure
      so far (`whole`). */
  datatype Progress = Progress(start: Files, idle: seq<bool>, armed: bool, whole: bool, restored: set<Label>, removed: set<Label>, k: nat) {
    ghost predicate Holds(kept: Kept, d: Storage, base: Files, i: nat)
      requires d.Valid() && i <= |ORDER|
      reads kept.registration, kept.manifest, kept.provider
    {
      && |idle| == |ORDER| && Mixed(d.Files(), base, start, restored, removed)
      && (armed ==> Armed(kept, d, base, i) && removed == {})
      && (i <= 0 ==> idle[0] == Idle(kept, 0)) && (i <= 1 ==> idle[1] == Idle(kept, 1))
      && idle[2] == Idle(kept, 2) && idle[3] == Idle(kept, 3) && idle[4] == Idle(kept, 4)
      && (whole ==> armed && Covered(idle, d.Files(), base, i) && k == i && restored == Elements(ORDER[..k]))
    }
  }

  /** One of the staged rollbacks and what it makes of the mixture. */
  method Withdraw(fs: Store, kept: Kept, i: nat, ghost journal: Document, ghost journaled: Document, ghost base: Files,
                  ghost p: Progress)
    returns (o: Outcome, ghost p': Progress)
    requires Held(fs.disk, journal, journaled, base) && kept.Valid() && Loose(kept, fs.disk, base) && i < |ORDER|
    requires p.Holds(kept, fs.disk, base, i)
    modifies fs, kept.registration, kept.manifest, kept.provider
    ensures Held(fs.disk, journal, journaled, base) && kept.Valid() && Loose(kept, fs.disk, base) && fs.faults >= old(fs.faults)
    ensures Complete(old(fs.disk).names.Keys, journaled) ==> Complete(fs.disk.names.Keys, journaled)
    ensures p'.start == p.start && p'.armed == p.armed && p'.whole == (p.whole && o.Ok?)
    ensures p'.Holds(kept, fs.disk, base, i + 1)
    ensures p.whole ==> p'.k <= |ORDER| && p'.restored == Elements(ORDER[..p'.k]) && (o.Ok? ==> p'.k == i + 1)
    ensures fs.faults == old(fs.faults) ==> !o.Crashed? && (p.armed ==> o.Ok?)
  {
    ghost var was := fs.disk.Files();
    assert p.whole ==> CoveredAt(p.idle, was, base, i, i);
    o := Act(fs, kept, i, journal, journaled, base);
    ghost var restored, removed, k := MixtureStep(was, fs.disk.Files(), base, p.start, p.idle, i, p.whole, o.Ok?, p.restored, p.removed);
    p' := p.(whole := p.whole && o.Ok?, restored := restored, removed := removed, k := k);
  }

  /** The staged rollbacks, each of which may fail without stopping the others.
      The files are a mixture at every moment.  With all private backups in hand,
      nothing is ever missing, and up to the first failure the artifacts that are
      back are those of the first k rollbacks. */
  method StagedRollbacks(fs: Store, kept: Kept, ghost journal: Document, ghost journaled: Document, ghost base: Files)
    returns (o: Outcome, errors: bool, ghost restored: set<Label>, ghost removed: set<Label>, ghost k: nat)
    requires Held(fs.disk, journal, journaled, base) && kept.Valid() && Loose(kept, fs.disk, base)
    modifies fs, kept.registration, kept.manifest, kept.provider
    ensures Held(fs.disk, journal, journaled, base) && kept.Valid() && fs.faults >= old(fs.faults) && !o.Raised?
    ensures Complete(old(fs.disk).names.Keys, journaled) ==> Complete(fs.disk.names.Keys, journaled)
    ensures Mixed(fs.disk.Files(), base, old(fs.disk).Files(), restored, removed)
    ensures old(Armed(kept, fs.disk, base, 0)) ==> removed == {}
    ensures old(Armed(kept, fs.disk, base, 0) && Covered(AllIdle(kept), fs.disk.Files(), base, 0)) && !errors ==>
      k <= |ORDER| && restored == Elements(ORDER[..k]) && (o.Ok? ==> k == |ORDER|)
    ensures fs.faults == old(fs.faults) ==> o.Ok? && (old(Armed(kept, fs.disk, base, 0)) ==> !errors)
  {
    ghost var armed := Armed(kept, fs.disk, base, 0);
    ghost var whole := armed && Covered(AllIdle(kept), fs.disk.Files(), base, 0);
    ghost var p := Progress(fs.disk.Files(), AllIdle(kept), armed, whole, {}, {}, 0);
    o, errors, p := WithdrawAll(fs, kept, journal, journaled, base, p);
    restored, removed, k := p.restored, p.removed, p.k;
  }

  /** The loop over the staged rollbacks. */
  method WithdrawAll(fs: Store, kept: Kept, ghost journal: Document, ghost journaled: Document, ghost base: Files, ghost p: Progress)
    returns (o: Outcome, errors: bool, ghost p': Progress)
    requires Held(fs.disk, journal, journaled, base) && kept.Valid() && Loose(kept, fs.disk, base)
    requires p.Holds(kept, fs.disk, base, 0) && p.k == 0
    modifies fs, kept.registration, kept.manifest, kept.provider
    ensures Held(fs.disk, journal, journaled, base) && kept.Valid() && fs.faults >= old(fs.faults) && !o.Raised?
    ensures Complete(old(fs.disk).names.Keys, journaled) ==> Complete(fs.disk.names.Keys, journaled)
    ensures Mixed(fs.disk.Files(), base, p.start, p'.restored, p'.removed) && (p.armed ==> p'.removed == {})
    ensures p.whole && !errors ==> p'.k <= |ORDER| && p'.restored == Elements(ORDER[..p'.k]) && (o.Ok? ==> p'.k == |ORDER|)
    ensures fs.faults == old(fs.faults) ==> o.Ok? && (p.armed ==> !errors)
  {
    errors, p' := false, p;
    for i := 0 to |ORDER|
      invariant Held(fs.disk, journal, journaled, base) && kept.Valid() && Loose(kept, fs.disk, base) && fs.faults >= old(fs.faults)
      invariant Complete(old(fs.disk).names.Keys, journaled) ==> Complete(fs.disk.names.Keys, journaled)
      invariant p'.Holds(kept, fs.disk, base, i) && p'.start == p.start && p'.armed == p.armed
      invariant (!errors ==> p'.whole == p.whole) && (fs.faults == old(fs.faults) && p.armed ==> !errors)
    {
      o, p' := Withdraw(fs, kept, i, journal, journaled, base, p');
      if o.Crashed? {
        return;
      }
      errors := errors || o.Raised?;
    }
    o := Ok;
  }

  lemma AllWithdrawn(rest: nat)
    requires rest <= |Standard.Labels()|
    ensures ORDER[..|ORDER|] == ORDER
    ensures Elements(ORDER) + Elements(Standard.Labels()[rest..]) == Elements(ORDER)
  {
    assert forall l | l in Standard.Labels()[rest..] :: l in Standard.Labels() && l in ORDER;
  }

  /** The staged rollbacks and then the journal's own.  Whatever had been published
      and whatever the staged rollbacks did, a journal's rollback that completes
      brings every artifact back.  Cut short, the files are a mixture; with all
      private backups in hand and no failure before, of the first k artifacts of
      `base` and the others of the start. */
  method Handle(fs: Store, recovery: RecoveryJournal, kept: Kept, ghost journaled: Document, ghost base: Files)
    returns (o: Outcome, errors: bool, ghost restored: set<Label>, ghost removed: set<Label>, ghost k: nat)
    requires Held(fs.disk, recovery.document, journaled, base) && kept.Valid() && Loose(kept, fs.disk, base)
    requires Shown(base) && recovery.protocol == Standard
    modifies fs, recovery, kept.registration, kept.manifest, kept.provider
    ensures fs.disk.Valid() && kept.Valid() && fs.faults >= old(fs.faults) && !o.Raised?
    ensures if Journal in fs.disk.names then Journaled(fs.disk, journaled) && BackedUp(fs.disk, journaled, base)
            else World(fs.disk) == base
    ensures Journal in fs.disk.names && Complete(old(fs.disk).names.Keys, journaled) ==> Intact(fs.disk, journaled, base)
    ensures o.Ok? && !errors ==> Journal !in fs.disk.names
    ensures Mixed(fs.disk.Files(), base, old(fs.disk).Files(), restored, removed)
    ensures old(Armed(kept, fs.disk, base, 0)) ==> removed == {}
    ensures old(Armed(kept, fs.disk, base, 0) && Covered(AllIdle(kept), fs.disk.Files(), base, 0)) && !errors ==>
      k <= |ORDER| && restored == Elements(ORDER[..k])
    ensures fs.faults == old(fs.faults) && Complete(old(fs.disk).names.Keys, journaled)
            && old(recovery.document).artifacts == journaled.artifacts
      ==> o.Ok? && Journal !in fs.disk.names && (old(Armed(kept, fs.disk, base, 0)) ==> !errors)
  {
    ghost var start := fs.disk.Files();
    o, errors, restored, removed, k := StagedRollbacks(fs, kept, recovery.document, journaled, base);
    if Complete(fs.disk.names.Keys, journaled) {
      CompleteIntact(fs.disk, journaled, base);
    }
    if o.Crashed? {
      return;
    }
    ghost var was := fs.disk.Files();
    ghost var rest;
    o, rest := recovery.Rollback(fs, journaled, base);
    ghost var done := Elements(Standard.Labels()[rest..]);
    MixedRestored(was, fs.disk.Files(), base, start, restored, removed, done);
    AllWithdrawn(rest);
    restored, removed := restored + done, removed - done;
    if o.Raised? {
      o, errors := Ok, true;
    }
  }
}
