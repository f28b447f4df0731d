/** The Python/TypeScript publication transaction (refresh_coordinator.py, refresh_recovery.py). */
module Refresh {
  import opened Basics
  import opened FileSystems
  import opened Publication
  import opened Staging
  import opened Transaction
  import opened Withdrawal

  /** The bytes a refresh publishes; only Python projects have a sidecar. */
  datatype Generation = Generation(provider: Content, sidecar: Option<Content>, manifest: Content, state: Content)

  function Next(base: Files, g: Generation): Files {
    WithSidecar(base[Published(Provider) := g.provider], g)[Published(Manifest) := g.manifest][Published(State) := g.state]
  }

  function WithSidecar(files: Files, g: Generation): Files {
    match g.sidecar
    case None => files
    case Some(content) => files[Published(Sidecar) := content]
  }

  /** The Provider writes its database beside the old one and renames it; the
      call can fail before or after that. */
  method CallProvider(fs: Store, database: Content, ghost journal: Document, ghost journaled: Document, ghost base: Files)
    returns (o: Outcome)
    requires Open(Standard, fs.disk, journal, journaled, base) && World(fs.disk) == base
    modifies fs
    ensures Open(Standard, fs.disk, journal, journaled, base) && fs.faults >= old(fs.faults)
    ensures ScratchKept(old(fs.disk).Files(), fs.disk.Files(), {})
    ensures o.Ok? ==> World(fs.disk) == base[Published(Provider) := database]
    ensures fs.faults == old(fs.faults) ==> o.Ok?
  {
    ghost var was := fs.disk;
    var written;
    o, written := Stage(fs, ProviderStage, database);
    OpenFrame(Standard, was, fs.disk, journal, journaled, base, {});
    UntouchedWorld(was, fs.disk, {});
    if !o.Ok? {
      return;
    }
    o := ReplaceStep(Standard, fs, journal, journaled, written, Provider, base);
    if o.Ok? {
      o := fs.Fate();
    }
  }

  /** From the journaled `prepared` phase to the journaled candidate. */
  method IndexProvider(fs: Store, g: Generation, recovery: RecoveryJournal, ghost journaled: Document, ghost base: Files)
    returns (o: Outcome, ghost journaled': Document)
    requires Open(Standard, fs.disk, recovery.document, journaled, base) && World(fs.disk) == base
    requires !Accepting(journaled.phase) && recovery.document.phase == Prepared && recovery.protocol == Standard
    modifies fs, recovery
    ensures Open(Standard, fs.disk, recovery.document, journaled', base) && !Accepting(journaled'.phase)
    ensures journaled'.shard == journaled.shard
    ensures o.Ok? ==> recovery.document.phase == CandidateReady
    ensures fs.faults == old(fs.faults) ==> o.Ok?
    ensures fs.faults >= old(fs.faults) && ScratchKept(old(fs.disk).Files(), fs.disk.Files(), {})
    ensures o.Ok? ==> World(fs.disk) == base[Published(Provider) := g.provider]
  {
    journaled' := journaled;
    o := CallProvider(fs, g.provider, recovery.document, journaled, base);
    if !o.Ok? {
      return;
    }
    o, journaled' := RecordProvider(fs, recovery, journaled, base);
  }

  /** The three phases between the Provider's call and the candidate, with the
      checks between them. */
  method RecordProvider(fs: Store, recovery: RecoveryJournal, ghost journaled: Document, ghost base: Files)
    returns (o: Outcome, ghost journaled': Document)
    requires Open(Standard, fs.disk, recovery.document, journaled, base) && !Accepting(journaled.phase)
    requires recovery.document.phase == Prepared && recovery.protocol == Standard
    modifies fs, recovery
    ensures Open(Standard, fs.disk, recovery.document, journaled', base) && !Accepting(journaled'.phase)
    ensures World(fs.disk) == World(old(fs.disk)) && fs.faults >= old(fs.faults)
    ensures ScratchKept(old(fs.disk).Files(), fs.disk.Files(), {}) && journaled'.shard == journaled.shard
    ensures o.Ok? ==> recovery.document.phase == CandidateReady
    ensures fs.faults == old(fs.faults) ==> o.Ok?
  {
    assert Follows(Standard, ProviderIndexed, Prepared);
    o, journaled' := AdvanceObserved(fs, recovery, ProviderIndexed, journaled, base);
    if o.Ok? {
      o, journaled' := RecordCandidate(fs, recovery, journaled', base);
    }
  }

  method RecordCandidate(fs: Store, recovery: RecoveryJournal, ghost journaled: Document, ghost base: Files)
    returns (o: Outcome, ghost journaled': Document)
    requires Open(Standard, fs.disk, recovery.document, journaled, base) && !Accepting(journaled.phase)
    requires recovery.document.phase == ProviderIndexed && recovery.protocol == Standard
    modifies fs, recovery
    ensures Open(Standard, fs.disk, recovery.document, journaled', base) && !Accepting(journaled'.phase)
    ensures World(fs.disk) == World(old(fs.disk)) && fs.faults >= old(fs.faults)
    ensures ScratchKept(old(fs.disk).Files(), fs.disk.Files(), {}) && journaled'.shard == journaled.shard
    ensures o.Ok? ==> recovery.document.phase == CandidateReady
    ensures fs.faults == old(fs.faults) ==> o.Ok?
  {
    assert Follows(Standard, ProviderValidated, ProviderIndexed) && Follows(Standard, CandidateReady, ProviderValidated);
    o, journaled' := AdvanceObserved(fs, recovery, ProviderValidated, journaled, base);
    if o.Ok? {
      o, journaled' := AdvanceObserved(fs, recovery, CandidateReady, journaled', base);
    }
  }

  /** _advance_recovery before acceptance: recovery.advance and the observer and
      checks behind it. */
  method AdvanceObserved(fs: Store, recovery: RecoveryJournal, phase: Phase, ghost journaled: Document, ghost base: Files)
    returns (o: Outcome, ghost journaled': Document)
    requires Open(Standard, fs.disk, recovery.document, journaled, base) && recovery.protocol == Standard
    requires !Accepting(journaled.phase) && !Accepting(phase)
    modifies fs, recovery
    ensures Open(Standard, fs.disk, recovery.document, journaled', base) && !Accepting(journaled'.phase)
    ensures World(fs.disk) == World(old(fs.disk)) && ScratchKept(old(fs.disk).Files(), fs.disk.Files(), {})
    ensures SameInode(old(fs.disk), fs.disk, Published(Sidecar)) && journaled'.shard == journaled.shard
    ensures fs.faults >= old(fs.faults) && (o.Ok? ==> recovery.document.phase == phase)
    ensures fs.faults == old(fs.faults) && Follows(Standard, phase, old(recovery.document).phase) ==> o.Ok?
  {
    o, journaled' := AdvanceOpen(Standard, fs, recovery, phase, journaled, base);
    if o.Ok? {
      o := fs.Fate();
    }
  }

  /** Publishes the registration index of a Python project. */
  method PublishSidecar(fs: Store, g: Generation, recovery: RecoveryJournal, registration: StagedRegistration?,
                        ghost journaled: Document, ghost base: Files)
    returns (o: Outcome, ghost journaled': Document)
    requires Open(Standard, fs.disk, recovery.document, journaled, base) && !Accepting(journaled.phase)
    requires registration != null <==> g.sidecar.Some?
    requires registration != null ==>
      && registration.Valid() && !registration.published && registration.backup == None
      && Waiting(fs.disk, registration.temporary, g.sidecar.value)
    requires recovery.document.phase == CandidateReady && recovery.protocol == Standard
    requires SameAt(World(fs.disk), base, Published(Sidecar))
    modifies fs, recovery, registration
    ensures Open(Standard, fs.disk, recovery.document, journaled', base) && !Accepting(journaled'.phase)
    ensures fs.faults >= old(fs.faults) && (registration != null ==> registration.Valid())
    ensures ScratchKept(old(fs.disk).Files(), fs.disk.Files(), if registration != null then {registration.temporary} else {})
    ensures o.Ok? ==> World(fs.disk) == WithSidecar(World(old(fs.disk)), g)
    ensures o.Ok? ==> recovery.document.phase in {CandidateReady, SidecarPublished}
    ensures o.Ok? && registration != null ==> recovery.document.phase == SidecarPublished
    ensures journaled'.shard == journaled.shard
    ensures registration != null && o.Ok? ==> registration.published && registration.Identified(fs.disk)
    ensures registration != null && (o.Ok? || registration.backup.Some?) ==>
      Copy(fs.disk, registration.backup, base, Sidecar)
    ensures fs.faults == old(fs.faults) ==> o.Ok?
  {
    journaled' := journaled;
    if registration == null {
      return Ok, journaled';
    }
    o := PublishRegistration(fs, recovery.document, registration, g.sidecar.value, journaled, base);
    if !o.Ok? {
      return;
    }
    ghost var was := fs.disk;
    o, journaled' := RecordSidecar(fs, recovery, journaled, base);
    CopyFrame(was, fs.disk, registration.backup, base, Sidecar, {});
  }

  method PublishRegistration(fs: Store, ghost journal: Document, registration: StagedRegistration, content: Content,
                             ghost journaled: Document, ghost base: Files)
    returns (o: Outcome)
    requires Open(Standard, fs.disk, journal, journaled, base)
    requires registration.Valid() && !registration.published && registration.backup == None
    requires Waiting(fs.disk, registration.temporary, content) && SameAt(World(fs.disk), base, Published(Sidecar))
    modifies fs, registration
    ensures Open(Standard, fs.disk, journal, journaled, base) && registration.Valid() && fs.faults >= old(fs.faults)
    ensures ScratchKept(old(fs.disk).Files(), fs.disk.Files(), {registration.temporary})
    ensures o.Ok? ==>
      && World(fs.disk) == World(old(fs.disk))[Published(Sidecar) := content]
      && registration.published && registration.Identified(fs.disk)
    ensures o.Ok? || registration.backup.Some? ==> Copy(fs.disk, registration.backup, base, Sidecar)
    ensures fs.faults == old(fs.faults) ==> o.Ok?
  {
    ghost var was := fs.disk;
    ghost var except := {Published(Sidecar), registration.temporary};
    o := registration.Publish(fs);
    OpenFrame(Standard, was, fs.disk, journal, journaled, base, except);
    if o.Ok? {
      PublishedWorld(was, fs.disk, Published(Sidecar), content, except);
    }
    if o.Ok? || registration.backup.Some? {
      CopyBase(fs.disk, registration.backup, was, base, Sidecar);
    }
  }

  method RecordSidecar(fs: Store, recovery: RecoveryJournal, ghost journaled: Document, ghost base: Files)
    returns (o: Outcome, ghost journaled': Document)
    requires Open(Standard, fs.disk, recovery.document, journaled, base) && !Accepting(journaled.phase)
    requires recovery.document.phase == CandidateReady && recovery.protocol == Standard
    modifies fs, recovery
    ensures Open(Standard, fs.disk, recovery.document, journaled', base) && !Accepting(journaled'.phase)
    ensures World(fs.disk) == World(old(fs.disk)) && fs.faults >= old(fs.faults)
    ensures ScratchKept(old(fs.disk).Files(), fs.disk.Files(), {})
    ensures SameInode(old(fs.disk), fs.disk, Published(Sidecar)) && journaled'.shard == journaled.shard
    ensures o.Ok? ==> recovery.document.phase == SidecarPublished
    ensures fs.faults == old(fs.faults) ==> o.Ok?
  {
    journaled' := journaled;
    o := fs.Fate();
    if !o.Ok? {
      return;
    }
    o, journaled' := AdvanceObserved(fs, recovery, SidecarPublished, journaled, base);
  }

  /** Publishes manifest and state, and journals the accepting phases. */
  method PublishGeneration(fs: Store, g: Generation, recovery: RecoveryJournal, manifest: StagedManifest,
                           ghost journaled: Document, ghost base: Files)
    returns (o: Outcome, ghost journaled': Document)
    requires Open(Standard, fs.disk, recovery.document, journaled, base) && !Accepting(journaled.phase)
    requires manifest.Valid() && !manifest.published && manifest.backup == None
    requires Waiting(fs.disk, manifest.temporary, g.manifest)
    requires recovery.document.phase in {CandidateReady, SidecarPublished} && recovery.protocol == Standard
    modifies fs, recovery, manifest
    ensures Open(Standard, fs.disk, recovery.document, journaled', base) && manifest.Valid() && fs.faults >= old(fs.faults)
    ensures ScratchKept(old(fs.disk).Files(), fs.disk.Files(), {manifest.temporary})
    ensures SameInode(old(fs.disk), fs.disk, Published(Sidecar)) && journaled'.shard == journaled.shard
    ensures manifest.published || manifest.backup.Some? ==> Copy(fs.disk, manifest.backup, old(fs.disk).Files(), Manifest)
    ensures o.Ok? ==> manifest.published && recovery.document.phase == StatePublished
    ensures fs.faults == old(fs.faults) ==> o.Ok?
    ensures Accepting(journaled'.phase) || o.Ok? ==>
      World(fs.disk) == World(old(fs.disk))[Published(Manifest) := g.manifest][Published(State) := g.state]
    ensures o.Ok? ==> journaled'.phase == StatePublished
    ensures !o.Ok? ==> !Accepting(journaled'.phase)
  {
    journaled' := journaled;
    ghost var files := fs.disk.Files();
    o := PublishManifestStep(Standard, fs, recovery.document, journaled, manifest, base);
    if !o.Ok? {
      return;
    }
    ghost var was := fs.disk;
    o, journaled' := RecordManifest(fs, g, recovery, journaled, base);
    CopyFrame(was, fs.disk, manifest.backup, files, Manifest, {});
  }

  /** Journals the published manifest, records the state, and journals the accepting phase. */
  method RecordManifest(fs: Store, g: Generation, recovery: RecoveryJournal, ghost journaled: Document, ghost base: Files)
    returns (o: Outcome, ghost journaled': Document)
    requires Open(Standard, fs.disk, recovery.document, journaled, base) && !Accepting(journaled.phase)
    requires recovery.document.phase in {CandidateReady, SidecarPublished} && recovery.protocol == Standard
    modifies fs, recovery
    ensures Open(Standard, fs.disk, recovery.document, journaled', base) && fs.faults >= old(fs.faults)
    ensures ScratchKept(old(fs.disk).Files(), fs.disk.Files(), {})
    ensures SameInode(old(fs.disk), fs.disk, Published(Sidecar)) && journaled'.shard == journaled.shard
    ensures Accepting(journaled'.phase) || o.Ok? ==> World(fs.disk) == World(old(fs.disk))[Published(State) := g.state]
    ensures o.Ok? ==> journaled'.phase == StatePublished && recovery.document.phase == StatePublished
    ensures !o.Ok? ==> !Accepting(journaled'.phase)
    ensures fs.faults == old(fs.faults) ==> o.Ok?
  {
    o, journaled' := AdvanceObserved(fs, recovery, ManifestPublished, journaled, base);
    if !o.Ok? {
      return;
    }
    o, journaled' := RecordState(fs, g, recovery, journaled', base);
  }

  method RecordState(fs: Store, g: Generation, recovery: RecoveryJournal, ghost journaled: Document, ghost base: Files)
    returns (o: Outcome, ghost journaled': Document)
    requires Open(Standard, fs.disk, recovery.document, journaled, base) && !Accepting(journaled.phase)
    requires recovery.document.phase == ManifestPublished && recovery.protocol == Standard
    modifies fs, recovery
    ensures Open(Standard, fs.disk, recovery.document, journaled', base) && fs.faults >= old(fs.faults)
    ensures ScratchKept(old(fs.disk).Files(), fs.disk.Files(), {})
    ensures SameInode(old(fs.disk), fs.disk, Published(Sidecar)) && journaled'.shard == journaled.shard
    ensures o.Ok? ==> World(fs.disk) == World(old(fs.disk))[Published(State) := g.state]
    ensures o.Ok? ==> journaled'.phase == StatePublished && recovery.document.phase == StatePublished
    ensures !o.Ok? ==> !Accepting(journaled'.phase)
    ensures fs.faults == old(fs.faults) ==> o.Ok?
  {
    journaled' := journaled;
    o := RecordIndexState(Standard, fs, recovery.document, journaled, g.state, base);
    ghost var recorded := fs.disk;
    if o.Ok? {
      assert Follows(Standard, StatePublished, recovery.document.phase);
      o, journaled' := AdvanceOpen(Standard, fs, recovery, StatePublished, journaled, base);
    }
    KeptTwice(old(fs.disk), recorded, fs.disk, {}, {});
  }

  /** Activates the generation and journals `committing`. */
  method Activate(fs: Store, recovery: RecoveryJournal, ghost journaled: Document, ghost base: Files)
    returns (o: Outcome, ghost journaled': Document)
    requires Open(Standard, fs.disk, recovery.document, journaled, base) && Accepting(journaled.phase)
    requires recovery.document.phase == StatePublished && recovery.protocol == Standard
    modifies fs, recovery
    ensures Open(Standard, fs.disk, recovery.document, journaled', base) && Accepting(journaled'.phase)
    ensures ScratchKept(old(fs.disk).Files(), fs.disk.Files(), {})
    ensures SameInode(old(fs.disk), fs.disk, Published(Sidecar)) && journaled'.shard == journaled.shard
    ensures fs.faults == old(fs.faults) ==> o.Ok?
    ensures o.Ok? ==> recovery.document.phase == Committing
    ensures fs.faults >= old(fs.faults) && World(fs.disk) == World(old(fs.disk))
  {
    journaled' := journaled;
    :- fs.Fate();
    o, journaled' := AdvanceOpen(Standard, fs, recovery, GenerationActivated, journaled, base);
    if !o.Ok? {
      return;
    }
    :- fs.Fate();
    o, journaled' := AdvanceOpen(Standard, fs, recovery, Committing, journaled', base);
    if !o.Ok? {
      return;
    }
    o := fs.Fate();
  }

  // ---------- The coordinator ----------

  datatype Status = Current | Refreshed | Failed(previousGenerationPreserved: bool)

  /** What a run has in hand before its journal exists: nothing is published. */
  ghost predicate Unjournaled(kept: Kept, base: Files)
    reads kept.registration
  {
    && kept.manifest == null && kept.provider == null && !kept.providerCalled
    && (kept.registration != null ==> !kept.registration.published)
    && (kept.manifestBefore.Some? ==> kept.manifestBefore == At(base, Manifest))
  }

  /** Where an attempt stands when it stops, whatever stopped it.  From the
      accepting phases on all private backups are in hand. */
  ghost predicate Stopped(d: Storage, recovery: Option<Document>, kept: Kept, journaled: Document, base: Files, next: Files)
    reads kept.registration, kept.manifest, kept.provider
  {
    && d.Valid() && kept.Valid()
    && match recovery
       case None => Journal !in d.names && World(d) == base && Unjournaled(kept, base)
       case Some(document) =>
         && Open(Standard, d, document, journaled, base)
         && Loose(kept, d, base) && ManifestArmed(kept, base) && ProviderArmed(kept)
         && (Accepting(journaled.phase) ==> World(d) == next && Armed(kept, d, base, 0) && Covered(AllIdle(kept), d.Files(), base, 0))
  }

  ghost function Remembered(recovery: RecoveryJournal?): Option<Document>
    reads recovery
  {
    if recovery == null then None else Some(recovery.document)
  }

  /** Staging of the registration index, which comes before the journal. */
  method StageRegistration(fs: Store, g: Generation) returns (o: Outcome, registration: StagedRegistration?)
    requires fs.disk.Valid()
    modifies fs
    ensures fs.disk.Valid() && fs.faults >= old(fs.faults)
    ensures Untouched(old(fs.disk).Files(), fs.disk.Files(), {})
    ensures o.Ok? ==> (registration != null <==> g.sidecar.Some?)
    ensures registration != null ==>
      && fresh(registration) && registration.Valid() && !registration.published && registration.backup == None
      && (o.Ok? ==> Waiting(fs.disk, registration.temporary, g.sidecar.value))
    ensures fs.faults == old(fs.faults) ==> o.Ok?
  {
    registration := null;
    :- fs.Fate();
    if g.sidecar.Some? {
      var temporary;
      o, temporary := Stage(fs, RegistrationStage, g.sidecar.value);
      if o.Ok? {
        registration := new StagedRegistration(temporary);
      }
    } else {
      o := Ok;
    }
  }

  function Snapshot(d: Storage, n: Name): (payload: Option<Content>)
    requires d.Valid()
    ensures payload == if n in d.names then Some(d.Files()[n]) else None
  {
    if n in d.names then Some(d.data[d.names[n]]) else None
  }

  /** The body of the try statement up to the journaled `committing` phase. */
  method Attempt(fs: Store, g: Generation, ghost base: Files)
    returns (o: Outcome, recovery: RecoveryJournal?, kept: Kept, ghost journaled: Document)
    requires fs.disk.Valid() && Journal !in fs.disk.names && World(fs.disk) == base && Shown(base)
    modifies fs
    ensures fs.faults >= old(fs.faults)
    ensures kept.registration != null ==> fresh(kept.registration)
    ensures kept.manifest != null ==> fresh(kept.manifest)
    ensures kept.provider != null ==> fresh(kept.provider)
    ensures recovery != null ==> fresh(recovery) && recovery.protocol == Standard
    ensures Stopped(fs.disk, Remembered(recovery), kept, journaled, base, Next(base, g))
    ensures o.Ok? ==> recovery != null && Accepting(journaled.phase)
    ensures fs.faults == old(fs.faults) ==> o.Ok?
  {
    recovery := null;
    journaled := Document(Prepared, map[], NoShard);
    kept := Kept(null, null, null, false, None, None);
    ghost var was := fs.disk;
    var registration;
    o, registration := StageRegistration(fs, g);
    kept := kept.(registration := registration);
    UntouchedWorld(was, fs.disk, {});
    assert SameAt(was.Files(), fs.disk.Files(), Journal);
    if !o.Ok? {
      return;
    }
    kept := kept.(stateBefore := Snapshot(fs.disk, Published(State)), manifestBefore := Snapshot(fs.disk, Published(Manifest)));
    was := fs.disk;
    o, recovery := Begin(Standard, fs, None);
    if !o.Ok? {
      recovery := null;
      return;
    }
    if registration != null {
      WaitingFrame(was, fs.disk, registration.temporary, g.sidecar.value, {});
    }
    journaled := recovery.document;
    o, kept, journaled := Transact(fs, g, recovery, kept, base);
  }

  /** A run that has journaled but not yet backed the Provider's database up. */
  ghost predicate Fresh(staged: Kept, d: Storage, g: Generation, base: Files)
    requires d.Valid()
    reads staged.registration
  {
    && staged.manifest == null && staged.stateBefore == At(base, State) && staged.manifestBefore == At(base, Manifest)
    && (staged.registration != null <==> g.sidecar.Some?)
    && (staged.registration != null ==>
          && staged.registration.Valid() && !staged.registration.published && staged.registration.backup == None
          && Waiting(d, staged.registration.temporary, g.sidecar.value))
  }

  /** The journaled part of the try statement. */
  method Transact(fs: Store, g: Generation, recovery: RecoveryJournal, staged: Kept, ghost base: Files)
    returns (o: Outcome, kept: Kept, ghost journaled: Document)
    requires Open(Standard, fs.disk, recovery.document, recovery.document, base) && World(fs.disk) == base
    requires recovery.document.phase == Prepared && recovery.protocol == Standard
    requires Fresh(staged, fs.disk, g, base) && staged.provider == null && !staged.providerCalled
    modifies fs, recovery, staged.registration
    ensures fs.faults >= old(fs.faults) && kept.registration == staged.registration
    ensures kept.manifest != null ==> fresh(kept.manifest)
    ensures kept.provider != null ==> fresh(kept.provider)
    ensures Stopped(fs.disk, Some(recovery.document), kept, journaled, base, Next(base, g))
    ensures o.Ok? ==> Accepting(journaled.phase)
    ensures fs.faults == old(fs.faults) ==> o.Ok?
  {
    kept := staged;
    journaled := recovery.document;
    :- fs.Fate();
    ghost var was := fs.disk;
    var provider;
    o, provider := ProviderDatabaseBackup.Create(fs);
    kept := kept.(provider := provider);
    OpenFrame(Standard, was, fs.disk, recovery.document, journaled, base, {});
    UntouchedWorld(was, fs.disk, {});
    if !o.Ok? {
      return;
    }
    if staged.registration != null {
      WaitingFrame(was, fs.disk, staged.registration.temporary, g.sidecar.value, {});
    }
    :- fs.Fate();
    kept := kept.(providerCalled := true);
    o, kept, journaled := PublishAll(fs, g, recovery, kept, base);
  }

  /** The Provider's call and everything after it. */
  method PublishAll(fs: Store, g: Generation, recovery: RecoveryJournal, staged: Kept, ghost base: Files)
    returns (o: Outcome, kept: Kept, ghost journaled: Document)
    requires Open(Standard, fs.disk, recovery.document, recovery.document, base) && World(fs.disk) == base
    requires recovery.document.phase == Prepared && recovery.protocol == Standard
    requires Fresh(staged, fs.disk, g, base) && Loose(staged, fs.disk, base) && staged.Valid()
    requires staged.provider != null && ProviderArmed(staged) && staged.providerCalled
    modifies fs, recovery, staged.registration
    ensures fs.faults >= old(fs.faults) && kept.registration == staged.registration && kept.provider == staged.provider
    ensures kept.manifest != null ==> fresh(kept.manifest)
    ensures Stopped(fs.disk, Some(recovery.document), kept, journaled, base, Next(base, g))
    ensures o.Ok? ==> Accepting(journaled.phase)
    ensures fs.faults == old(fs.faults) ==> o.Ok?
  {
    kept := staged;
    journaled := recovery.document;
    ghost var was := fs.disk;
    o, journaled := IndexProvider(fs, g, recovery, journaled, base);
    KeptFrame(was, fs.disk, kept, g, base);
    if !o.Ok? {
      return;
    }
    o, kept, journaled := PublishCandidate(fs, g, recovery, kept, journaled, base);
  }

  /** Stages the manifest and publishes everything but the database. */
  method PublishCandidate(fs: Store, g: Generation, recovery: RecoveryJournal, staged: Kept, ghost before: Document, ghost base: Files)
    returns (o: Outcome, kept: Kept, ghost journaled: Document)
    requires Open(Standard, fs.disk, recovery.document, before, base) && !Accepting(before.phase)
    requires World(fs.disk) == base[Published(Provider) := g.provider]
    requires recovery.document.phase == CandidateReady && recovery.protocol == Standard
    requires Fresh(staged, fs.disk, g, base) && Loose(staged, fs.disk, base) && staged.Valid()
    requires staged.provider != null && ProviderArmed(staged) && staged.providerCalled
    modifies fs, recovery, staged.registration
    ensures fs.faults >= old(fs.faults) && kept.registration == staged.registration && kept.provider == staged.provider
    ensures kept.manifest != null ==> fresh(kept.manifest)
    ensures Stopped(fs.disk, Some(recovery.document), kept, journaled, base, Next(base, g))
    ensures o.Ok? ==> Accepting(journaled.phase)
    ensures fs.faults == old(fs.faults) ==> o.Ok?
  {
    kept := staged;
    journaled := before;
    ghost var was := fs.disk;
    var candidate;
    o, candidate := Stage(fs, ManifestCandidate, g.manifest);
    OpenFrame(Standard, was, fs.disk, recovery.document, journaled, base, {});
    UntouchedWorld(was, fs.disk, {});
    KeptFrame(was, fs.disk, kept, g, base);
    if !o.Ok? {
      return;
    }
    var manifest := new StagedManifest(candidate);
    kept := kept.(manifest := manifest);
    o, journaled := PublishKept(fs, g, recovery, kept, journaled, base);
  }

  method PublishKept(fs: Store, g: Generation, recovery: RecoveryJournal, kept: Kept, ghost before: Document, ghost base: Files)
    returns (o: Outcome, ghost journaled: Document)
    requires Open(Standard, fs.disk, recovery.document, before, base) && !Accepting(before.phase)
    requires World(fs.disk) == base[Published(Provider) := g.provider]
    requires recovery.document.phase == CandidateReady && recovery.protocol == Standard
    requires Fresh(kept.(manifest := null), fs.disk, g, base) && Loose(kept, fs.disk, base) && kept.Valid()
    requires kept.provider != null && ProviderArmed(kept) && kept.providerCalled
    requires kept.manifest != null && !kept.manifest.published && kept.manifest.backup == None
    requires Waiting(fs.disk, kept.manifest.temporary, g.manifest)
    modifies fs, recovery, kept.registration, kept.manifest
    ensures fs.faults >= old(fs.faults)
    ensures Stopped(fs.disk, Some(recovery.document), kept, journaled, base, Next(base, g))
    ensures o.Ok? ==> Accepting(journaled.phase)
    ensures fs.faults == old(fs.faults) ==> o.Ok?
  {
    ghost var was := fs.disk;
    o, journaled := PublishStaged(fs, g, recovery, kept.registration, kept.manifest, before, base);
    OthersKept(was, fs.disk, kept, base, Temporaries(kept.registration, kept.manifest));
    if Accepting(journaled.phase) {
      NextCovered(kept, fs.disk, g, base);
    }
  }

  /** A completed publication leaves the staged rollbacks nothing idle but an absent sidecar. */
  lemma NextCovered(kept: Kept, d: Storage, g: Generation, base: Files)
    requires d.Valid() && World(d) == Next(base, g)
    requires kept.manifest != null && kept.manifest.published && kept.provider != null && kept.providerCalled
    requires (kept.registration != null <==> g.sidecar.Some?) && (kept.registration != null ==> kept.registration.published)
    ensures Covered(AllIdle(kept), d.Files(), base, 0)
  {
    assert Published(Sidecar) in d.names <==> Published(Sidecar) in World(d);
    forall j | 0 <= j < |ORDER|
      ensures CoveredAt(AllIdle(kept), d.Files(), base, 0, j)
    {
    }
  }

  lemma KeptFrame(d: Storage, d': Storage, kept: Kept, g: Generation, base: Files)
    requires d.Valid() && d'.Valid() && ScratchKept(d.Files(), d'.Files(), {})
    requires Fresh(kept, d, g, base) && Loose(kept, d, base)
    ensures Fresh(kept, d', g, base) && Loose(kept, d', base)
  {
    OthersKept(d, d', kept, base, {});
    if kept.registration != null {
      WaitingFrame(d, d', kept.registration.temporary, g.sidecar.value, {});
    }
  }

  ghost function Temporaries(registration: StagedRegistration?, manifest: StagedManifest): set<Name> {
    {manifest.temporary} + if registration != null then {registration.temporary} else {}
  }

  /** Publishes sidecar, manifest and state, and journals the accepting phases. */
  method PublishStaged(fs: Store, g: Generation, recovery: RecoveryJournal, registration: StagedRegistration?,
                       manifest: StagedManifest, ghost before: Document, ghost base: Files)
    returns (o: Outcome, ghost journaled: Document)
    requires Open(Standard, fs.disk, recovery.document, before, base) && !Accepting(before.phase)
    requires World(fs.disk) == base[Published(Provider) := g.provider]
    requires recovery.document.phase == CandidateReady && recovery.protocol == Standard
    requires registration != null <==> g.sidecar.Some?
    requires registration != null ==>
      && registration.Valid() && !registration.published && registration.backup == None
      && Waiting(fs.disk, registration.temporary, g.sidecar.value)
    requires manifest.Valid() && !manifest.published && manifest.backup == None
    requires Waiting(fs.disk, manifest.temporary, g.manifest)
    modifies fs, recovery, registration, manifest
    ensures fs.faults >= old(fs.faults) && manifest.Valid() && (registration != null ==> registration.Valid())
    ensures Open(Standard, fs.disk, recovery.document, journaled, base) && journaled.shard == before.shard
    ensures ScratchKept(old(fs.disk).Files(), fs.disk.Files(), Temporaries(registration, manifest))
    ensures manifest.published || manifest.backup.Some? ==> Copy(fs.disk, manifest.backup, base, Manifest)
    ensures registration != null && registration.backup.Some? ==> Copy(fs.disk, registration.backup, base, Sidecar)
    ensures Accepting(journaled.phase) ==> World(fs.disk) == Next(base, g) && manifest.published
    ensures Accepting(journaled.phase) && registration != null ==>
      registration.published && registration.Identified(fs.disk) && Copy(fs.disk, registration.backup, base, Sidecar)
    ensures o.Ok? ==> Accepting(journaled.phase)
    ensures fs.faults == old(fs.faults) ==> o.Ok?
  {
    ghost var was := fs.disk;
    o, journaled := PublishSidecar(fs, g, recovery, registration, before, base);
    if !o.Ok? {
      return;
    }
    WaitingFrame(was, fs.disk, manifest.temporary, g.manifest, if registration != null then {registration.temporary} else {});
    was := fs.disk;
    o, journaled := PublishManifestAndState(fs, g, recovery, manifest, journaled, base);
    if registration != null {
      CopyFrame(was, fs.disk, registration.backup, base, Sidecar, {manifest.temporary});
    }
  }

  lemma CopyBase(d: Storage, backup: Option<Name>, was: Storage, base: Files, l: Label)
    requires d.Valid() && was.Valid() && Copy(d, backup, was.Files(), l) && SameAt(World(was), base, Published(l))
    ensures Copy(d, backup, base, l)
  {
    assert Published(l) in was.names <==> Published(l) in World(was);
  }

  method PublishManifestAndState(fs: Store, g: Generation, recovery: RecoveryJournal, manifest: StagedManifest,
                                 ghost before: Document, ghost base: Files)
    returns (o: Outcome, ghost journaled: Document)
    requires Open(Standard, fs.disk, recovery.document, before, base) && !Accepting(before.phase)
    requires World(fs.disk) == WithSidecar(base[Published(Provider) := g.provider], g)
    requires recovery.document.phase in {CandidateReady, SidecarPublished} && recovery.protocol == Standard
    requires manifest.Valid() && !manifest.published && manifest.backup == None
    requires Waiting(fs.disk, manifest.temporary, g.manifest)
    modifies fs, recovery, manifest
    ensures fs.faults >= old(fs.faults) && manifest.Valid()
    ensures Open(Standard, fs.disk, recovery.document, journaled, base) && journaled.shard == before.shard
    ensures ScratchKept(old(fs.disk).Files(), fs.disk.Files(), {manifest.temporary})
    ensures SameInode(old(fs.disk), fs.disk, Published(Sidecar))
    ensures manifest.published || manifest.backup.Some? ==> Copy(fs.disk, manifest.backup, base, Manifest)
    ensures Accepting(journaled.phase) ==> World(fs.disk) == Next(base, g) && manifest.published
    ensures o.Ok? ==> Accepting(journaled.phase)
    ensures o.Ok? ==> recovery.document.phase == Committing
    ensures fs.faults == old(fs.faults) ==> o.Ok?
  {
    ghost var was := fs.disk;
    o, journaled := PublishGeneration(fs, g, recovery, manifest, before, base);
    if manifest.published || manifest.backup.Some? {
      CopyBase(fs.disk, manifest.backup, was, base, Manifest);
    }
    if !o.Ok? {
      return;
    }
    was := fs.disk;
    o, journaled := Activate(fs, recovery, journaled, base);
    CopyFrame(was, fs.disk, manifest.backup, base, Manifest, {});
  }

  // ---------- The end of a run ----------

  /** The except clause of a run that has no journal: the staged files go and the
      manifest gets the bytes it already has. */
  method HandleUnjournaled(fs: Store, kept: Kept, ghost base: Files) returns (o: Outcome)
    requires fs.disk.Valid() && Journal !in fs.disk.names && World(fs.disk) == base
    requires kept.Valid() && Unjournaled(kept, base)
    modifies fs, kept.registration
    ensures fs.disk.Valid() && Journal !in fs.disk.names && World(fs.disk) == base && kept.Valid()
    ensures fs.faults >= old(fs.faults)
    ensures fs.faults == old(fs.faults) ==> o.Ok?
    ensures o.Ok? && kept.registration != null ==> kept.registration.temporary !in fs.disk.names
  {
    o := Ok;
    ghost var was := fs.disk;
    if kept.registration != null {
      ghost var except := OwnNames(kept.registration.temporary, kept.registration.backup);
      o := kept.registration.Rollback(fs);
      ClosedFrame(was, fs.disk, except);
      if o.Crashed? {
        return;
      }
    }
    if kept.manifestBefore.Some? {
      var restored := RewriteManifest(fs, kept.manifestBefore.value, base);
      o := if restored.Ok? then o else restored;
    }
  }

  /** The manifest gets the bytes it already has. */
  method RewriteManifest(fs: Store, bytes: Content, ghost base: Files) returns (o: Outcome)
    requires fs.disk.Valid() && Journal !in fs.disk.names && World(fs.disk) == base
    requires Published(Manifest) in base && base[Published(Manifest)] == bytes
    modifies fs
    ensures fs.disk.Valid() && Journal !in fs.disk.names && World(fs.disk) == base
    ensures fs.faults >= old(fs.faults)
    ensures fs.faults == old(fs.faults) ==> o.Ok?
    ensures Added(old(fs.disk).names.Keys, fs.disk.names.Keys, {Published(Manifest)})
  {
    ghost var was := fs.disk;
    o := RestoreFile(fs, Manifest, Some(bytes));
    assert SameAt(was.Files(), fs.disk.Files(), Journal);
    if o.Ok? {
      PublishedWorld(was, fs.disk, Published(Manifest), bytes, {Published(Manifest)});
    } else {
      UntouchedWorld(was, fs.disk, {});
    }
  }

  /** The finally clause; the first failure skips the rest of it. */
  method CloseAll(fs: Store, kept: Kept) returns (o: Outcome)
    requires fs.disk.Valid() && kept.Valid()
    modifies fs, kept.registration, kept.manifest, kept.provider
    ensures fs.disk.Valid() && fs.faults >= old(fs.faults)
    ensures World(fs.disk) == World(old(fs.disk)) && SameAt(old(fs.disk).Files(), fs.disk.Files(), Journal)
    ensures forall files :: old(Settles(fs.disk, files)) ==> Settles(fs.disk, files)
    ensures forall p :: old(Sound(p, fs.disk)) ==> Sound(p, fs.disk)
    ensures fs.faults == old(fs.faults) ==> o.Ok?
    ensures fs.faults == old(fs.faults) ==> Closed(fs.disk.names.Keys, kept)
  {
    o := Ok;
    ghost var was := fs.disk;
    if kept.manifest != null {
      ghost var except := OwnNames(kept.manifest.temporary, kept.manifest.backup);
      o := kept.manifest.Close(fs);
      ClosedFrame(was, fs.disk, except);
    }
    was := fs.disk;
    if o.Ok? && kept.registration != null {
      ghost var except := OwnNames(kept.registration.temporary, kept.registration.backup);
      o := kept.registration.Close(fs);
      ClosedFrame(was, fs.disk, except);
    }
    was := fs.disk;
    if o.Ok? && kept.provider != null {
      ghost var except := OwnBackup(kept.provider.backup);
      var clean;
      o, clean := kept.provider.Commit(fs);
      ClosedFrame(was, fs.disk, except);
    }
  }

  /** No staged file and no copy of the database is left. */
  ghost predicate Closed(names: set<Name>, kept: Kept)
    reads kept.registration, kept.manifest, kept.provider
  {
    && (kept.manifest != null && !kept.manifest.published ==> kept.manifest.temporary !in names)
    && (kept.registration != null && !kept.registration.published ==> kept.registration.temporary !in names)
    && (kept.provider != null ==> kept.provider.backup == None)
  }

  /** The staged commits: private backups go, and a failure to remove one is not raised. */
  method CommitStaged(fs: Store, kept: Kept, ghost journal: Document, ghost journaled: Document, ghost base: Files)
    returns (o: Outcome)
    requires Held(fs.disk, journal, journaled, base) && kept.Valid() && Loose(kept, fs.disk, base)
    modifies fs, kept.registration, kept.manifest, kept.provider
    ensures Held(fs.disk, journal, journaled, base) && kept.Valid() && Loose(kept, fs.disk, base)
    ensures World(fs.disk) == World(old(fs.disk)) && fs.faults >= old(fs.faults) && !o.Raised?
    ensures fs.faults == old(fs.faults) ==> o.Ok?
    ensures fs.faults == old(fs.faults) ==>
      && (kept.registration != null ==> kept.registration.backup == None)
      && (kept.manifest != null ==> kept.manifest.backup == None)
      && (kept.provider != null ==> kept.provider.backup == None)
  {
    o := CommitRegistration(fs, kept, journal, journaled, base);
    if !o.Ok? {
      return;
    }
    o := CommitManifest(fs, kept, journal, journaled, base);
    if !o.Ok? {
      return;
    }
    o := CommitProvider(fs, kept, journal, journaled, base);
  }

  lemma CommitFrame(d: Storage, d': Storage, journal: Document, journaled: Document, base: Files, except: set<Name>)
    requires Held(d, journal, journaled, base) && d'.Valid()
    requires Untouched(d.Files(), d'.Files(), except) && forall n | n in except :: n.Scratch?
    ensures Held(d', journal, journaled, base) && World(d') == World(d)
  {
    HeldFrame(d, d', journal, journaled, base, except);
    UntouchedWorld(d, d', except);
  }

  method CommitRegistration(fs: Store, kept: Kept, ghost journal: Document, ghost journaled: Document, ghost base: Files)
    returns (o: Outcome)
    requires Held(fs.disk, journal, journaled, base) && kept.Valid() && Loose(kept, fs.disk, base)
    modifies fs, kept.registration
    ensures Held(fs.disk, journal, journaled, base) && kept.Valid() && Loose(kept, fs.disk, base)
    ensures World(fs.disk) == World(old(fs.disk)) && fs.faults >= old(fs.faults) && !o.Raised?
    ensures fs.faults == old(fs.faults) ==> o.Ok?
    ensures fs.faults == old(fs.faults) && kept.registration != null ==> kept.registration.backup == None
  {
    o := Ok;
    if kept.registration != null {
      ghost var was, except := fs.disk, OwnNames(kept.registration.temporary, kept.registration.backup);
      var clean;
      o, clean := kept.registration.Commit(fs);
      CommitFrame(was, fs.disk, journal, journaled, base, except);
      if fs.disk != was {
        OthersKept(was, fs.disk, kept, base, except);
      }
    }
  }

  method CommitManifest(fs: Store, kept: Kept, ghost journal: Document, ghost journaled: Document, ghost base: Files)
    returns (o: Outcome)
    requires Held(fs.disk, journal, journaled, base) && kept.Valid() && Loose(kept, fs.disk, base)
    modifies fs, kept.manifest
    ensures Held(fs.disk, journal, journaled, base) && kept.Valid() && Loose(kept, fs.disk, base)
    ensures World(fs.disk) == World(old(fs.disk)) && fs.faults >= old(fs.faults) && !o.Raised?
    ensures fs.faults == old(fs.faults) ==> o.Ok?
    ensures fs.faults == old(fs.faults) && kept.manifest != null ==> kept.manifest.backup == None
  {
    o := Ok;
    if kept.manifest != null {
      ghost var was, except := fs.disk, OwnBackup(kept.manifest.backup);
      var clean;
      o, clean := kept.manifest.Commit(fs);
      CommitFrame(was, fs.disk, journal, journaled, base, except);
      if fs.disk != was {
        OthersKept(was, fs.disk, kept, base, except);
      }
    }
  }

  method CommitProvider(fs: Store, kept: Kept, ghost journal: Document, ghost journaled: Document, ghost base: Files)
    returns (o: Outcome)
    requires Held(fs.disk, journal, journaled, base) && kept.Valid() && Loose(kept, fs.disk, base)
    modifies fs, kept.provider
    ensures Held(fs.disk, journal, journaled, base) && kept.Valid() && Loose(kept, fs.disk, base)
    ensures World(fs.disk) == World(old(fs.disk)) && fs.faults >= old(fs.faults) && !o.Raised?
    ensures fs.faults == old(fs.faults) ==> o.Ok?
    ensures fs.faults == old(fs.faults) && kept.provider != null ==> kept.provider.backup == None
  {
    o := Ok;
    if kept.provider != null {
      ghost var was, except := fs.disk, OwnBackup(kept.provider.backup);
      var clean;
      o, clean := kept.provider.Commit(fs);
      CommitFrame(was, fs.disk, journal, journaled, base, except);
      if fs.disk != was {
        OthersKept(was, fs.disk, kept, base, except);
      }
    }
  }

  /** The end of a successful run: staged backups first, then the journal.  A
      failure leaves the new generation published and the journal in hand, but
      private and journaled backups may be gone. */
  method Finish(fs: Store, recovery: RecoveryJournal, kept: Kept, ghost journaled: Document, ghost base: Files, ghost next: Files)
    returns (o: Outcome)
    requires Held(fs.disk, recovery.document, journaled, base) && kept.Valid() && Loose(kept, fs.disk, base)
    requires World(fs.disk) == next
    modifies fs, recovery, kept.registration, kept.manifest, kept.provider
    ensures fs.disk.Valid() && kept.Valid() && fs.faults >= old(fs.faults) && World(fs.disk) == next
    ensures if o.Ok? then Journal !in fs.disk.names
            else Held(fs.disk, recovery.document, journaled, base) && Loose(kept, fs.disk, base)
    ensures fs.faults == old(fs.faults) ==> o.Ok?
  {
    o := CommitStaged(fs, kept, recovery.document, journaled, base);
    if o.Ok? {
      o := CommitJournal(fs, recovery, kept, journaled, base);
    }
  }

  method CommitJournal(fs: Store, recovery: RecoveryJournal, kept: Kept, ghost journaled: Document, ghost base: Files)
    returns (o: Outcome)
    requires Held(fs.disk, recovery.document, journaled, base) && kept.Valid() && Loose(kept, fs.disk, base)
    modifies fs, recovery
    ensures fs.disk.Valid() && fs.faults >= old(fs.faults) && World(fs.disk) == World(old(fs.disk))
    ensures if o.Ok? then Journal !in fs.disk.names
            else Held(fs.disk, recovery.document, journaled, base) && Loose(kept, fs.disk, base)
    ensures fs.faults == old(fs.faults) ==> o.Ok?
  {
    ghost var was := fs.disk;
    o := recovery.Commit(fs, journaled);
    if !o.Ok? {
      BackedUpDiscarded(was, fs.disk, journaled, base);
      assert SameAt(was.Files(), fs.disk.Files(), Journal);
      DiscardedKept(was.Files(), fs.disk.Files());
      OthersKept(was, fs.disk, kept, base, {});
    }
  }

  lemma DiscardedKept(a: Files, b: Files)
    requires Discarded(a, b)
    ensures ScratchKept(a, b, {})
  {
    forall n: Name | n.Scratch?
      ensures SameAt(a, b, n)
    {
    }
  }

  // ---------- What a run leaves behind ----------

  /** The journal on the disk says that the new state was published. */
  ghost predicate RecordsPublication(d: Storage)
    requires d.Valid()
  {
    Journal in d.names && d.Files()[Journal].Record? && Accepting(d.Files()[Journal].document.phase)
  }

  /** Recovery has decided for one of the two generations, or it will accept the
      mixture of them that the disk shows. */
  ghost predicate Left(d: Storage, base: Files, next: Files, restored: set<Label>, removed: set<Label>) {
    && d.Valid()
    && if RecordsPublication(d) then Mixed(d.Files(), base, next, restored, removed) else InTransit(d, base, next)
  }

  /** The mixture is neither all of the old generation nor all of the new one. */
  predicate Torn(base: Files, next: Files, restored: set<Label>, removed: set<Label>) {
    !AllOld(base, next, restored, removed) && !AllNew(base, next, restored, removed)
  }

  /** Recovery shows one whole generation exactly when no accepting phase is
      journaled or the artifacts that are back and those that are missing leave
      all of the old generation or all of the new one. */
  lemma LateRollback(d: Storage, base: Files, next: Files, restored: set<Label>, removed: set<Label>)
    requires Left(d, base, next, restored, removed) && Shown(base) && Shown(next)
    requires forall n: Name | n.Shard? :: SameAt(base, next, n)
    ensures InTransit(d, base, next) <==> (RecordsPublication(d) ==> !Torn(base, next, restored, removed))
  {
    if RecordsPublication(d) {
      MixedWhole(d, base, next, restored, removed);
    }
  }

  /** After the first k staged rollbacks: torn exactly when some artifact that
      differs is back and some other one that differs is not. */
  lemma TornAfter(base: Files, next: Files, k: nat)
    requires k <= |ORDER|
    ensures Torn(base, next, Elements(ORDER[..k]), {}) <==>
      && (exists l: Label :: l in ORDER[..k] && At(base, l) != At(next, l))
      && (exists l: Label :: l !in ORDER[..k] && At(base, l) != At(next, l))
  {
  }

  /** When all four artifacts differ, a crash is harmless before the first staged
      rollback and after the fifth one, and nowhere between. */
  lemma TornBetween(base: Files, next: Files, k: nat)
    requires k <= |ORDER| && forall l: Label :: At(base, l) != At(next, l) <==> l != Pointer
    ensures Torn(base, next, Elements(ORDER[..k]), {}) <==> 0 < k < |ORDER|
  {
    TornAfter(base, next, k);
    if k == |ORDER| {
      assert ORDER[..k] == ORDER;
      assert forall l: Label :: l != Pointer ==> l in ORDER;
    } else if k > 0 {
      assert ORDER[..k][0] == Manifest && Provider !in ORDER[..k];
      assert At(base, Manifest) != At(next, Manifest) && At(base, Provider) != At(next, Provider);
    }
  }

  lemma MixedNext(files: Files, start: Storage, base: Files, next: Files, restored: set<Label>, removed: set<Label>)
    requires start.Valid() && World(start) == next && Mixed(files, base, start.Files(), restored, removed)
    ensures Mixed(files, base, next, restored, removed)
  {
    forall n: Name | n.Published? || n.Shard?
      ensures MixedAt(files, base, next, restored, removed, n)
    {
      assert MixedAt(files, base, start.Files(), restored, removed, n);
      assert n in next <==> n in start.names;
    }
  }

  lemma StartMixed(d: Storage, base: Files, next: Files)
    requires d.Valid() && World(d) == next
    ensures Mixed(d.Files(), base, next, {}, {})
  {
    forall n: Name | n.Published? || n.Shard?
      ensures MixedAt(d.Files(), base, next, {}, {}, n)
    {
      assert n in next <==> n in d.names;
    }
  }

  /** Where the except clause finds a run. */
  ghost predicate Caught(d: Storage, recovery: Option<Document>, kept: Kept, journaled: Document, base: Files, next: Files)
    reads kept.registration, kept.manifest, kept.provider
  {
    && d.Valid() && kept.Valid()
    && match recovery
       case None => Journal !in d.names && World(d) == base && Unjournaled(kept, base)
       case Some(document) =>
         && Held(d, document, journaled, base) && Loose(kept, d, base)
         && (if Accepting(journaled.phase) then World(d) == next else Complete(d.names.Keys, journaled))
  }

  lemma StoppedCaught(d: Storage, recovery: Option<Document>, kept: Kept, journaled: Document, base: Files, next: Files)
    requires Stopped(d, recovery, kept, journaled, base, next)
    ensures Caught(d, recovery, kept, journaled, base, next) && Left(d, base, next, {}, {}) && Sound(Standard, d)
  {
    if recovery.Some? {
      OpenHeld(d, recovery.value, journaled, base);
      if Accepting(journaled.phase) {
        StartMixed(d, base, next);
      } else {
        CompleteIntact(d, journaled, base);
      }
    }
  }

  /** The whole except clause.  Cut short before any of its own steps failed, with
      an accepting journal left, it has brought back the first k artifacts. */
  method Except(fs: Store, recovery: RecoveryJournal?, kept: Kept, ghost journaled: Document, ghost base: Files, ghost next: Files)
    returns (o: Outcome, errors: bool, ghost restored: set<Label>, ghost removed: set<Label>, ghost k: nat)
    requires Shown(base) && (recovery != null ==> recovery.protocol == Standard)
    requires Caught(fs.disk, Remembered(recovery), kept, journaled, base, next)
    modifies fs, recovery, kept.registration, kept.manifest, kept.provider
    ensures Left(fs.disk, base, next, restored, removed) && kept.Valid() && fs.faults >= old(fs.faults) && !o.Raised?
    ensures o.Ok? && !errors ==> Journal !in fs.disk.names && World(fs.disk) == base
    ensures recovery != null && Accepting(journaled.phase) ==> Sound(Standard, fs.disk)
    ensures fs.faults == old(fs.faults) && (recovery == null || Open(Standard, old(fs.disk), old(recovery.document), journaled, base)) ==>
      && o.Ok? && Journal !in fs.disk.names && World(fs.disk) == base
      && (recovery == null || old(Armed(kept, fs.disk, base, 0)) ==> !errors)
    ensures recovery != null && !errors && old(Stopped(fs.disk, Remembered(recovery), kept, journaled, base, next)) && RecordsPublication(fs.disk) ==>
      k <= |ORDER| && restored == Elements(ORDER[..k]) && removed == {}
  {
    restored, removed, k := {}, {}, 0;
    ghost var start := fs.disk;
    if recovery == null {
      o := HandleUnjournaled(fs, kept, base);
      errors := !o.Ok?;
      o := if o.Raised? then Ok else o;
    } else {
      o, errors, restored, removed, k := Handle(fs, recovery, kept, journaled, base);
      if Accepting(journaled.phase) {
        MixedNext(fs.disk.Files(), start, base, next, restored, removed);
      }
    }
  }

  lemma LeftFrame(d: Storage, d': Storage, base: Files, next: Files, restored: set<Label>, removed: set<Label>)
    requires Left(d, base, next, restored, removed) && d'.Valid()
    requires World(d) == World(d') && SameAt(d.Files(), d'.Files(), Journal)
    requires forall files :: Settles(d, files) ==> Settles(d', files)
    ensures Left(d', base, next, restored, removed)
  {
    if RecordsPublication(d) {
      MixedFrame(d, d', base, next, restored, removed);
    }
  }

  /** The try statement with its except and finally clauses.  A failure while the
      last backups and the journal are deleted goes through the except clause too.
      An interrupt is raised again there; it shows here as one more fault. */
  method Run(fs: Store, g: Generation, ghost base: Files, ghost next: Files)
    returns (o: Outcome, status: Status, ghost restored: set<Label>, ghost removed: set<Label>)
    requires fs.disk.Valid() && Journal !in fs.disk.names && World(fs.disk) == base && Shown(base) && next == Next(base, g)
    modifies fs
    ensures Left(fs.disk, base, next, restored, removed) && !status.Current? && fs.faults >= old(fs.faults)
    ensures o.Ok? && status.Refreshed? ==> Journal !in fs.disk.names && World(fs.disk) == next
    ensures o.Ok? && status == Failed(true) ==> Journal !in fs.disk.names && World(fs.disk) == base
    ensures fs.faults == old(fs.faults) ==> o.Ok? && status.Refreshed?
    ensures fs.faults <= old(fs.faults) + 1 ==> Sound(Standard, fs.disk)
  {
    status, restored, removed := Failed(true), {}, {};
    var recovery, kept;
    ghost var journaled;
    o, recovery, kept, journaled := Attempt(fs, g, base);
    StoppedCaught(fs.disk, Remembered(recovery), kept, journaled, base, next);
    if o.Crashed? {
      return;
    }
    o, status, restored, removed := Conclude(fs, o, recovery, kept, journaled, base, next);
    if o.Crashed? {
      return;
    }
    ghost var was := fs.disk;
    var closed := CloseAll(fs, kept);
    LeftFrame(was, fs.disk, base, next, restored, removed);
    o := if closed.Ok? then o else closed;
  }

  /** What follows an attempt that returned or raised: the last commits, and the
      except clause for a failure in either. */
  method Conclude(fs: Store, attempted: Outcome, recovery: RecoveryJournal?, kept: Kept, ghost journaled: Document,
                  ghost base: Files, ghost next: Files)
    returns (o: Outcome, status: Status, ghost restored: set<Label>, ghost removed: set<Label>)
    requires Shown(base) && !attempted.Crashed? && (recovery != null ==> recovery.protocol == Standard)
    requires Caught(fs.disk, Remembered(recovery), kept, journaled, base, next)
    requires attempted.Ok? ==> recovery != null && Accepting(journaled.phase)
    modifies fs, recovery, kept.registration, kept.manifest, kept.provider
    ensures Left(fs.disk, base, next, restored, removed) && kept.Valid() && !status.Current? && fs.faults >= old(fs.faults)
    ensures o.Ok? && status.Refreshed? ==> Journal !in fs.disk.names && World(fs.disk) == next
    ensures o.Ok? && status == Failed(true) ==> Journal !in fs.disk.names && World(fs.disk) == base
    ensures fs.faults == old(fs.faults) && attempted.Ok? ==> o.Ok? && status.Refreshed?
    ensures attempted.Ok? ==> Sound(Standard, fs.disk)
    ensures fs.faults == old(fs.faults) && old(Stopped(fs.disk, Remembered(recovery), kept, journaled, base, next)) ==>
      && Sound(Standard, fs.disk)
      && (attempted.Raised? && (recovery == null || old(Armed(kept, fs.disk, base, 0))) ==> o.Ok? && status == Failed(true))
  {
    o, status, restored, removed := attempted, Refreshed, {}, {};
    if o.Ok? {
      o := Finish(fs, recovery, kept, journaled, base, next);
      StartMixed(fs.disk, base, next);
    }
    if o.Raised? {
      var errors;
      ghost var k;
      o, errors, restored, removed, k := Except(fs, recovery, kept, journaled, base, next);
      status := Failed(!errors);
      if o.Ok? {
        o := fs.Fate();
      }
    }
  }

  /** RefreshCoordinator.refresh, called by the owner of the project lease.

      Recovery has decided for `current` on the disk that it meets.  However this
      run ends, a crash included, recovery has decided for `current` or for the
      new generation on the disk it leaves, with one exception: `exposed` runs
      failed after the journal had recorded `state_published`, and their rollback
      was cut short with a torn mixture on the disk.  A single fault, a crash or
      anything else, leaves a disk that recovery completes, unless it strikes a
      recovery that goes back. */
  method Refresh(fs: Store, g: Generation, deferred: bool, ghost current: Files)
    returns (o: Outcome, status: Status, ghost exposed: bool, ghost restored: set<Label>, ghost removed: set<Label>)
    requires Settles(fs.disk, current) && Shown(current)
    modifies fs
    ensures Left(fs.disk, current, Next(current, g), restored, removed) && fs.faults >= old(fs.faults)
    ensures exposed <==> RecordsPublication(fs.disk) && Torn(current, Next(current, g), restored, removed)
    ensures exposed <==> !InTransit(fs.disk, current, Next(current, g))
    ensures o.Ok? && status.Refreshed? ==> Journal !in fs.disk.names && World(fs.disk) == Next(current, g)
    ensures o.Ok? && status.Current? ==> Journal !in fs.disk.names && World(fs.disk) == current
    ensures o.Ok? && status == Failed(true) ==>
      && Settles(fs.disk, current)
      && if Journal in fs.disk.names then SameAt(old(fs.disk).Files(), fs.disk.Files(), Journal) else World(fs.disk) == current
    ensures fs.faults == old(fs.faults) ==>
      if Recoverable(Standard, old(fs.disk)) then o.Ok? && !status.Failed? && Journal !in fs.disk.names
      else o.Ok? && status == Failed(true) && Stuck(Standard, old(fs.disk), fs.disk, current)
    ensures fs.faults <= old(fs.faults) + 1 && Sound(Standard, old(fs.disk)) && !Going(old(fs.disk), fs.disk) ==>
      Sound(Standard, fs.disk)
  {
    status, restored, removed := Failed(true), {}, {};
    o := Ok;
    if deferred || Journal in fs.disk.names {
      o := Recover(Standard, fs, current);
    }
    ghost var next := Next(current, g);
    if o.Ok? {
      var upToDate: bool :| true;
      if upToDate {
        status := Current;
      } else {
        o, status, restored, removed := Run(fs, g, current, next);
      }
    } else {
      if RecordsPublication(fs.disk) {
        restored := {Provider, Sidecar, Manifest, Pointer, State};
        CurrentMixed(fs.disk, current, next, restored);
      }
      if o.Raised? {
        o := fs.Fate();
      }
    }
    LateRollback(fs.disk, current, next, restored, removed);
    exposed := !InTransit(fs.disk, current, next);
  }

  lemma CurrentMixed(d: Storage, base: Files, next: Files, restored: set<Label>)
    requires d.Valid() && World(d) == base && restored == {Provider, Sidecar, Manifest, Pointer, State}
    requires forall n: Name | n.Shard? :: SameAt(base, next, n)
    ensures Mixed(d.Files(), base, next, restored, {})
  {
    forall n: Name | n.Published? || n.Shard?
      ensures MixedAt(d.Files(), base, next, restored, {}, n)
    {
      assert n in base <==> n in d.names;
      assert n.Shard? ==> SameAt(base, next, n);
      if n.Published? {
        match n.artifact {
          case Provider | Sidecar | Manifest | Pointer | State =>
            assert n.artifact in restored;
        }
      }
    }
  }

  // ---------- A torn disk ----------

  /** A project without sidecar has published its next generation and journaled it. */
  const Accepted := Document(StatePublished,
                             map[Provider := Entry(true, Some(0)), Sidecar := Entry(false, None),
                                 Manifest := Entry(true, Some(1)), State := Entry(true, Some(2))],
                             NoShard)

  const Successor := Generation(Data("provider 1"), None, Data("manifest 1"), Data("state 1"))

  const Earlier: Files := map[Published(Provider) := Data("provider 0"), Published(Manifest) := Data("manifest 0"),
                              Published(State) := Data("state 0")]

  const Finished: Storage := Disk(
    map[Published(Provider) := 0, Published(Manifest) := 1, Published(State) := 2, Backup(Provider, 0) := 3, Backup(Manifest, 1) := 4,
        Backup(State, 2) := 5, Scratch(ProviderBackup, 3) := 3, Scratch(ManifestBackup, 4) := 4, Journal := 6],
    map[0 := Data("provider 1"), 1 := Data("manifest 1"), 2 := Data("state 1"), 3 := Data("provider 0"),
        4 := Data("manifest 0"), 5 := Data("state 0"), 6 := Record(Accepted)],
    7)

  const FinishedContents: Files :=
    map[Published(Provider) := Data("provider 1"), Published(Manifest) := Data("manifest 1"), Published(State) := Data("state 1"),
        Backup(Provider, 0) := Data("provider 0"), Backup(Manifest, 1) := Data("manifest 0"), Backup(State, 2) := Data("state 0"),
        Scratch(ProviderBackup, 3) := Data("provider 0"), Scratch(ManifestBackup, 4) := Data("manifest 0"),
        Journal := Record(Accepted)]

  lemma FinishedValid()
    ensures Finished.Valid() && Finished.names.Keys == FinishedContents.Keys
  {
  }

  lemma FinishedFiles()
    ensures Finished.Valid() && Finished.Files() == FinishedContents
  {
    FinishedValid();
    forall n | n in FinishedContents
      ensures Finished.Files()[n] == FinishedContents[n]
    {
    }
  }

  lemma FinishedBackedUp()
    ensures Finished.Valid() && BackedUp(Finished, Accepted, Earlier)
  {
    FinishedFiles();
    forall n: Name | n.Published? || n.Shard?
      ensures WayBack(FinishedContents, Accepted, Earlier, n)
    {
      if n.Published? {
        FinishedBackup(n.artifact);
      }
    }
  }

  lemma FinishedBackup(l: Label)
    ensures WayBack(FinishedContents, Accepted, Earlier, Published(l))
  {
  }

  lemma FinishedComplete()
    ensures Complete(FinishedContents.Keys, Accepted)
  {
    forall l | l in Accepted.artifacts
      ensures EntryComplete(FinishedContents.Keys, Accepted.artifacts[l], l)
    {
    }
  }

  /** The run is in its transaction, and its private backups are in hand. */
  lemma FinishedOpen()
    ensures Open(Standard, Finished, Accepted, Accepted, Earlier)
    ensures Copy(Finished, Some(Scratch(ManifestBackup, 4)), Earlier, Manifest)
  {
    FinishedValid();
    FinishedFiles();
    FinishedBackedUp();
    FinishedComplete();
  }

  const Later: Files := map[Published(Provider) := Data("provider 1"), Published(Manifest) := Data("manifest 1"),
                            Published(State) := Data("state 1")]

  lemma LaterIsNext()
    ensures Next(Earlier, Successor) == Later
  {
  }

  lemma FinishedWorld()
    ensures Finished.Valid() && World(Finished) == Later
  {
    FinishedFiles();
    forall n: Name
      ensures n in World(Finished) <==> n in Later
      ensures n in World(Finished) ==> World(Finished)[n] == Later[n]
    {
    }
  }

  /** Then activation fails, the first staged rollback moves the manifest back, and
      the process dies: the next recovery completes and accepts the manifest of
      one generation with the state of the other. */
  lemma TornDisk()
    ensures Open(Standard, Finished, Accepted, Accepted, Earlier) && World(Finished) == Next(Earlier, Successor)
    ensures var d := Finished.Renamed(Scratch(ManifestBackup, 4), Published(Manifest));
            && RecordsPublication(d) && Recoverable(Standard, d) && Settles(d, World(d))
            && !InTransit(d, Earlier, Next(Earlier, Successor))
            && d.Files()[Published(Manifest)] == Data("manifest 0")
            && Published(State) in d.names && d.Files()[Published(State)] == Data("state 1")
  {
    FinishedOpen();
    FinishedWorld();
    LaterIsNext();
    TornFiles();
  }

  lemma TornFiles()
    ensures Finished.Valid()
    ensures var d := Finished.Renamed(Scratch(ManifestBackup, 4), Published(Manifest));
            && RecordsPublication(d) && Recoverable(Standard, d) && Settles(d, World(d))
            && !InTransit(d, Earlier, Next(Earlier, Successor))
            && d.Files()[Published(Manifest)] == Data("manifest 0")
            && Published(State) in d.names && d.Files()[Published(State)] == Data("state 1")
  {
    FinishedFiles();
    var d := Finished.Renamed(Scratch(ManifestBackup, 4), Published(Manifest));
    assert SameAt(Finished.Files(), d.Files(), Journal) && SameAt(Finished.Files(), d.Files(), Published(State));
    assert "manifest 1"[9] == '1' && "manifest 0"[9] == '0' && "state 1"[6] == '1' && "state 0"[6] == '0';
    assert World(d)[Published(Manifest)] == Data("manifest 0") && World(d)[Published(State)] == Data("state 1");
  }

  // ---------- Every history ----------

  /** What the requests numbered in `effective` make of `first`, one after another. */
  ghost function Applied(first: Files, generations: seq<Generation>, effective: seq<nat>): (files: Files)
    requires Ordered(effective, |generations|)
    ensures Shown(first) ==> Shown(files)
  {
    if effective == [] then first
    else
      var last := |effective| - 1;
      Next(Applied(first, generations, effective[..last]), generations[effective[last]])
  }

  lemma AppliedMore(first: Files, generations: seq<Generation>, effective: seq<nat>, i: nat, effect: bool)
    requires i < |generations| && Ordered(effective, |generations|) && Ordered(Extended(effective, i, effect), |generations|)
    ensures Applied(first, generations, Extended(effective, i, effect)) ==
      if effect then Next(Applied(first, generations, effective), generations[i]) else Applied(first, generations, effective)
  {
    assert (effective + [i])[..|effective|] == effective;
  }

  /** One refresh or one explicit recovery. */
  method Serve(fs: Store, g: Generation, ghost current: Files) returns (reply: Reply, ghost effect: bool, ghost exposed: bool)
    requires Settles(fs.disk, current) && Shown(current)
    modifies fs
    ensures fs.disk.Valid() && reply.Tells(effect) && (exposed ==> reply.Unknown?)
    ensures fs.faults >= old(fs.faults) && (exposed ==> fs.faults > old(fs.faults))
    ensures Settles(fs.disk, if exposed then World(fs.disk) else if effect then Next(current, g) else current)
  {
    exposed := false;
    var restart: bool :| true;
    if restart {
      var recovered := Recover(Standard, fs, current);
      return Preserved, false, exposed;
    }
    var deferred: bool :| true;
    var o, status;
    ghost var restored, removed;
    o, status, exposed, restored, removed := Refresh(fs, g, deferred, current);
    reply := if !o.Ok? then Unknown
             else match status
               case Refreshed => Acknowledged
               case Current => Preserved
               case Failed(preserved) => if preserved then Preserved else Unknown;
    effect := reply.Acknowledged? || (reply.Unknown? && !Settles(fs.disk, current));
  }

  /** Any number of refreshes and recoveries, each of which may end in success, in
      failure or in a crash at any of its steps: as long as no run was exposed,
      they are a sequence of whole refreshes, in their order and each on top of
      the one before, among them every one that was acknowledged and none that
      was reported as preserved or current.  Recovery has decided for the last of
      them, and without a journal the disk shows it. */
  method History(fs: Store, generations: seq<Generation>, ghost first: Files)
    returns (replies: seq<Reply>, ghost effective: seq<nat>, ghost exposed: bool)
    requires Settles(fs.disk, first) && Shown(first)
    modifies fs
    ensures fs.disk.Valid() && |replies| == |generations|
    ensures Ordered(effective, |generations|) && Truthful(replies, effective)
    ensures !exposed ==> Settles(fs.disk, Applied(first, generations, effective))
    ensures exposed ==> Unknown in replies
    ensures fs.faults == old(fs.faults) ==> !exposed
  {
    replies, effective, exposed := [], [], false;
    ghost var current := first;
    for i := 0 to |generations|
      invariant |replies| == i && Ordered(effective, i) && Truthful(replies, effective)
      invariant Settles(fs.disk, current) && Shown(current)
      invariant !exposed ==> current == Applied(first, generations, effective)
      invariant fs.faults >= old(fs.faults) && (exposed ==> Unknown in replies && fs.faults > old(fs.faults))
    {
      var reply;
      ghost var effect, torn;
      reply, effect, torn := Serve(fs, generations[i], current);
      TruthfulMore(replies, effective, reply, effect);
      replies := replies + [reply];
      current := if torn then World(fs.disk) else if effect then Next(current, generations[i]) else current;
      exposed := exposed || torn;
      AppliedMore(first, generations, effective, i, effect);
      effective := Extended(effective, i, effect);
    }
  }
}
