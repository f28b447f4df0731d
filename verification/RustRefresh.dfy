/** The Rust publication transaction (rust_refresh.py, rust_refresh_recovery.py). */
module RustRefresh {
  import opened Basics
  import opened FileSystems
  import opened Publication
  import opened Staging
  import opened Transaction

  /** The bytes of one generation and the path of its immutable shard. */
  datatype Generation = Generation(shardFile: string, shard: Content, manifest: Content, pointer: Content, state: Content)

  datatype Status =
    | Refreshed(recoveryPending: bool)
    | Failed(previousGenerationPreserved: bool)

  /** What queries see once `g` has replaced the generation shown by `base`. */
  function Next(base: Files, g: Generation): Files {
    base[Shard(g.shardFile) := g.shard][Published(Manifest) := g.manifest]
        [Published(Pointer) := g.pointer][Published(State) := g.state]
  }

  /** A shard is never replaced: one that exists must already hold the new bytes. */
  predicate Fits(base: Files, g: Generation) {
    Shard(g.shardFile) in base ==> base[Shard(g.shardFile)] == g.shard
  }

  // ---------- One transaction ----------

  /** StagedRustSyntaxShard.publish: an existing shard must hold the same bytes. */
  method PublishShard(fs: FileSystem<Name, Content>, temporary: Name, file: string) returns (o: Outcome)
    requires fs.disk.Valid() && temporary.Scratch? && temporary in fs.disk.names
    modifies fs
    ensures fs.disk.Valid() && fs.faults >= old(fs.faults)
    ensures Untouched(old(fs.disk).Files(), fs.disk.Files(), {Shard(file), temporary})
    ensures Shard(file) in old(fs.disk).names || !o.Ok? ==> SameAt(old(fs.disk).Files(), fs.disk.Files(), Shard(file))
    ensures o.Ok? ==> Shard(file) in fs.disk.names && fs.disk.Files()[Shard(file)] == old(fs.disk).Files()[temporary]
    ensures fs.faults == old(fs.faults) ==>
      if Shard(file) in old(fs.disk).names ==> old(fs.disk).Files()[Shard(file)] == old(fs.disk).Files()[temporary]
      then o.Ok? else o.Raised?
  {
    if Shard(file) in fs.disk.names {
      if fs.disk.data[fs.disk.names[Shard(file)]] != fs.disk.data[fs.disk.names[temporary]] {
        return Raised;
      }
      o := fs.Unlink(temporary);
    } else {
      o := fs.Replace(temporary, Shard(file));
    }
  }

  /** The forward path from the first journal to the accepted state.

      Whatever happens, the disk stays recoverable to `base` until the journal
      records `state_published`, and from then on shows the new generation. */
  method Publish(fs: FileSystem<Name, Content>, g: Generation, recovery: RecoveryJournal, manifest: StagedManifest,
                 shard: Name, pointer: Name, ghost base: Files)
    returns (o: Outcome, accepted: bool, ghost journaled: Document)
    requires Open(Rust, fs.disk, recovery.document, recovery.document, base) && recovery.protocol == Rust
    requires World(fs.disk) == base && Shown(base) && recovery.document.phase == Prepared
    requires recovery.document.shard == ShardEntry(g.shardFile, Shard(g.shardFile) in base)
    requires manifest.Valid() && !manifest.published && manifest.backup == None
    requires shard != pointer && manifest.temporary !in {shard, pointer}
    requires Waiting(fs.disk, shard, g.shard) && Waiting(fs.disk, pointer, g.pointer)
    requires Waiting(fs.disk, manifest.temporary, g.manifest)
    modifies fs, recovery, manifest
    ensures fs.disk.Valid() && manifest.Valid() && fs.faults >= old(fs.faults)
    ensures o.Ok? <==> accepted
    ensures !accepted ==> Open(Rust, fs.disk, recovery.document, journaled, base) && !Accepting(journaled.phase)
    ensures accepted ==> Landed(Rust, fs.disk, Next(base, g)) && recovery.document.phase == StatePublished
    ensures accepted ==> Acceptable(Rust, recovery.document)
    ensures fs.faults == old(fs.faults) ==> if Fits(base, g) then o.Ok? else o.Raised?
  {
    accepted := false;
    o, journaled := PublishArtifacts(fs, g, recovery, manifest, shard, pointer, base);
    if !o.Ok? {
      return;
    }
    o, journaled := RecordState(fs, recovery, journaled, base);
    accepted := o.Ok?;
  }

  /** From here on recovery keeps the new generation. */
  method RecordState(fs: FileSystem<Name, Content>, recovery: RecoveryJournal, ghost journaled: Document, ghost base: Files)
    returns (o: Outcome, ghost journaled': Document)
    requires Open(Rust, fs.disk, recovery.document, journaled, base) && !Accepting(journaled.phase)
    requires recovery.protocol == Rust && recovery.document.phase == PointerPublished
    modifies fs, recovery
    ensures Open(Rust, fs.disk, recovery.document, journaled', base) && fs.faults >= old(fs.faults)
    ensures World(fs.disk) == World(old(fs.disk)) && (o.Ok? <==> Accepting(journaled'.phase))
    ensures o.Ok? ==> recovery.document.phase == StatePublished
    ensures fs.faults == old(fs.faults) ==> o.Ok?
  {
    o, journaled' := AdvanceOpen(Rust, fs, recovery, StatePublished, journaled, base);
  }

  /** The four artifacts, from the journaled `prepared` to the journaled pointer. */
  method PublishArtifacts(fs: FileSystem<Name, Content>, g: Generation, recovery: RecoveryJournal, manifest: StagedManifest,
                          shard: Name, pointer: Name, ghost base: Files)
    returns (o: Outcome, ghost journaled: Document)
    requires Open(Rust, fs.disk, recovery.document, recovery.document, base) && recovery.protocol == Rust
    requires World(fs.disk) == base && recovery.document.phase == Prepared
    requires recovery.document.shard == ShardEntry(g.shardFile, Shard(g.shardFile) in base)
    requires manifest.Valid() && !manifest.published && manifest.backup == None
    requires shard != pointer && manifest.temporary !in {shard, pointer}
    requires Waiting(fs.disk, shard, g.shard) && Waiting(fs.disk, pointer, g.pointer)
    requires Waiting(fs.disk, manifest.temporary, g.manifest)
    modifies fs, recovery, manifest
    ensures manifest.Valid() && fs.faults >= old(fs.faults)
    ensures Open(Rust, fs.disk, recovery.document, journaled, base) && !Accepting(journaled.phase)
    ensures o.Ok? ==> World(fs.disk) == Next(base, g) && recovery.document.phase == PointerPublished
    ensures fs.faults == old(fs.faults) ==> if Fits(base, g) then o.Ok? else o.Raised?
  {
    o, journaled := PublishSources(fs, g, recovery, manifest, shard, pointer, recovery.document, base);
    if o.Ok? {
      o, journaled := PublishBindings(fs, g, recovery, pointer, journaled, base);
    }
  }

  /** Publishes the shard and the manifest. */
  method PublishSources(fs: FileSystem<Name, Content>, g: Generation, recovery: RecoveryJournal, manifest: StagedManifest,
                        shard: Name, pointer: Name, ghost journaled: Document, ghost base: Files)
    returns (o: Outcome, ghost journaled': Document)
    requires Open(Rust, fs.disk, recovery.document, journaled, base) && World(fs.disk) == base
    requires journaled.shard == ShardEntry(g.shardFile, Shard(g.shardFile) in base) && !Accepting(journaled.phase)
    requires recovery.protocol == Rust && recovery.document.phase == Prepared
    requires manifest.Valid() && !manifest.published && manifest.backup == None
    requires shard != pointer && manifest.temporary !in {shard, pointer}
    requires Waiting(fs.disk, shard, g.shard) && Waiting(fs.disk, pointer, g.pointer)
    requires Waiting(fs.disk, manifest.temporary, g.manifest)
    modifies fs, recovery, manifest
    ensures manifest.Valid() && fs.faults >= old(fs.faults)
    ensures Open(Rust, fs.disk, recovery.document, journaled', base) && !Accepting(journaled'.phase)
    ensures o.Ok? ==>
      && World(fs.disk) == base[Shard(g.shardFile) := g.shard][Published(Manifest) := g.manifest]
      && Waiting(fs.disk, pointer, g.pointer) && recovery.document.phase == ManifestPublished
    ensures fs.faults == old(fs.faults) ==> if Fits(base, g) then o.Ok? else o.Raised?
  {
    journaled' := journaled;
    :- fs.Fate();
    o := PublishShardStep(fs, g, recovery, shard, journaled, base);
    if !o.Ok? {
      return;
    }
    o, journaled' := AdvanceObserved(fs, recovery, ShardPublished, journaled, base);
    if !o.Ok? {
      return;
    }
    o, journaled' := PublishManifest(fs, g, recovery, manifest, pointer, journaled', base);
  }

  method PublishManifest(fs: FileSystem<Name, Content>, g: Generation, recovery: RecoveryJournal, manifest: StagedManifest,
                         pointer: Name, ghost journaled: Document, ghost base: Files)
    returns (o: Outcome, ghost journaled': Document)
    requires Open(Rust, fs.disk, recovery.document, journaled, base) && !Accepting(journaled.phase)
    requires recovery.protocol == Rust && recovery.document.phase == ShardPublished
    requires manifest.Valid() && !manifest.published && manifest.backup == None && manifest.temporary != pointer
    requires Waiting(fs.disk, pointer, g.pointer) && Waiting(fs.disk, manifest.temporary, g.manifest)
    modifies fs, recovery, manifest
    ensures manifest.Valid() && fs.faults >= old(fs.faults)
    ensures Open(Rust, fs.disk, recovery.document, journaled', base) && !Accepting(journaled'.phase)
    ensures o.Ok? ==>
      && World(fs.disk) == World(old(fs.disk))[Published(Manifest) := g.manifest]
      && Waiting(fs.disk, pointer, g.pointer) && recovery.document.phase == ManifestPublished
    ensures fs.faults == old(fs.faults) ==> o.Ok?
  {
    journaled' := journaled;
    ghost var was := fs.disk;
    o := PublishManifestStep(Rust, fs, recovery.document, journaled, manifest, base);
    if !o.Ok? {
      return;
    }
    WaitingFrame(was, fs.disk, pointer, g.pointer, {manifest.temporary});
    was := fs.disk;
    assert Follows(Rust, ManifestPublished, ShardPublished);
    o, journaled' := AdvanceObserved(fs, recovery, ManifestPublished, journaled, base);
    WaitingFrame(was, fs.disk, pointer, g.pointer, {});
  }

  /** recovery.advance and the observer behind it, before acceptance. */
  method AdvanceObserved(fs: FileSystem<Name, Content>, recovery: RecoveryJournal, phase: Phase, ghost journaled: Document,
                         ghost base: Files)
    returns (o: Outcome, ghost journaled': Document)
    requires Open(Rust, fs.disk, recovery.document, journaled, base) && recovery.protocol == Rust
    requires !Accepting(journaled.phase) && !Accepting(phase)
    modifies fs, recovery
    ensures Open(Rust, fs.disk, recovery.document, journaled', base) && !Accepting(journaled'.phase)
    ensures World(fs.disk) == World(old(fs.disk)) && ScratchKept(old(fs.disk).Files(), fs.disk.Files(), {})
    ensures fs.faults >= old(fs.faults) && (o.Ok? ==> recovery.document.phase == phase)
    ensures fs.faults == old(fs.faults) && Follows(Rust, phase, old(recovery.document).phase) ==> o.Ok?
  {
    o, journaled' := AdvanceOpen(Rust, fs, recovery, phase, journaled, base);
    if o.Ok? {
      o := fs.Fate();
    }
  }

  /** Publishes the pointer, checks it, and publishes the state. */
  method PublishBindings(fs: FileSystem<Name, Content>, g: Generation, recovery: RecoveryJournal, pointer: Name,
                         ghost journaled: Document, ghost base: Files)
    returns (o: Outcome, ghost journaled': Document)
    requires Open(Rust, fs.disk, recovery.document, journaled, base) && !Accepting(journaled.phase)
    requires Waiting(fs.disk, pointer, g.pointer)
    requires recovery.protocol == Rust && recovery.document.phase == ManifestPublished
    modifies fs, recovery
    ensures fs.faults >= old(fs.faults)
    ensures fs.faults == old(fs.faults) ==> o.Ok?
    ensures o.Ok? ==> recovery.document.phase == PointerPublished
    ensures Open(Rust, fs.disk, recovery.document, journaled', base) && !Accepting(journaled'.phase)
    ensures o.Ok? ==>
      World(fs.disk) == World(old(fs.disk))[Published(Pointer) := g.pointer][Published(State) := g.state]
  {
    o, journaled' := PublishPointer(fs, g, recovery, pointer, journaled, base);
    if !o.Ok? {
      return;
    }
    o := RecordIndexState(Rust, fs, recovery.document, journaled', g.state, base);
    if o.Ok? {
      o := fs.Fate();
    }
  }

  method PublishPointer(fs: FileSystem<Name, Content>, g: Generation, recovery: RecoveryJournal, pointer: Name,
                        ghost journaled: Document, ghost base: Files)
    returns (o: Outcome, ghost journaled': Document)
    requires Open(Rust, fs.disk, recovery.document, journaled, base) && !Accepting(journaled.phase)
    requires Waiting(fs.disk, pointer, g.pointer)
    requires recovery.protocol == Rust && recovery.document.phase == ManifestPublished
    modifies fs, recovery
    ensures Open(Rust, fs.disk, recovery.document, journaled', base) && !Accepting(journaled'.phase)
    ensures fs.faults >= old(fs.faults) && (o.Ok? ==> recovery.document.phase == PointerPublished)
    ensures o.Ok? ==> World(fs.disk) == World(old(fs.disk))[Published(Pointer) := g.pointer]
    ensures fs.faults == old(fs.faults) ==> o.Ok?
  {
    journaled' := journaled;
    o := ReplaceStep(Rust, fs, recovery.document, journaled, pointer, Pointer, base);
    if o.Ok? {
      o := fs.Fate();
    }
    if o.Ok? {
      assert Follows(Rust, PointerPublished, ManifestPublished);
      o, journaled' := AdvanceObserved(fs, recovery, PointerPublished, journaled, base);
    }
  }

  /** Publishing the shard inside an open transaction. */
  method PublishShardStep(fs: FileSystem<Name, Content>, g: Generation, recovery: RecoveryJournal, shard: Name,
                          ghost journaled: Document, ghost base: Files)
    returns (o: Outcome)
    requires Open(Rust, fs.disk, recovery.document, journaled, base) && World(fs.disk) == base
    requires journaled.shard == ShardEntry(g.shardFile, Shard(g.shardFile) in base)
    requires Waiting(fs.disk, shard, g.shard)
    modifies fs
    ensures Open(Rust, fs.disk, recovery.document, journaled, base) && fs.faults >= old(fs.faults)
    ensures ScratchKept(old(fs.disk).Files(), fs.disk.Files(), {shard})
    ensures o.Ok? ==> World(fs.disk) == base[Shard(g.shardFile) := g.shard]
    ensures fs.faults == old(fs.faults) ==> if Fits(base, g) then o.Ok? else o.Raised?
  {
    ghost var was := fs.disk;
    o := PublishShard(fs, shard, g.shardFile);
    if o.Ok? && Shard(g.shardFile) !in base {
      OpenFrame(Rust, was, fs.disk, recovery.document, journaled, base, {Shard(g.shardFile), shard});
      PublishedWorld(was, fs.disk, Shard(g.shardFile), g.shard, {Shard(g.shardFile), shard});
    } else {
      OpenFrame(Rust, was, fs.disk, recovery.document, journaled, base, {shard});
      UntouchedWorld(was, fs.disk, {shard});
    }
  }

  // ---------- The coordinator ----------

  /** Where an attempt stands when it stops, whatever stopped it. */
  ghost predicate Stopped(d: Storage, recovery: Option<Document>, accepted: bool, journaled: Document, base: Files, next: Files) {
    && d.Valid()
    && if accepted then Landed(Rust, d, next)
       else match recovery
         case None => Journal !in d.names && World(d) == base
         case Some(document) => Open(Rust, d, document, journaled, base) && !Accepting(journaled.phase)
  }

  /** Wherever an attempt stops, recovery has decided. */
  lemma StoppedSettles(d: Storage, recovery: Option<Document>, accepted: bool, journaled: Document, base: Files, next: Files)
    requires Stopped(d, recovery, accepted, journaled, base, next)
    ensures Settles(d, if accepted then next else base) && Sound(Rust, d)
  {
    if !accepted && recovery.Some? {
      OpenSettles(Rust, d, recovery.value, journaled, base);
    }
  }

  /** The temporary files of the three staged objects, as far as they were made. */
  method StageAll(fs: FileSystem<Name, Content>, g: Generation)
    returns (o: Outcome, shard: Option<Name>, candidate: Option<Name>, pointer: Option<Name>)
    requires fs.disk.Valid()
    modifies fs
    ensures fs.disk.Valid() && fs.faults >= old(fs.faults)
    ensures Untouched(old(fs.disk).Files(), fs.disk.Files(), {})
    ensures shard.Some? ==> shard.value.Scratch? && shard.value.kind == ShardStage
    ensures candidate.Some? ==> candidate.value.Scratch? && candidate.value.kind == ManifestCandidate
    ensures pointer.Some? ==> pointer.value.Scratch? && pointer.value.kind == PointerStage
    ensures o.Ok? ==>
      && shard.Some? && candidate.Some? && pointer.Some?
      && Waiting(fs.disk, shard.value, g.shard) && Waiting(fs.disk, candidate.value, g.manifest)
      && Waiting(fs.disk, pointer.value, g.pointer)
    ensures fs.faults == old(fs.faults) ==> o.Ok?
  {
    shard, candidate, pointer := None, None, None;
    var temporary;
    :- fs.Fate();
    o, temporary := Stage(fs, ShardStage, g.shard);
    if !o.Ok? {
      return;
    }
    shard := Some(temporary);
    :- fs.Fate();
    o, temporary := Stage(fs, ManifestCandidate, g.manifest);
    if !o.Ok? {
      return;
    }
    candidate := Some(temporary);
    o, temporary := Stage(fs, PointerStage, g.pointer);
    if o.Ok? {
      pointer := Some(temporary);
    }
  }

  /** The staged objects of a run; null and None when a run did not get to them. */
  datatype Staged = Staged(manifest: StagedManifest?, pointer: Option<Name>, shard: Option<Name>) {
    ghost predicate Valid()
      reads manifest
    {
      && (manifest != null ==> manifest.Valid())
      && (pointer.Some? ==> pointer.value.Scratch?)
      && (shard.Some? ==> shard.value.Scratch?)
    }
  }

  ghost function Remembered(recovery: RecoveryJournal?): Option<Document>
    reads recovery
  {
    if recovery == null then None else Some(recovery.document)
  }

  /** The body of the try statement up to the accepted state. */
  method Attempt(fs: FileSystem<Name, Content>, g: Generation, ghost base: Files)
    returns (o: Outcome, recovery: RecoveryJournal?, accepted: bool, staged: Staged, ghost journaled: Document)
    requires fs.disk.Valid() && Journal !in fs.disk.names && World(fs.disk) == base && Shown(base)
    modifies fs
    ensures fs.faults >= old(fs.faults) && staged.Valid()
    ensures staged.manifest != null ==> fresh(staged.manifest)
    ensures recovery != null ==> fresh(recovery) && recovery.protocol == Rust
    ensures Stopped(fs.disk, Remembered(recovery), accepted, journaled, base, Next(base, g))
    ensures o.Ok? <==> accepted
    ensures accepted ==> recovery != null && staged.manifest != null && recovery.document.phase == StatePublished
    ensures accepted ==> Acceptable(Rust, recovery.document)
    ensures fs.faults == old(fs.faults) ==> if Fits(base, g) then o.Ok? else o.Raised?
  {
    recovery, accepted := null, false;
    journaled := Document(Prepared, map[], NoShard);
    ghost var was := fs.disk;
    var shard, candidate, pointer;
    o, shard, candidate, pointer := StageAll(fs, g);
    UntouchedWorld(was, fs.disk, {});
    assert SameAt(was.Files(), fs.disk.Files(), Journal);
    var manifest := null;
    if candidate.Some? {
      manifest := new StagedManifest(candidate.value);
    }
    staged := Staged(manifest, pointer, shard);
    if !o.Ok? {
      return;
    }
    o, recovery := Begin(Rust, fs, Some(g.shardFile));
    if !o.Ok? {
      recovery := null;
      return;
    }
    o, accepted, journaled := Publish(fs, g, recovery, manifest, shard.value, pointer.value, base);
  }

  /** The clean-up after acceptance: nothing here can lose the new generation.
      Each of the two except clauses lets an interrupt pass. */
  method Finish(fs: FileSystem<Name, Content>, recovery: RecoveryJournal, manifest: StagedManifest,
                ghost next: Files)
    returns (o: Outcome, pending: bool)
    requires Landed(Rust, fs.disk, next) && manifest.Valid() && recovery.protocol == Rust
    requires recovery.document.phase == StatePublished && Acceptable(Rust, recovery.document)
    modifies fs, recovery, manifest
    ensures manifest.Valid() && fs.disk.Valid() && fs.faults >= old(fs.faults)
    ensures if pending then Landed(Rust, fs.disk, next) else Journal !in fs.disk.names && World(fs.disk) == next
    ensures fs.faults == old(fs.faults) ==> o.Ok? && !pending
    ensures fs.faults == old(fs.faults) ==> recovery.document.phase == Committing && manifest.backup == None
  {
    pending := true;
    o := RecordCommitting(fs, recovery, next);
    if o.Crashed? {
      return;
    }
    if o.Raised? {
      var interrupt: bool :| true;
      if interrupt {
        return;
      }
    }
    o := CommitManifest(fs, manifest, next);
    if o.Crashed? {
      return;
    }
    ghost var was := fs.disk;
    o := recovery.Commit(fs, recovery.document);
    pending := !o.Ok?;
    assert pending ==> SameAt(was.Files(), fs.disk.Files(), Journal);
    if o.Raised? {
      var interrupt: bool :| true;
      o := if interrupt then Raised else Ok;
    }
  }

  method RecordCommitting(fs: FileSystem<Name, Content>, recovery: RecoveryJournal, ghost next: Files) returns (o: Outcome)
    requires Landed(Rust, fs.disk, next) && recovery.protocol == Rust && Acceptable(Rust, recovery.document)
    modifies fs, recovery
    ensures Landed(Rust, fs.disk, next) && fs.faults >= old(fs.faults)
    ensures fs.faults == old(fs.faults) && old(recovery.document).phase == StatePublished ==> o.Ok?
    ensures o.Ok? ==> recovery.document.phase == Committing
  {
    ghost var was := fs.disk;
    PositionRank(Rust, recovery.document.phase);
    PositionRank(Rust, Committing);
    o := recovery.Advance(fs, Committing);
    if o.Ok? {
      LandedAdvanced(Rust, was, fs.disk, next, recovery.document);
    } else {
      LandedFrame(Rust, was, fs.disk, next, {});
    }
  }

  method CommitManifest(fs: FileSystem<Name, Content>, manifest: StagedManifest, ghost next: Files) returns (o: Outcome)
    requires Landed(Rust, fs.disk, next) && manifest.Valid()
    modifies fs, manifest
    ensures manifest.Valid() && Landed(Rust, fs.disk, next) && fs.faults >= old(fs.faults) && !o.Raised?
    ensures fs.faults == old(fs.faults) ==> o.Ok?
    ensures fs.faults == old(fs.faults) ==> manifest.backup == None
  {
    ghost var was := fs.disk;
    ghost var except := OwnBackup(manifest.backup);
    var clean;
    o, clean := manifest.Commit(fs);
    LandedFrame(Rust, was, fs.disk, next, except);
  }

  /** The finally clause; the first failure skips the rest of it. */
  method CloseAll(fs: FileSystem<Name, Content>, staged: Staged) returns (o: Outcome)
    requires fs.disk.Valid() && staged.Valid()
    modifies fs, staged.manifest
    ensures fs.disk.Valid() && fs.faults >= old(fs.faults)
    ensures World(fs.disk) == World(old(fs.disk)) && SameAt(old(fs.disk).Files(), fs.disk.Files(), Journal)
    ensures forall files :: old(Settles(fs.disk, files)) ==> Settles(fs.disk, files)
    ensures forall p :: old(Sound(p, fs.disk)) ==> Sound(p, fs.disk)
    ensures fs.faults == old(fs.faults) ==> o.Ok?
    ensures o.Ok? ==> Closed(fs.disk.names.Keys, staged) && fs.disk.names.Keys <= old(fs.disk).names.Keys
  {
    o := CloseTemporary(fs, staged.pointer);
    if o.Ok? && staged.manifest != null {
      ghost var was := fs.disk;
      ghost var except := OwnNames(staged.manifest.temporary, staged.manifest.backup);
      o := staged.manifest.Close(fs);
      ClosedFrame(was, fs.disk, except);
    }
    if o.Ok? {
      o := CloseTemporary(fs, staged.shard);
    }
  }

  /** No staged file is left. */
  ghost predicate Closed(names: set<Name>, staged: Staged)
    reads staged.manifest
  {
    && (staged.pointer.Some? ==> staged.pointer.value !in names)
    && (staged.shard.Some? ==> staged.shard.value !in names)
    && (staged.manifest != null && !staged.manifest.published ==> staged.manifest.temporary !in names)
  }

  method CloseTemporary(fs: FileSystem<Name, Content>, temporary: Option<Name>) returns (o: Outcome)
    requires fs.disk.Valid() && (temporary.Some? ==> temporary.value.Scratch?)
    modifies fs
    ensures fs.disk.Valid() && fs.faults >= old(fs.faults)
    ensures World(fs.disk) == World(old(fs.disk)) && SameAt(old(fs.disk).Files(), fs.disk.Files(), Journal)
    ensures forall files :: old(Settles(fs.disk, files)) ==> Settles(fs.disk, files)
    ensures forall p :: old(Sound(p, fs.disk)) ==> Sound(p, fs.disk)
    ensures fs.faults == old(fs.faults) ==> o.Ok?
    ensures o.Ok? && temporary.Some? ==> temporary.value !in fs.disk.names
    ensures fs.disk.names.Keys <= old(fs.disk).names.Keys
  {
    o := Ok;
    if temporary.Some? {
      ghost var was := fs.disk;
      o := fs.Unlink(temporary.value);
      ClosedFrame(was, fs.disk, {temporary.value});
    }
  }

  /** The except clause: an accepted generation stays, any other one is rolled back. */
  method Handle(fs: FileSystem<Name, Content>, recovery: RecoveryJournal?, accepted: bool, ghost journaled: Document,
                ghost base: Files, ghost next: Files)
    returns (o: Outcome)
    requires Shown(base) && (recovery != null ==> recovery.protocol == Rust) && (accepted ==> recovery != null)
    requires Stopped(fs.disk, Remembered(recovery), accepted, journaled, base, next)
    modifies fs, recovery
    ensures Settles(fs.disk, if accepted then next else base) && fs.faults >= old(fs.faults)
    ensures accepted ==> Sound(Rust, fs.disk)
    ensures o.Ok? ==> Journal !in fs.disk.names
    ensures o.Raised? ==> Journal in fs.disk.names
    ensures fs.faults == old(fs.faults) ==> o.Ok?
  {
    o := Ok;
    ghost var was := fs.disk;
    if accepted {
      o := recovery.Commit(fs, recovery.document);
      assert !o.Ok? ==> SameAt(was.Files(), fs.disk.Files(), Journal);
    } else if recovery != null {
      CompleteIntact(fs.disk, journaled, base);
      ghost var rest;
      o, rest := recovery.Rollback(fs, journaled, base);
    }
  }

  /** RustRefreshCoordinator.refresh, called by the owner of the project lease.

      Recovery has decided for `current` on the disk that it meets, whatever an
      earlier run left there.  However this run ends, a crash included, recovery
      has decided for `current` or for the new generation on the disk it leaves;
      the status says for which.  Without faults the outcome is determined.
      Interrupts are raised again; they show here as one more fault.  A single fault,
      a crash or anything else, leaves a disk that recovery completes, unless it
      strikes a recovery that goes back or a shard differs. */
  method Refresh(fs: FileSystem<Name, Content>, g: Generation, ghost current: Files) returns (o: Outcome, status: Status)
    requires Settles(fs.disk, current) && Shown(current)
    modifies fs
    ensures InTransit(fs.disk, current, Next(current, g)) && fs.faults >= old(fs.faults)
    ensures o.Ok? && status.Refreshed? ==>
      && Settles(fs.disk, Next(current, g)) && World(fs.disk) == Next(current, g)
      && (status.recoveryPending <==> Journal in fs.disk.names)
    ensures o.Ok? && status == Failed(true) ==>
      && Settles(fs.disk, current)
      && if Journal in fs.disk.names then SameAt(old(fs.disk).Files(), fs.disk.Files(), Journal) else World(fs.disk) == current
    ensures o.Ok? && status == Failed(false) && Journal !in fs.disk.names ==> World(fs.disk) == Next(current, g)
    ensures fs.faults == old(fs.faults) ==>
      o.Ok? && status == if Recoverable(Rust, old(fs.disk)) && Fits(current, g) then Refreshed(false) else Failed(true)
    ensures fs.faults == old(fs.faults) ==>
      if Recoverable(Rust, old(fs.disk)) then Journal !in fs.disk.names
      else Stuck(Rust, old(fs.disk), fs.disk, current)
    ensures fs.faults <= old(fs.faults) + 1 && Fits(current, g) && Sound(Rust, old(fs.disk)) && !Going(old(fs.disk), fs.disk) ==>
      Sound(Rust, fs.disk)
  {
    status := Failed(true);
    o := Recover(Rust, fs, current);
    if !o.Ok? {
      if o.Raised? {
        o := fs.Fate();
      }
      return;
    }
    o, status := Run(fs, g, current);
  }

  /** What follows a completed recovery. */
  method Run(fs: FileSystem<Name, Content>, g: Generation, ghost current: Files) returns (o: Outcome, status: Status)
    requires fs.disk.Valid() && Journal !in fs.disk.names && World(fs.disk) == current && Shown(current)
    modifies fs
    ensures InTransit(fs.disk, current, Next(current, g)) && fs.faults >= old(fs.faults)
    ensures o.Ok? && status.Refreshed? ==>
      && Settles(fs.disk, Next(current, g)) && World(fs.disk) == Next(current, g)
      && (status.recoveryPending <==> Journal in fs.disk.names)
    ensures o.Ok? && status == Failed(true) ==> Journal !in fs.disk.names && World(fs.disk) == current
    ensures o.Ok? && status == Failed(false) && Journal !in fs.disk.names ==> World(fs.disk) == Next(current, g)
    ensures fs.faults == old(fs.faults) ==>
      o.Ok? && status == (if Fits(current, g) then Refreshed(false) else Failed(true)) && Journal !in fs.disk.names
    ensures fs.faults <= old(fs.faults) + 1 && Fits(current, g) ==> Sound(Rust, fs.disk)
  {
    status := Failed(true);
    var recovery, accepted, staged;
    ghost var journaled;
    o, recovery, accepted, staged, journaled := Attempt(fs, g, current);
    StoppedSettles(fs.disk, Remembered(recovery), accepted, journaled, current, Next(current, g));
    if o.Crashed? {
      return;
    }
    o, status := Conclude(fs, recovery, accepted, staged, journaled, current, Next(current, g));
    if o.Crashed? {
      return;
    }
    var closed := CloseAll(fs, staged);
    o := if closed.Ok? then o else closed;
  }

  /** What follows an attempt that returned or raised: the clean-up after acceptance,
      and the except clause for a failure in either. */
  method Conclude(fs: FileSystem<Name, Content>, recovery: RecoveryJournal?, accepted: bool, staged: Staged,
                  ghost journaled: Document, ghost base: Files, ghost next: Files)
    returns (o: Outcome, status: Status)
    requires Shown(base) && staged.Valid() && (recovery != null ==> recovery.protocol == Rust)
    requires Stopped(fs.disk, Remembered(recovery), accepted, journaled, base, next)
    requires accepted ==> recovery != null && staged.manifest != null && recovery.document.phase == StatePublished
    requires accepted ==> Acceptable(Rust, recovery.document)
    modifies fs, recovery, staged.manifest
    ensures Settles(fs.disk, if accepted then next else base) && fs.faults >= old(fs.faults) && staged.Valid()
    ensures accepted ==> Sound(Rust, fs.disk)
    ensures o.Ok? && status.Refreshed? ==>
      accepted && World(fs.disk) == next && (status.recoveryPending <==> Journal in fs.disk.names)
    ensures o.Ok? && status == Failed(true) ==> Journal !in fs.disk.names && World(fs.disk) == base
    ensures o.Ok? && status == Failed(false) && Journal !in fs.disk.names ==> accepted && World(fs.disk) == next
    ensures fs.faults == old(fs.faults) ==>
      o.Ok? && Journal !in fs.disk.names && status == if accepted then Refreshed(false) else Failed(true)
  {
    status := Failed(true);
    o := Raised;
    var pending := true;
    if accepted {
      o, pending := Finish(fs, recovery, staged.manifest, next);
      status := Refreshed(pending);
    }
    if o.Raised? {
      o, status := Except(fs, recovery, accepted, pending, journaled, base, next);
    }
  }

  /** The whole except clause.  `pending` tells that the journal is still in hand. */
  method Except(fs: FileSystem<Name, Content>, recovery: RecoveryJournal?, accepted: bool, pending: bool,
                ghost journaled: Document, ghost base: Files, ghost next: Files)
    returns (o: Outcome, status: Status)
    requires Shown(base) && (recovery != null ==> recovery.protocol == Rust) && (accepted ==> recovery != null)
    requires if pending then Stopped(fs.disk, Remembered(recovery), accepted, journaled, base, next)
             else accepted && fs.disk.Valid() && Journal !in fs.disk.names && World(fs.disk) == next
    modifies fs, recovery
    ensures Settles(fs.disk, if accepted then next else base) && fs.faults >= old(fs.faults)
    ensures accepted ==> Sound(Rust, fs.disk)
    ensures o.Ok? ==> status.Failed? && (status.previousGenerationPreserved ==> !accepted)
    ensures o.Ok? && status == Failed(true) ==> Journal !in fs.disk.names && World(fs.disk) == base
    ensures o.Ok? && status == Failed(false) && Journal !in fs.disk.names ==> accepted && World(fs.disk) == next
    ensures fs.faults == old(fs.faults) ==> o.Ok? && status == Failed(!accepted) && Journal !in fs.disk.names
  {
    status := Failed(false);
    var rollback := Ok;
    if pending {
      rollback := Handle(fs, recovery, accepted, journaled, base, next);
      if rollback.Crashed? {
        return Crashed, status;
      }
    }
    o := fs.Fate();
    status := Failed(!accepted && rollback.Ok?);
  }

  // ---------- The flag of a failed run ----------

  /** A run has replaced manifest, pointer and state of a generation whose shard it
      shares, and its next step has failed. */
  const Interrupted := Document(PointerPublished,
                                map[Manifest := Entry(true, Some(0)), Pointer := Entry(true, Some(1)), State := Entry(true, Some(2))],
                                ShardEntry("shard", true))

  const Replaced: Storage := Disk(
    map[Published(Manifest) := 0, Published(Pointer) := 1, Published(State) := 2, Backup(Manifest, 0) := 3,
        Backup(Pointer, 1) := 4, Backup(State, 2) := 5, Shard("shard") := 6, Journal := 7],
    map[0 := Data("manifest 1"), 1 := Data("pointer 1"), 2 := Data("state 1"), 3 := Data("manifest 0"),
        4 := Data("pointer 0"), 5 := Data("state 0"), 6 := Data("shard"), 7 := Record(Interrupted)],
    8)

  const Earlier: Files := map[Published(Manifest) := Data("manifest 0"), Published(Pointer) := Data("pointer 0"),
                              Published(State) := Data("state 0"), Shard("shard") := Data("shard")]

  /** The content of a name on that disk. */
  ghost predicate Holds(n: Name, c: Content) {
    Replaced.Valid() && n in Replaced.names && Replaced.Files()[n] == c
  }

  lemma ReplacedFiles()
    ensures Replaced.Valid() && Journaled(Replaced, Interrupted)
    ensures Holds(Published(Manifest), Data("manifest 1"))
    ensures Holds(Backup(Manifest, 0), Data("manifest 0"))
    ensures Holds(Backup(Pointer, 1), Data("pointer 0"))
    ensures Holds(Backup(State, 2), Data("state 0"))
    ensures Holds(Shard("shard"), Data("shard"))
    ensures forall n: Name | n.Shard? && n in Replaced.names :: n == Shard("shard")
    ensures forall l: Label | Published(l) in Replaced.names :: l in Interrupted.artifacts
  {
  }

  lemma ReplacedOpen()
    ensures Open(Rust, Replaced, Interrupted, Interrupted, Earlier)
  {
    ReplacedFiles();
    forall n: Name | n.Published? || n.Shard?
      ensures WayBack(Replaced.Files(), Interrupted, Earlier, n)
    {
    }
    forall l | l in Interrupted.artifacts
      ensures EntryComplete(Replaced.names.Keys, Interrupted.artifacts[l], l) && Consistent(Interrupted.artifacts[l], l)
    {
    }
  }

  /** The rollback of that run begins with the state: its backup moves, and then the
      process dies. */
  ghost function Mixture(): (d: Storage)
    ensures Replaced.Valid() && Backup(State, 2) in Replaced.names
    ensures d == Replaced.Renamed(Backup(State, 2), Published(State)) && d.Valid()
    ensures Backup(State, 2) !in d.names
  {
    ReplacedFiles();
    Replaced.Renamed(Backup(State, 2), Published(State))
  }

  lemma MixtureMoved()
    ensures Open(Rust, Replaced, Interrupted, Interrupted, Earlier) && Rust.Labels()[|Rust.Labels()| - 1] == State
    ensures Backup(State, 2) in Replaced.names && Mixture() == Replaced.Renamed(Backup(State, 2), Published(State))
    ensures BackedUp(Mixture(), Interrupted, Earlier) && Intact(Mixture(), Interrupted, Earlier)
    ensures OnlyArtifact(Replaced.Files(), Mixture().Files(), State)
  {
    ReplacedOpen();
    CompleteIntact(Replaced, Interrupted, Earlier);
    RestoreStep(Replaced, Mixture(), Interrupted, Earlier, State);
    IntactStep(Replaced, Mixture(), Interrupted, Earlier, State);
  }

  lemma MixtureJournaled()
    ensures Journaled(Mixture(), Interrupted)
  {
    ReplacedFiles();
    var d := Mixture();
    assert d.names[Journal] == Replaced.names[Journal];
  }

  lemma MixtureSettles()
    ensures Settles(Mixture(), Earlier)
  {
    MixtureJournaled();
    MixtureMoved();
  }

  lemma MixtureBackups()
    ensures EntryComplete(Mixture().names.Keys, Interrupted.artifacts[Manifest], Manifest)
    ensures EntryComplete(Mixture().names.Keys, Interrupted.artifacts[Pointer], Pointer)
    ensures !EntryComplete(Mixture().names.Keys, Interrupted.artifacts[State], State)
  {
    ReplacedFiles();
    MixtureMoved();
    assert SameAt(Replaced.Files(), Mixture().Files(), Backup(Manifest, 0));
    assert SameAt(Replaced.Files(), Mixture().Files(), Backup(Pointer, 1));
  }

  lemma MixtureStuck(rest: nat)
    ensures Acceptable(Rust, Interrupted) && !Complete(Mixture().names.Keys, Interrupted)
    ensures StuckAt(Mixture(), Interrupted, Rust, rest) <==> rest == 3
    ensures Elements(Rust.Labels()[3..]) == {}
  {
    MixtureBackups();
    ReplacedOpen();
  }

  /** A recovery without faults stops there at once and changes nothing. */
  lemma MixtureStays()
    ensures Stuck(Rust, Mixture(), Mixture(), Earlier)
  {
    MixtureStuck(3);
    MixtureJournaled();
    forall n: Name | n.Published? || n.Shard?
      ensures RestoredAt(Mixture().Files(), Mixture().Files(), {}, Earlier, n)
    {
    }
  }

  /** On this disk a refresh without faults fails, because recovery misses the
      backup that has already moved; it reports that the previous generation is
      preserved, and leaves the files of two generations behind its journal. */
  lemma PreservedMixture(d: Storage)
    requires d.Valid() && Stuck(Rust, Mixture(), d, Earlier)
    ensures Settles(Mixture(), Earlier) && !Recoverable(Rust, Mixture()) && Journal in d.names
    ensures Published(Manifest) in d.names && d.Files()[Published(Manifest)] == Data("manifest 1")
    ensures Published(State) in d.names && d.Files()[Published(State)] == Data("state 0")
  {
    MixtureSettles();
    MixtureStuck(3);
    MixtureJournaled();
    MixtureShows();
    MixtureKept(d);
    assert RestoredAt(Mixture().Files(), d.Files(), {}, Earlier, Published(Manifest));
    assert RestoredAt(Mixture().Files(), d.Files(), {}, Earlier, Published(State));
  }

  lemma MixtureKept(d: Storage)
    requires d.Valid() && Stuck(Rust, Mixture(), d, Earlier)
    ensures Restored(Mixture().Files(), d.Files(), {}, Earlier)
  {
    MixtureJournaled();
    MixtureStuck(3);
    var rest: nat :| StuckAt(Mixture(), Interrupted, Rust, rest)
                  && Restored(Mixture().Files(), d.Files(), Elements(Rust.Labels()[rest..]), Earlier);
    MixtureStuck(rest);
  }

  lemma MixtureShows()
    ensures Published(Manifest) in Mixture().names && Mixture().Files()[Published(Manifest)] == Data("manifest 1")
    ensures Published(State) in Mixture().names && Mixture().Files()[Published(State)] == Data("state 0")
  {
    ReplacedFiles();
    assert SameAt(Replaced.Files(), Mixture().Files(), Published(Manifest));
  }

  // ---------- Every history ----------

  /** The published files are those of one generation: a manifest, a pointer and
      a state together with the shard they name. */
  ghost predicate Shows(files: Files, g: Generation) {
    && Published(Manifest) in files && files[Published(Manifest)] == g.manifest
    && Published(Pointer) in files && files[Published(Pointer)] == g.pointer
    && Published(State) in files && files[Published(State)] == g.state
    && Shard(g.shardFile) in files && files[Shard(g.shardFile)] == g.shard
  }

  /** What the requests numbered in `effective` make of `first`, one after another. */
  ghost function Applied(first: Files, generations: seq<Generation>, effective: seq<nat>): (files: Files)
    requires Ordered(effective, |generations|)
    ensures effective != [] ==> Shows(files, generations[effective[|effective| - 1]])
    ensures Shown(first) ==> Shown(files)
  {
    if effective == [] then first
    else
      var last := |effective| - 1;
      Next(Applied(first, generations, effective[..last]), generations[effective[last]])
  }

  lemma AppliedMore(first: Files, generations: seq<Generation>, effective: seq<nat>, i: nat, effect: bool)
    requires i < |generations| && Ordered(effective, |generations|) && Ordered(Extended(effective, i, effect), |generations|)
    ensures Applied(first, generations, Extended(effective, i, effect)) ==
      if effect then Next(Applied(first, generations, effective), generations[i]) else Applied(first, generations, effective)
  {
    assert (effective + [i])[..|effective|] == effective;
  }

  /** One refresh or one explicit recovery. */
  method Serve(fs: FileSystem<Name, Content>, g: Generation, ghost current: Files) returns (reply: Reply, ghost effect: bool)
    requires Settles(fs.disk, current) && Shown(current)
    modifies fs
    ensures Settles(fs.disk, if effect then Next(current, g) else current) && reply.Tells(effect)
  {
    var restart: bool :| true;
    if restart {
      var recovered := Recover(Rust, fs, current);
      return Preserved, false;
    }
    var o, status := Refresh(fs, g, current);
    reply := if !o.Ok? then Unknown
             else match status
               case Refreshed(_) => Acknowledged
               case Failed(preserved) => if preserved then Preserved else Unknown;
    effect := reply.Acknowledged? || (reply.Unknown? && !Settles(fs.disk, current));
  }

  /** Any number of refreshes and explicit recoveries, each of which may end in
      success, in failure, or in a crash at any of its steps, is a sequence of
      whole refreshes: some of the requests took effect, in their order and each
      on top of the one before, among them every one that was acknowledged and
      none that was reported as preserved.  Recovery has decided for the last of
      them, and without a journal the disk shows it. */
  method History(fs: FileSystem<Name, Content>, generations: seq<Generation>, ghost first: Files)
    returns (replies: seq<Reply>, ghost effective: seq<nat>)
    requires Settles(fs.disk, first) && Shown(first)
    modifies fs
    ensures |replies| == |generations| && Ordered(effective, |generations|) && Truthful(replies, effective)
    ensures Settles(fs.disk, Applied(first, generations, effective))
  {
    replies, effective := [], [];
    for i := 0 to |generations|
      invariant |replies| == i && Ordered(effective, i) && Truthful(replies, effective)
      invariant Settles(fs.disk, Applied(first, generations, effective))
    {
      ghost var effect;
      var reply;
      reply, effect := Serve(fs, generations[i], Applied(first, generations, effective));
      TruthfulMore(replies, effective, reply, effect);
      replies := replies + [reply];
      AppliedMore(first, generations, effective, i, effect);
      effective := Extended(effective, i, effect);
    }
  }
}
