/**
 The publication journal shared by the two refresh coordinators.

 A refresh publishes several files one after another.  Before the first one it
 hard-links every old file to a backup and writes a journal that names the
 backups and the phase reached.  The Rust and the Python/TypeScript journals
 have the same backup, restore, discard, advance, rollback and commit steps and
 differ in the files they protect and in their list of phases (`Protocol`).
 */
module Publication {
  import opened Basics
  import opened FileSystems

  datatype Label = Provider | Sidecar | Manifest | Pointer | State

  /** The kinds of temporary files and private backups, by file name prefix. */
  datatype Kind =
    | JournalTemporary | ManifestCandidate | ManifestBackup | RegistrationStage | RegistrationBackup
    | ProviderStage | ProviderBackup | PointerStage | ShardStage | StateTemporary | RestoreTemporary

  /** File names.  Backups belong to a journal; scratch names are the temporary
      files and private backups of one process, which no journal mentions. */
  datatype Name =
    | Published(artifact: Label)
    | Shard(file: string)
    | Journal
    | Backup(artifact: Label, suffix: nat)
    | Scratch(kind: Kind, suffix: nat)

  datatype Content = Data(bytes: string) | Record(document: Document)

  type Files = map<Name, Content>
  type Storage = Disk<Name, Content>

  datatype Phase =
    | Prepared | ShardPublished | ProviderIndexed | ProviderValidated | CandidateReady
    | SidecarPublished | ManifestPublished | PointerPublished | StatePublished
    | GenerationActivated | Committing

  datatype Entry = Entry(existed: bool, backup: Option<nat>)
  datatype ShardEntry = NoShard | ShardEntry(file: string, existed: bool)
  datatype Document = Document(phase: Phase, artifacts: map<Label, Entry>, shard: ShardEntry)

  datatype Protocol = Rust | Standard {
    /** The labels in the order in which their backups are taken. */
    function Labels(): (labels: seq<Label>)
      ensures forall i, j | 0 <= i < j < |labels| :: labels[i] != labels[j]
    {
      match this
      case Rust => [Manifest, Pointer, State]
      case Standard => [Provider, Sidecar, Manifest, State]
    }

    function Phases(): seq<Phase> {
      match this
      case Rust => [Prepared, ShardPublished, ManifestPublished, PointerPublished, StatePublished, Committing]
      case Standard => [Prepared, ProviderIndexed, ProviderValidated, CandidateReady, SidecarPublished,
                        ManifestPublished, StatePublished, GenerationActivated, Committing]
    }

    /** The staging files that recovery recognizes by name. */
    predicate Owns(n: Name) {
      match n
      case Backup(l, _) => l in Labels()
      case Scratch(kind, _) =>
        (match this
         case Rust => kind in {ManifestCandidate, ManifestBackup, PointerStage, JournalTemporary, ShardStage}
         case Standard => kind in {ManifestCandidate, ManifestBackup, RegistrationBackup, RegistrationStage,
                                   JournalTemporary, ProviderBackup})
      case _ => false
    }

    /** The index of a phase, or the length of the list when it is foreign. */
    function Rank(phase: Phase): (r: nat)
      ensures r <= |Phases()|
      ensures r < |Phases()| <==> phase in Phases()
      ensures r < |Phases()| ==> Phases()[r] == phase
    {
      IndexOf(Phases(), phase)
    }
  }

  predicate Accepting(phase: Phase) {
    phase in {StatePublished, GenerationActivated, Committing}
  }

  // ---------- What a disk shows ----------

  /** The published files: what queries read. */
  ghost function World(d: Storage): Files
    requires d.Valid()
  {
    map n | n in d.names && (n.Published? || n.Shard?) :: d.Files()[n]
  }

  /** The same content, or none, behind a name. */
  ghost predicate SameAt(a: Files, b: Files, n: Name) {
    && (n in a <==> n in b)
    && (n in a ==> a[n] == b[n])
  }

  /** The same file, not just the same content, behind a name. */
  ghost predicate SameInode(d: Storage, d': Storage, n: Name) {
    && (n in d.names <==> n in d'.names)
    && (n in d.names ==> d.names[n] == d'.names[n])
  }

  /** Outside `except`, only new scratch files may have appeared. */
  ghost predicate Untouched(a: Files, b: Files, except: set<Name>) {
    && (forall n: Name | !n.Scratch? && n !in except :: SameAt(a, b, n))
    && ScratchKept(a, b, except)
  }

  ghost predicate ScratchKept(a: Files, b: Files, except: set<Name>) {
    forall n: Name | n.Scratch? && n !in except && n in a :: n in b && b[n] == a[n]
  }

  ghost predicate Journaled(d: Storage, document: Document)
    requires d.Valid()
  {
    Journal in d.Files() && d.Files()[Journal] == Record(document)
  }

  /** The backups that are still there, and everything that `document` does not
      protect, are those of `before`.  A protected file may hold anything. */
  ghost predicate BackedUp(d: Storage, document: Document, before: Files)
    requires d.Valid()
  {
    forall n: Name | n.Published? || n.Shard? :: WayBack(d.Files(), document, before, n)
  }

  ghost predicate WayBack(files: Files, document: Document, before: Files, n: Name)
    requires n.Published? || n.Shard?
  {
    match n
    case Published(l) =>
      if l in document.artifacts then EntryBackedUp(files, document.artifacts[l], l, before) else SameAt(files, before, n)
    case Shard(f) =>
      if document.shard == ShardEntry(f, false) then n !in before else SameAt(files, before, n)
  }

  ghost predicate EntryBackedUp(files: Files, e: Entry, l: Label, before: Files) {
    && (e.existed <==> Published(l) in before)
    && (e.existed ==>
          && e.backup.Some?
          && (Backup(l, e.backup.value) in files ==> files[Backup(l, e.backup.value)] == before[Published(l)]))
  }

  /** Where a backup is gone, the artifact is already the one of `before`. */
  ghost predicate Intact(d: Storage, document: Document, before: Files)
    requires d.Valid()
  {
    forall l | l in document.artifacts :: EntryIntact(d, document.artifacts[l], l, before)
  }

  ghost predicate EntryIntact(d: Storage, e: Entry, l: Label, before: Files)
    requires d.Valid()
  {
    EntryComplete(d.names.Keys, e, l) || SameAt(d.Files(), before, Published(l))
  }

  /** The journal makes recovery go back. */
  ghost predicate GoesBack(d: Storage)
    requires d.Valid()
  {
    Journal in d.names && d.Files()[Journal].Record? && !Accepting(d.Files()[Journal].document.phase)
  }

  /** Recovery has decided for `files`: the disk already shows them and keeps them,
      or the journal leads back to them and every byte of them is still there. */
  ghost predicate Settles(d: Storage, files: Files) {
    && d.Valid()
    && if Journal !in d.names then World(d) == files
       else
         && d.Files()[Journal].Record?
         && var document := d.Files()[Journal].document;
            if Accepting(document.phase) then World(d) == files
            else BackedUp(d, document, files) && Intact(d, document, files)
  }

  /** A disk decides for one generation only. */
  lemma SettlesOnce(d: Storage, a: Files, b: Files)
    requires Settles(d, a) && Settles(d, b)
    requires forall n | n in a :: n.Published? || n.Shard?
    requires forall n | n in b :: n.Published? || n.Shard?
    ensures a == b
  {
    if GoesBack(d) {
      forall n: Name
        ensures n in a <==> n in b
        ensures n in a ==> a[n] == b[n]
      {
        if n.Published? || n.Shard? {
          DecidedAt(d, a, b, n);
        }
      }
    }
  }

  lemma DecidedAt(d: Storage, a: Files, b: Files, n: Name)
    requires Settles(d, a) && Settles(d, b) && GoesBack(d) && (n.Published? || n.Shard?)
    ensures SameAt(a, b, n)
  {
    var document := d.Files()[Journal].document;
    assert WayBack(d.Files(), document, a, n) && WayBack(d.Files(), document, b, n);
    if n.Published? && n.artifact in document.artifacts {
      var e := document.artifacts[n.artifact];
      assert EntryIntact(d, e, n.artifact, a) && EntryIntact(d, e, n.artifact, b);
    }
  }

  /** A disk on which a refresh that turns `before` into `after` may have been
      cut short anywhere: recovery has decided for one of the two. */
  ghost predicate InTransit(d: Storage, before: Files, after: Files) {
    Settles(d, before) || Settles(d, after)
  }

  /** What the journal protects is at rest: an artifact with a backup is that
      backup, one recorded as absent is absent, and so is a new shard. */
  ghost predicate AtRest(d: Storage)
    requires d.Valid() && Journal in d.names && d.Files()[Journal].Record?
  {
    && var document := d.Files()[Journal].document;
    && (forall l | l in document.artifacts :: EntryAtRest(d.Files(), document.artifacts[l], l))
    && (document.shard.ShardEntry? && !document.shard.existed ==> Shard(document.shard.file) !in d.names)
  }

  ghost predicate EntryAtRest(files: Files, e: Entry, l: Label) {
    if !e.existed then Published(l) !in files
    else e.backup.Some? && Backup(l, e.backup.value) in files ==>
      Published(l) in files && files[Published(l)] == files[Backup(l, e.backup.value)]
  }

  /** A disk shows what recovery has decided for exactly when no journal is left,
      when the journal accepts, or when everything that it protects is at rest. */
  lemma ShowsDecided(d: Storage, files: Files)
    requires Settles(d, files) && forall n | n in files :: n.Published? || n.Shard?
    ensures World(d) == files <==> (GoesBack(d) ==> AtRest(d))
  {
    if GoesBack(d) {
      var document := d.Files()[Journal].document;
      forall l | l in document.artifacts
        ensures SameAt(d.Files(), files, Published(l)) <==> EntryAtRest(d.Files(), document.artifacts[l], l)
      {
        assert WayBack(d.Files(), document, files, Published(l));
        assert EntryIntact(d, document.artifacts[l], l, files);
      }
      if AtRest(d) {
        RestoredWorld(d, document, files);
      }
      if World(d) == files {
        forall l | l in document.artifacts
          ensures EntryAtRest(d.Files(), document.artifacts[l], l)
        {
          assert SameAt(World(d), files, Published(l));
        }
        if document.shard.ShardEntry? && !document.shard.existed {
          assert WayBack(d.Files(), document, files, Shard(document.shard.file));
        }
      }
    }
  }

  // ---------- Frame lemmas ----------

  /** Publishing files protected by the journal, and scratch work, keep the way
      back to `before`. */
  lemma BackedUpFrame(d: Storage, d': Storage, document: Document, before: Files, except: set<Name>)
    requires d.Valid() && d'.Valid() && BackedUp(d, document, before)
    requires Untouched(d.Files(), d'.Files(), except)
    requires forall n | n in except :: Replaceable(document, n)
    ensures BackedUp(d', document, before)
    ensures Complete(d.names.Keys, document) ==> Complete(d'.names.Keys, document)
  {
    forall n: Name | n.Published? || n.Shard?
      ensures WayBack(d'.Files(), document, before, n)
    {
      assert WayBack(d.Files(), document, before, n);
      if n.Published? && n.artifact in document.artifacts {
        EntryFrame(d.Files(), d'.Files(), document.artifacts[n.artifact], n.artifact, except);
      } else if n !in except {
        assert SameAt(d.Files(), d'.Files(), n);
      }
    }
    if Complete(d.names.Keys, document) {
      forall l | l in document.artifacts
        ensures EntryComplete(d'.names.Keys, document.artifacts[l], l)
      {
        assert EntryComplete(d.names.Keys, document.artifacts[l], l);
        EntryFrame(d.Files(), d'.Files(), document.artifacts[l], l, except);
      }
    }
  }

  lemma EntryFrame(a: Files, b: Files, e: Entry, l: Label, except: set<Name>)
    requires Untouched(a, b, except) && forall n | n in except :: !n.Backup?
    ensures e.backup.Some? ==> SameAt(a, b, Backup(l, e.backup.value))
  {
  }

  /** The names a journal lets its refresh replace. */
  predicate Replaceable(document: Document, n: Name) {
    match n
    case Published(l) => l in document.artifacts
    case Shard(f) => document.shard == ShardEntry(f, false)
    case Journal => true
    case Backup(_, _) => false
    case Scratch(_, _) => true
  }

  /** Only the published names decide what a disk shows. */
  lemma WorldFrame(d: Storage, d': Storage)
    requires d.Valid() && d'.Valid()
    requires forall n: Name | n.Published? || n.Shard? :: SameAt(d.Files(), d'.Files(), n)
    ensures World(d) == World(d')
  {
    forall n: Name
      ensures n in World(d) <==> n in World(d')
      ensures n in World(d) ==> World(d)[n] == World(d')[n]
    {
      if n.Published? || n.Shard? {
        assert SameAt(d.Files(), d'.Files(), n);
      }
    }
  }

  lemma SameWorld(d: Storage, d': Storage)
    requires d.Valid() && d'.Valid() && World(d) == World(d')
    ensures forall n: Name | n.Published? || n.Shard? :: SameAt(d.Files(), d'.Files(), n)
  {
    forall n: Name | n.Published? || n.Shard?
      ensures SameAt(d.Files(), d'.Files(), n)
    {
      assert n in d.names <==> n in World(d);
      assert n in d'.names <==> n in World(d');
    }
  }

  /** Restored everywhere, a disk shows `before`. */
  lemma RestoredWorld(d: Storage, document: Document, before: Files)
    requires d.Valid() && BackedUp(d, document, before)
    requires forall n | n in before :: n.Published? || n.Shard?
    requires forall l | l in document.artifacts :: SameAt(d.Files(), before, Published(l))
    requires document.shard.ShardEntry? && !document.shard.existed ==> Shard(document.shard.file) !in d.names
    ensures World(d) == before
  {
    forall n: Name
      ensures n in World(d) <==> n in before
      ensures n in World(d) ==> World(d)[n] == before[n]
    {
      if n.Published? || n.Shard? {
        assert WayBack(d.Files(), document, before, n);
        assert n.Published? && n.artifact in document.artifacts ==> SameAt(d.Files(), before, n);
      }
    }
  }

  /** Every backup that a restore needs is still there. */
  ghost predicate Complete(names: set<Name>, document: Document)
  {
    forall l | l in document.artifacts :: EntryComplete(names, document.artifacts[l], l)
  }

  predicate EntryComplete(names: set<Name>, e: Entry, l: Label) {
    e.existed ==> e.backup.Some? && Backup(l, e.backup.value) in names
  }

  /** Only the destination of `l` and its backups may differ. */
  ghost predicate OnlyArtifact(a: Files, b: Files, l: Label) {
    forall n: Name | n != Published(l) && !(n.Backup? && n.artifact == l) :: SameAt(a, b, n)
  }

  /** Backups may have gone; nothing else differs. */
  ghost predicate Discarded(a: Files, b: Files) {
    && (forall n: Name | !n.Backup? :: SameAt(a, b, n))
    && (forall n: Name | n.Backup? && n in b :: n in a && a[n] == b[n])
  }

  lemma BackedUpDiscarded(d: Storage, d': Storage, document: Document, before: Files)
    requires d.Valid() && d'.Valid() && BackedUp(d, document, before)
    requires Discarded(d.Files(), d'.Files())
    ensures BackedUp(d', document, before)
  {
    forall n: Name | n.Published? || n.Shard?
      ensures WayBack(d'.Files(), document, before, n)
    {
      assert WayBack(d.Files(), document, before, n) && SameAt(d.Files(), d'.Files(), n);
    }
  }

  /** Restoring one artifact keeps the way back for all of them. */
  lemma BackedUpRestored(d: Storage, d': Storage, document: Document, before: Files, l: Label)
    requires d.Valid() && d'.Valid() && BackedUp(d, document, before)
    requires l in document.artifacts && OnlyArtifact(d.Files(), d'.Files(), l)
    requires forall n: Name | n.Backup? && n in d'.Files() :: n in d.Files() && d'.Files()[n] == d.Files()[n]
    ensures BackedUp(d', document, before)
  {
    forall n: Name | n.Published? || n.Shard?
      ensures WayBack(d'.Files(), document, before, n)
    {
      assert WayBack(d.Files(), document, before, n);
      assert n != Published(l) ==> SameAt(d.Files(), d'.Files(), n);
    }
    forall m: Label | m !in document.artifacts
      ensures SameAt(d'.Files(), before, Published(m))
    {
      assert SameAt(d.Files(), before, Published(m)) && SameAt(d.Files(), d'.Files(), Published(m));
    }
    forall f | !(document.shard.ShardEntry? && f == document.shard.file && !document.shard.existed)
      ensures SameAt(d'.Files(), before, Shard(f))
    {
      assert SameAt(d.Files(), before, Shard(f)) && SameAt(d.Files(), d'.Files(), Shard(f));
    }
  }

  /** The backups outside `done` are as they were. */
  ghost predicate BackupsKept(a: set<Name>, b: set<Name>, document: Document, done: set<Label>) {
    forall l | l in document.artifacts && l !in done :: EntryKept(a, b, document.artifacts[l], l)
  }

  ghost predicate EntryKept(a: set<Name>, b: set<Name>, e: Entry, l: Label) {
    EntryComplete(a, e, l) <==> EntryComplete(b, e, l)
  }

  /** A rollback that only gives up the backups of what it has restored loses nothing. */
  lemma IntactRestored(d: Storage, d': Storage, document: Document, before: Files, done: set<Label>)
    requires d.Valid() && d'.Valid() && Intact(d, document, before)
    requires forall l: Label :: RestoredAt(d.Files(), d'.Files(), done, before, Published(l))
    requires BackupsKept(d.names.Keys, d'.names.Keys, document, done)
    ensures Intact(d', document, before)
  {
    forall l | l in document.artifacts
      ensures EntryIntact(d', document.artifacts[l], l, before)
    {
      assert EntryIntact(d, document.artifacts[l], l, before);
      assert RestoredAt(d.Files(), d'.Files(), done, before, Published(l));
      assert l !in done ==> EntryKept(d.names.Keys, d'.names.Keys, document.artifacts[l], l);
    }
  }

  /** One restored artifact: its backup may be spent now, and no other one is. */
  lemma IntactStep(d: Storage, d': Storage, document: Document, before: Files, l: Label)
    requires d.Valid() && d'.Valid() && Intact(d, document, before)
    requires OnlyArtifact(d.Files(), d'.Files(), l) && SameAt(d'.Files(), before, Published(l))
    ensures Intact(d', document, before)
  {
    OtherEntries(d, d', l, document);
    forall m | m in document.artifacts
      ensures EntryIntact(d', document.artifacts[m], m, before)
    {
      assert EntryIntact(d, document.artifacts[m], m, before);
      assert m != l ==> SameAt(d.Files(), d'.Files(), Published(m));
    }
  }

  lemma IntactFrame(d: Storage, d': Storage, document: Document, before: Files)
    requires d.Valid() && d'.Valid() && Intact(d, document, before)
    requires forall n: Name | !n.Scratch? :: SameAt(d.Files(), d'.Files(), n)
    ensures Intact(d', document, before)
  {
    forall l | l in document.artifacts
      ensures EntryIntact(d', document.artifacts[l], l, before)
    {
      var e := document.artifacts[l];
      assert EntryIntact(d, e, l, before) && SameAt(d.Files(), d'.Files(), Published(l));
      if e.backup.Some? {
        assert SameAt(d.Files(), d'.Files(), Backup(l, e.backup.value));
      }
    }
  }

  lemma CompleteIntact(d: Storage, document: Document, before: Files)
    requires d.Valid() && Complete(d.names.Keys, document)
    ensures Intact(d, document, before)
  {
    forall l | l in document.artifacts
      ensures EntryIntact(d, document.artifacts[l], l, before)
    {
      assert EntryComplete(d.names.Keys, document.artifacts[l], l);
    }
  }

  /** Moving a backup over its destination, or removing the destination. */
  lemma RestoreStep(d: Storage, d': Storage, document: Document, before: Files, l: Label)
    requires d.Valid() && BackedUp(d, document, before) && l in document.artifacts
    requires var e := document.artifacts[l];
             if e.existed then
               e.backup.Some? && Backup(l, e.backup.value) in d.names && d' == d.Renamed(Backup(l, e.backup.value), Published(l))
             else d' == d.Unlinked(Published(l))
    ensures d'.Valid() && BackedUp(d', document, before)
    ensures OnlyArtifact(d.Files(), d'.Files(), l) && SameAt(d'.Files(), before, Published(l))
  {
    var e := document.artifacts[l];
    assert WayBack(d.Files(), document, before, Published(l));
    BackedUpRestored(d, d', document, before, l);
  }

  lemma OtherArtifacts(a: Files, b: Files, l: Label, document: Document)
    requires OnlyArtifact(a, b, l)
    ensures forall m: Label | m != l :: SameAt(a, b, Published(m))
    ensures forall m | m in document.artifacts && m != l ::
              EntryComplete(a.Keys, document.artifacts[m], m) <==> EntryComplete(b.Keys, document.artifacts[m], m)
  {
    forall m | m in document.artifacts && m != l
      ensures EntryComplete(a.Keys, document.artifacts[m], m) <==> EntryComplete(b.Keys, document.artifacts[m], m)
    {
      var e := document.artifacts[m];
      if e.backup.Some? {
        assert SameAt(a, b, Backup(m, e.backup.value));
      }
    }
  }

  lemma OtherEntries(d: Storage, d': Storage, l: Label, document: Document)
    requires d.Valid() && d'.Valid() && OnlyArtifact(d.Files(), d'.Files(), l)
    ensures BackupsKept(d.names.Keys, d'.names.Keys, document, {l})
  {
    OtherArtifacts(d.Files(), d'.Files(), l, document);
    assert d.Files().Keys == d.names.Keys && d'.Files().Keys == d'.names.Keys;
  }

  /** What a process remembers of the journal on disk: restored or discarded
      entries have lost their backup, and the phase may have moved on. */
  ghost predicate Remembers(memory: Document, journaled: Document) {
    && memory.shard == journaled.shard
    && Cleared(memory.artifacts, journaled.artifacts)
  }

  ghost function Elements(labels: seq<Label>): set<Label> {
    set l | l in labels
  }

  lemma TakeFrom(labels: seq<Label>, i: nat)
    requires i < |labels| && forall j, k | 0 <= j < k < |labels| :: labels[j] != labels[k]
    ensures Elements(labels[i..]) == Elements(labels[i + 1..]) + {labels[i]}
    ensures labels[i] !in Elements(labels[i + 1..])
  {
    assert labels[i..] == [labels[i]] + labels[i + 1..];
  }

  /** The artifacts of `done` show what they show in `before`; no other published
      file differs between `a` and `b`. */
  ghost predicate Restored(a: Files, b: Files, done: set<Label>, before: Files) {
    forall n: Name | n.Published? || n.Shard? :: RestoredAt(a, b, done, before, n)
  }

  ghost predicate RestoredAt(a: Files, b: Files, done: set<Label>, before: Files, n: Name) {
    if n.Published? && n.artifact in done then SameAt(b, before, n) else SameAt(a, b, n)
  }

  lemma RestoredFrame(a: Files, d: Storage, d': Storage, done: set<Label>, before: Files)
    requires d.Valid() && d'.Valid() && World(d) == World(d')
    requires Restored(a, d.Files(), done, before)
    ensures Restored(a, d'.Files(), done, before)
  {
    forall n: Name | n.Published? || n.Shard?
      ensures RestoredAt(a, d'.Files(), done, before, n)
    {
      assert RestoredAt(a, d.Files(), done, before, n);
      assert n in World(d) <==> n in World(d');
    }
  }

  lemma RestoredKept(was: Storage, d: Storage, d': Storage, done: set<Label>, before: Files)
    requires was.Valid() && d.Valid() && d'.Valid() && Restored(was.Files(), d.Files(), done, before)
    requires forall l: Label :: SameAt(d.Files(), d'.Files(), Published(l))
    ensures forall l: Label :: RestoredAt(was.Files(), d'.Files(), done, before, Published(l))
  {
    forall l: Label
      ensures RestoredAt(was.Files(), d'.Files(), done, before, Published(l))
    {
      assert RestoredAt(was.Files(), d.Files(), done, before, Published(l)) && SameAt(d.Files(), d'.Files(), Published(l));
    }
  }

  /** A rollback that began on `was` with `start` in memory and has restored the labels of `done`. */
  ghost predicate Restoring(was: Storage, d: Storage, done: set<Label>, start: Document, memory: Document,
                            journaled: Document, before: Files)
    requires was.Valid() && d.Valid() && start.artifacts.Keys == memory.artifacts.Keys == journaled.artifacts.Keys
  {
    && SameAt(was.Files(), d.Files(), Journal) && Restored(was.Files(), d.Files(), done, before)
    && (forall l | l in journaled.artifacts && l !in done ::
          && memory.artifacts[l] == start.artifacts[l]
          && EntryKept(was.names.Keys, d.names.Keys, journaled.artifacts[l], l))
    && (forall l | l in done && l in journaled.artifacts :: EntryComplete(was.names.Keys, journaled.artifacts[l], l))
  }

  lemma RestoringStep(was: Storage, d: Storage, d': Storage, done: set<Label>, l: Label, start: Document,
                      memory: Document, memory': Document, journaled: Document, before: Files)
    requires was.Valid() && d.Valid() && d'.Valid()
    requires start.artifacts.Keys == memory.artifacts.Keys == memory'.artifacts.Keys == journaled.artifacts.Keys
    requires l !in done && Restoring(was, d, done, start, memory, journaled, before)
    requires OnlyArtifact(d.Files(), d'.Files(), l)
    requires forall m | m in memory.artifacts && m != l :: memory'.artifacts[m] == memory.artifacts[m]
    requires l in journaled.artifacts && SameAt(d'.Files(), before, Published(l))
    requires EntryComplete(d.names.Keys, journaled.artifacts[l], l)
    ensures Restoring(was, d', done + {l}, start, memory', journaled, before)
  {
    OtherEntries(d, d', l, journaled);
    assert SameAt(d.Files(), d'.Files(), Journal);
    forall m | m in journaled.artifacts && m !in done + {l}
      ensures EntryKept(was.names.Keys, d'.names.Keys, journaled.artifacts[m], m)
    {
      assert EntryKept(was.names.Keys, d.names.Keys, journaled.artifacts[m], m);
    }
    forall n: Name | n.Published? || n.Shard?
      ensures RestoredAt(was.Files(), d'.Files(), done + {l}, before, n)
    {
      assert RestoredAt(was.Files(), d.Files(), done, before, n);
      assert n != Published(l) ==> SameAt(d.Files(), d'.Files(), n);
    }
  }

  /** The label just below `rest` has lost its backup. */
  ghost predicate StuckAt(d: Storage, document: Document, p: Protocol, rest: nat) {
    && 0 < rest <= |p.Labels()| && p.Labels()[rest - 1] in document.artifacts
    && !EntryComplete(d.names.Keys, document.artifacts[p.Labels()[rest - 1]], p.Labels()[rest - 1])
  }

  lemma ShardRemoved(d: Storage, d': Storage, document: Document, before: Files, f: string)
    requires d.Valid() && d'.Valid() && BackedUp(d, document, before)
    requires document.shard == ShardEntry(f, false)
    requires forall n: Name | n != Shard(f) :: SameAt(d.Files(), d'.Files(), n)
    ensures BackedUp(d', document, before)
  {
    forall n: Name | n.Published? || n.Shard?
      ensures WayBack(d'.Files(), document, before, n)
    {
      assert WayBack(d.Files(), document, before, n);
      assert n != Shard(f) ==> SameAt(d.Files(), d'.Files(), n);
      if n.Published? && n.artifact in document.artifacts && document.artifacts[n.artifact].backup.Some? {
        assert SameAt(d.Files(), d'.Files(), Backup(n.artifact, document.artifacts[n.artifact].backup.value));
      }
    }
  }

  // ---------- The journal ----------

  /** _write_atomic: a fresh temporary file renamed over the journal. */
  method WriteAtomic(fs: FileSystem<Name, Content>, document: Document) returns (o: Outcome)
    requires fs.disk.Valid()
    modifies fs
    ensures fs.disk.Valid() && fs.faults >= old(fs.faults)
    ensures o.Ok? ==> Journaled(fs.disk, document) && Untouched(old(fs.disk).Files(), fs.disk.Files(), {Journal})
    ensures !o.Ok? ==> Untouched(old(fs.disk).Files(), fs.disk.Files(), {})
    ensures SameInode(old(fs.disk), fs.disk, Published(Sidecar))
    ensures fs.faults == old(fs.faults) ==> o.Ok?
    ensures o.Ok? ==> fs.disk.names.Keys == old(fs.disk).names.Keys + {Journal}
    ensures o.Raised? && fs.faults <= old(fs.faults) + 1 ==> fs.disk.names.Keys == old(fs.disk).names.Keys
  {
    var suffix: nat :| true;
    var temporary := Scratch(JournalTemporary, suffix);
    :- fs.Create(temporary, Record(document));
    assert temporary in fs.disk.Files() && fs.disk.Files()[temporary] == Record(document);
    o := Land(fs, temporary);
  }

  /** The rename over the journal, and the clean-up when it fails. */
  method Land(fs: FileSystem<Name, Content>, temporary: Name) returns (o: Outcome)
    requires fs.disk.Valid() && temporary.Scratch? && temporary in fs.disk.names
    requires Journal in fs.disk.names ==> fs.disk.names[Journal] != fs.disk.names[temporary]
    modifies fs
    ensures fs.disk.Valid() && fs.faults >= old(fs.faults)
    ensures Untouched(old(fs.disk).Files(), fs.disk.Files(), if o.Ok? then {temporary, Journal} else {temporary})
    ensures SameInode(old(fs.disk), fs.disk, Published(Sidecar))
    ensures o.Ok? ==> Journal in fs.disk.names && fs.disk.Files()[Journal] == old(fs.disk).Files()[temporary]
    ensures o.Ok? ==> fs.disk.names.Keys == old(fs.disk).names.Keys - {temporary} + {Journal}
    ensures o.Raised? && fs.faults <= old(fs.faults) + 1 ==> fs.disk.names.Keys == old(fs.disk).names.Keys - {temporary}
    ensures fs.faults == old(fs.faults) ==> o.Ok?
  {
    o := fs.Replace(temporary, Journal);
    if o.Raised? {
      var cleanup := fs.Unlink(temporary);
      o := if cleanup.Crashed? then Crashed else Raised;
    }
  }

  /** Entries whose backup may have been given up. */
  ghost predicate Cleared(memory: map<Label, Entry>, journaled: map<Label, Entry>) {
    && memory.Keys == journaled.Keys
    && forall l | l in memory :: memory[l] == journaled[l] || memory[l] == journaled[l].(backup := None)
  }

  /** The backups that a document names are gone. */
  ghost predicate Spent(names: set<Name>, artifacts: map<Label, Entry>, labels: set<Label>) {
    forall l | l in artifacts && l in labels :: SpentEntry(names, artifacts[l], l)
  }

  ghost predicate SpentEntry(names: set<Name>, e: Entry, l: Label) {
    e.backup.Some? ==> Backup(l, e.backup.value) !in names
  }

  ghost predicate Forgotten(artifacts: map<Label, Entry>, labels: set<Label>) {
    forall l | l in artifacts && l in labels :: artifacts[l].backup.None?
  }

  lemma SpentFewer(names: set<Name>, names': set<Name>, artifacts: map<Label, Entry>)
    requires Spent(names, artifacts, artifacts.Keys) && names' <= names
    ensures Spent(names', artifacts, artifacts.Keys)
  {
    forall l | l in artifacts
      ensures SpentEntry(names', artifacts[l], l)
    {
      assert SpentEntry(names, artifacts[l], l);
    }
  }

  ghost function BackupNames(artifacts: map<Label, Entry>): set<Name> {
    set l | l in artifacts && artifacts[l].backup.Some? :: Backup(l, artifacts[l].backup.value)
  }

  lemma SpentNames(names: set<Name>, names': set<Name>, artifacts: map<Label, Entry>)
    requires Spent(names', artifacts, artifacts.Keys) && names - BackupNames(artifacts) <= names' <= names
    ensures names' == names - BackupNames(artifacts)
  {
    forall n | n in BackupNames(artifacts)
      ensures n !in names'
    {
      var l :| l in artifacts && artifacts[l].backup.Some? && n == Backup(l, artifacts[l].backup.value);
      assert SpentEntry(names', artifacts[l], l);
    }
  }

  /** _discard for every entry. */
  method DiscardAll(fs: FileSystem<Name, Content>, artifacts: map<Label, Entry>)
    returns (o: Outcome, remaining: map<Label, Entry>)
    requires fs.disk.Valid()
    modifies fs
    ensures fs.disk.Valid() && fs.faults >= old(fs.faults) && Cleared(remaining, artifacts)
    ensures Discarded(old(fs.disk).Files(), fs.disk.Files())
    ensures o.Ok? ==> Spent(fs.disk.names.Keys, artifacts, artifacts.Keys)
    ensures o.Ok? ==> Forgotten(remaining, artifacts.Keys)
    ensures o.Ok? ==> fs.disk.names.Keys == old(fs.disk).names.Keys - BackupNames(artifacts)
    ensures fs.faults == old(fs.faults) ==> o.Ok?
  {
    remaining := artifacts;
    var labels := artifacts.Keys;
    while labels != {}
      invariant fs.disk.Valid() && fs.faults >= old(fs.faults) && Cleared(remaining, artifacts)
      invariant labels <= artifacts.Keys
      invariant Discarded(old(fs.disk).Files(), fs.disk.Files())
      invariant forall l | l in labels :: remaining[l] == artifacts[l]
      invariant Spent(fs.disk.names.Keys, artifacts, artifacts.Keys - labels)
      invariant Forgotten(remaining, artifacts.Keys - labels)
      invariant old(fs.disk).names.Keys - BackupNames(artifacts) <= fs.disk.names.Keys <= old(fs.disk).names.Keys
    {
      var l :| l in labels;
      ghost var was := fs.disk.names.Keys;
      var e := remaining[l];
      if e.backup.Some? {
        :- fs.Unlink(Backup(l, e.backup.value));
        remaining := remaining[l := e.(backup := None)];
      }
      assert fs.disk.names.Keys <= was;
      forall m | m in artifacts && m in artifacts.Keys - (labels - {l})
        ensures SpentEntry(fs.disk.names.Keys, artifacts[m], m)
      {
        assert m != l ==> SpentEntry(was, artifacts[m], m);
      }
      labels := labels - {l};
    }
    SpentNames(old(fs.disk).names.Keys, fs.disk.names.Keys, artifacts);
    o := Ok;
  }

  class RecoveryJournal {
    const protocol: Protocol
    var document: Document

    constructor (p: Protocol, document: Document)
      ensures this.protocol == p && this.document == document
    {
      this.protocol := p;
      this.document := document;
    }

    /** Moves the journal to a later phase. */
    method Advance(fs: FileSystem<Name, Content>, phase: Phase) returns (o: Outcome)
      requires fs.disk.Valid()
      modifies this, fs
      ensures fs.disk.Valid() && fs.faults >= old(fs.faults)
      ensures document.artifacts == old(document).artifacts && document.shard == old(document).shard
      ensures o.Ok? ==>
        && document == old(document).(phase := phase)
        && protocol.Rank(old(document).phase) < protocol.Rank(phase) < |protocol.Phases()|
        && Journaled(fs.disk, document)
        && Untouched(old(fs.disk).Files(), fs.disk.Files(), {Journal})
      ensures !o.Ok? ==> Untouched(old(fs.disk).Files(), fs.disk.Files(), {})
      ensures SameInode(old(fs.disk), fs.disk, Published(Sidecar))
      ensures fs.faults == old(fs.faults) ==>
        (o.Ok? <==> protocol.Rank(old(document).phase) < protocol.Rank(phase) < |protocol.Phases()|)
    {
      if protocol.Rank(phase) == |protocol.Phases()| || protocol.Rank(document.phase) == |protocol.Phases()| {
        return Raised;
      }
      if protocol.Rank(phase) <= protocol.Rank(document.phase) {
        return Raised;
      }
      document := document.(phase := phase);
      o := WriteAtomic(fs, document);
    }

    /** _restore: the backup is moved over the destination. */
    method Restore(fs: FileSystem<Name, Content>, l: Label, ghost journaled: Document, ghost before: Files)
      returns (o: Outcome)
      requires fs.disk.Valid() && BackedUp(fs.disk, journaled, before) && l in journaled.artifacts
      requires Remembers(document, journaled)
      modifies this, fs
      ensures fs.disk.Valid() && fs.faults >= old(fs.faults)
      ensures BackedUp(fs.disk, journaled, before) && Remembers(document, journaled)
      ensures OnlyArtifact(old(fs.disk).Files(), fs.disk.Files(), l)
      ensures forall m | m in document.artifacts && m != l :: document.artifacts[m] == old(document).artifacts[m]
      ensures o.Ok? ==> SameAt(fs.disk.Files(), before, Published(l))
      ensures o.Ok? && old(document).artifacts[l].existed ==> document.artifacts[l].backup.None?
      ensures o.Ok? ==> EntryComplete(old(fs.disk).names.Keys, journaled.artifacts[l], l)
      ensures !o.Ok? ==> fs.disk == old(fs.disk) && document == old(document)
      ensures fs.faults == old(fs.faults) ==> !o.Crashed?
      ensures fs.faults == old(fs.faults) && old(document).artifacts[l] == journaled.artifacts[l] ==>
        if EntryComplete(old(fs.disk).names.Keys, journaled.artifacts[l], l) then o.Ok? else o.Raised?
    {
      var e := document.artifacts[l];
      ghost var was := fs.disk;
      assert WayBack(was.Files(), journaled, before, Published(l));
      if e.existed {
        if e.backup.None? {
          return Raised;
        }
        var backup := Backup(l, e.backup.value);
        :- fs.Lstat(backup);
        :- fs.Replace(backup, Published(l));
        document := document.(artifacts := document.artifacts[l := e.(backup := None)]);
      } else {
        :- fs.Unlink(Published(l));
      }
      RestoreStep(was, fs.disk, journaled, before, l);
      o := Ok;
    }

    /** _discard for every entry, then the journal itself. */
    method Commit(fs: FileSystem<Name, Content>, ghost journaled: Document) returns (o: Outcome)
      requires fs.disk.Valid() && Remembers(document, journaled)
      modifies this, fs
      ensures fs.disk.Valid() && Remembers(document, journaled) && fs.faults >= old(fs.faults)
      ensures World(fs.disk) == World(old(fs.disk))
      ensures o.Ok? ==> Journal !in fs.disk.names
      ensures o.Ok? ==> Forgotten(document.artifacts, document.artifacts.Keys)
      ensures o.Ok? ==> Spent(fs.disk.names.Keys, old(document).artifacts, old(document).artifacts.Keys)
      ensures !o.Ok? ==> Discarded(old(fs.disk).Files(), fs.disk.Files())
      ensures fs.faults == old(fs.faults) ==> o.Ok?
      ensures document.phase == old(document).phase
    {
      ghost var was := fs.disk;
      var remaining;
      o, remaining := DiscardAll(fs, document.artifacts);
      document := document.(artifacts := remaining);
      WorldFrame(was, fs.disk);
      if !o.Ok? {
        return;
      }
      ghost var discarded := fs.disk;
      o := fs.Unlink(Journal);
      WorldFrame(discarded, fs.disk);
      assert fs.disk.names.Keys <= discarded.names.Keys;
      SpentFewer(discarded.names.Keys, fs.disk.names.Keys, old(document).artifacts);
    }

    /** Restores every artifact, last label first.  A failure at a label leaves the
        later ones restored and everything else as it was. */
    method RestoreAll(fs: FileSystem<Name, Content>, ghost journaled: Document, ghost before: Files)
      returns (o: Outcome, ghost rest: nat)
      requires fs.disk.Valid() && BackedUp(fs.disk, journaled, before) && Remembers(document, journaled)
      requires forall l: Label :: l in journaled.artifacts <==> l in protocol.Labels()
      modifies this, fs
      ensures fs.disk.Valid() && fs.faults >= old(fs.faults) && Remembers(document, journaled)
      ensures BackedUp(fs.disk, journaled, before) && SameAt(old(fs.disk).Files(), fs.disk.Files(), Journal)
      ensures rest <= |protocol.Labels()| && (o.Ok? <==> rest == 0)
      ensures Restored(old(fs.disk).Files(), fs.disk.Files(), Elements(protocol.Labels()[rest..]), before)
      ensures BackupsKept(old(fs.disk).names.Keys, fs.disk.names.Keys, journaled, Elements(protocol.Labels()[rest..]))
      ensures o.Ok? ==> Complete(old(fs.disk).names.Keys, journaled)
      ensures fs.faults == old(fs.faults) && old(document).artifacts == journaled.artifacts ==>
        if Complete(old(fs.disk).names.Keys, journaled) then o.Ok? else StuckAt(old(fs.disk), journaled, protocol, rest)
      ensures fs.faults == old(fs.faults) ==> !o.Crashed?
    {
      var labels := protocol.Labels();
      ghost var start, memory0 := fs.disk, document;
      assert Elements(labels[|labels|..]) == {};
      var i := |labels|;
      while i > 0
        invariant 0 <= i <= |labels|
        invariant fs.disk.Valid() && BackedUp(fs.disk, journaled, before) && Remembers(document, journaled)
        invariant Restoring(start, fs.disk, Elements(labels[i..]), memory0, document, journaled, before)
        invariant fs.faults >= old(fs.faults)
      {
        ghost var was, memory := fs.disk, document;
        TakeFrom(labels, i - 1);
        o := Restore(fs, labels[i - 1], journaled, before);
        if !o.Ok? {
          return o, i;
        }
        i := i - 1;
        RestoringStep(start, was, fs.disk, Elements(labels[i + 1..]), labels[i], memory0, memory, document, journaled, before);
      }
      assert labels[0..] == labels;
      return Ok, 0;
    }

    /** A shard that did not exist when the transaction began goes. */
    method RemoveShard(fs: FileSystem<Name, Content>, ghost journaled: Document, ghost before: Files) returns (o: Outcome)
      requires fs.disk.Valid() && BackedUp(fs.disk, journaled, before) && document.shard == journaled.shard
      modifies fs
      ensures fs.disk.Valid() && fs.faults >= old(fs.faults) && BackedUp(fs.disk, journaled, before)
      ensures forall n: Name | !n.Shard? :: SameAt(old(fs.disk).Files(), fs.disk.Files(), n)
      ensures document.shard.NoShard? ==> fs.disk == old(fs.disk)
      ensures o.Ok? && document.shard.ShardEntry? && !document.shard.existed ==> Shard(document.shard.file) !in fs.disk.names
      ensures fs.faults == old(fs.faults) ==> o.Ok?
    {
      o := Ok;
      if document.shard.ShardEntry? && !document.shard.existed {
        ghost var was := fs.disk;
        o := fs.Unlink(Shard(document.shard.file));
        assert forall n: Name | n != Shard(document.shard.file) :: SameAt(was.Files(), fs.disk.Files(), n);
        ShardRemoved(was, fs.disk, journaled, before, document.shard.file);
      }
    }

    /** Restores every artifact, removes a shard this refresh created, and ends
        the transaction. */
    method Rollback(fs: FileSystem<Name, Content>, ghost journaled: Document, ghost before: Files)
      returns (o: Outcome, ghost rest: nat)
      requires fs.disk.Valid() && BackedUp(fs.disk, journaled, before) && Remembers(document, journaled)
      requires forall n | n in before :: n.Published? || n.Shard?
      requires forall l: Label :: l in journaled.artifacts <==> l in protocol.Labels()
      modifies this, fs
      ensures fs.disk.Valid() && fs.faults >= old(fs.faults)
      ensures o.Ok? ==> Journal !in fs.disk.names && World(fs.disk) == before
      ensures o.Ok? ==> Complete(old(fs.disk).names.Keys, journaled)
      ensures !o.Ok? ==>
        && BackedUp(fs.disk, journaled, before)
        && SameAt(old(fs.disk).Files(), fs.disk.Files(), Journal)
      ensures !o.Ok? && old(Intact(fs.disk, journaled, before)) ==> Intact(fs.disk, journaled, before)
      ensures rest <= |protocol.Labels()|
      ensures forall l: Label ::
        RestoredAt(old(fs.disk).Files(), fs.disk.Files(), Elements(protocol.Labels()[rest..]), before, Published(l))
      ensures BackupsKept(old(fs.disk).names.Keys, fs.disk.names.Keys, journaled, Elements(protocol.Labels()[rest..]))
      ensures journaled.shard.NoShard? || rest > 0 ==>
        Restored(old(fs.disk).Files(), fs.disk.Files(), Elements(protocol.Labels()[rest..]), before)
      ensures fs.faults == old(fs.faults) && old(document).artifacts == journaled.artifacts ==>
        if Complete(old(fs.disk).names.Keys, journaled) then o.Ok?
        else o.Raised? && StuckAt(old(fs.disk), journaled, protocol, rest)
    {
      ghost var start := fs.disk;
      o, rest := RestoreAll(fs, journaled, before);
      ghost var done := Elements(protocol.Labels()[rest..]);
      assert forall l: Label :: RestoredAt(start.Files(), fs.disk.Files(), done, before, Published(l));
      if old(Intact(fs.disk, journaled, before)) {
        IntactRestored(start, fs.disk, journaled, before, done);
      }
      if !o.Ok? {
        return;
      }
      assert protocol.Labels()[0..] == protocol.Labels();
      ghost var restored := fs.disk;
      o := Clear(fs, journaled, before);
      RestoredKept(start, restored, fs.disk, done, before);
      if journaled.shard.NoShard? {
        RestoredFrame(start.Files(), restored, fs.disk, done, before);
      }
    }

    /** The end of a rollback that has restored every artifact. */
    method Clear(fs: FileSystem<Name, Content>, ghost journaled: Document, ghost before: Files) returns (o: Outcome)
      requires fs.disk.Valid() && BackedUp(fs.disk, journaled, before) && Remembers(document, journaled)
      requires forall n | n in before :: n.Published? || n.Shard?
      requires forall l | l in journaled.artifacts :: SameAt(fs.disk.Files(), before, Published(l))
      modifies this, fs
      ensures fs.disk.Valid() && fs.faults >= old(fs.faults)
      ensures forall l: Label :: SameAt(old(fs.disk).Files(), fs.disk.Files(), Published(l))
      ensures journaled.shard.NoShard? ==> World(fs.disk) == World(old(fs.disk))
      ensures if o.Ok? then Journal !in fs.disk.names && World(fs.disk) == before else
        && BackedUp(fs.disk, journaled, before) && Intact(fs.disk, journaled, before)
        && SameAt(old(fs.disk).Files(), fs.disk.Files(), Journal)
      ensures fs.faults == old(fs.faults) ==> o.Ok?
    {
      ghost var unpublished := fs.disk;
      o := RemoveShard(fs, journaled, before);
      assert SameAt(unpublished.Files(), fs.disk.Files(), Journal);
      assert forall l: Label :: SameAt(unpublished.Files(), fs.disk.Files(), Published(l));
      if !o.Ok? {
        return;
      }
      RestoredWorld(fs.disk, journaled, before);
      ghost var restored := fs.disk;
      o := Commit(fs, journaled);
      SameWorld(restored, fs.disk);
      forall l: Label
        ensures SameAt(unpublished.Files(), fs.disk.Files(), Published(l))
      {
        assert SameAt(unpublished.Files(), restored.Files(), Published(l));
        assert SameAt(restored.Files(), fs.disk.Files(), Published(l));
      }
      if !o.Ok? {
        BackedUpDiscarded(restored, fs.disk, journaled, before);
        assert SameAt(restored.Files(), fs.disk.Files(), Journal);
      }
    }
  }

  // ---------- Beginning and recovering a transaction ----------

  /** Backups taken so far, all of them intact. */
  ghost predicate Taken(d: Storage, artifacts: map<Label, Entry>)
    requires d.Valid()
  {
    forall l | l in artifacts ::
      && EntryBackedUp(d.Files(), artifacts[l], l, World(d)) && EntryComplete(d.names.Keys, artifacts[l], l)
      && Consistent(artifacts[l], l)
  }

  lemma TakenStep(d: Storage, d': Storage, artifacts: map<Label, Entry>, l: Label, e: Entry)
    requires d.Valid() && d'.Valid() && Taken(d, artifacts)
    requires if e.existed then
               && e.backup.Some? && Published(l) in d.names && Backup(l, e.backup.value) !in d.names
               && d' == d.Linked(Published(l), Backup(l, e.backup.value))
             else e.backup.None? && Published(l) !in d.names && d' == d
    ensures World(d') == World(d) && Taken(d', artifacts[l := e])
  {
    WorldFrame(d, d');
    forall m | m in artifacts && m != l
      ensures EntryBackedUp(d'.Files(), artifacts[m], m, World(d')) && EntryComplete(d'.names.Keys, artifacts[m], m)
    {
      assert EntryBackedUp(d.Files(), artifacts[m], m, World(d)) && EntryComplete(d.names.Keys, artifacts[m], m);
    }
  }

  /** The names that are new are those of the backups. */
  ghost predicate Grown(names: set<Name>, names': set<Name>, artifacts: map<Label, Entry>) {
    names' == names + BackupNames(artifacts) && names !! BackupNames(artifacts)
  }

  lemma GrownStep(names: set<Name>, names': set<Name>, artifacts: map<Label, Entry>, l: Label, e: Entry)
    requires Grown(names, names', artifacts) && l !in artifacts && (e.backup.Some? ==> Backup(l, e.backup.value) !in names')
    ensures Grown(names, names' + (if e.backup.Some? then {Backup(l, e.backup.value)} else {}), artifacts[l := e])
  {
    var more := artifacts[l := e];
    forall n
      ensures n in BackupNames(more) <==> n in BackupNames(artifacts) || (e.backup.Some? && n == Backup(l, e.backup.value))
    {
      if n in BackupNames(artifacts) {
        var m :| m in artifacts && artifacts[m].backup.Some? && n == Backup(m, artifacts[m].backup.value);
        assert more[m] == artifacts[m];
      }
      if e.backup.Some? && n == Backup(l, e.backup.value) {
        assert more[l] == e;
      }
    }
  }

  /** _backup */
  method BackupOne(fs: FileSystem<Name, Content>, l: Label) returns (o: Outcome, e: Entry)
    requires fs.disk.Valid()
    modifies fs
    ensures fs.disk.Valid() && fs.faults >= old(fs.faults)
    ensures o.Ok? ==>
      && (e.existed <==> Published(l) in old(fs.disk).names) && (e.existed <==> e.backup.Some?)
      && if e.existed then
           && Backup(l, e.backup.value) !in old(fs.disk).names
           && fs.disk == old(fs.disk).Linked(Published(l), Backup(l, e.backup.value))
         else fs.disk == old(fs.disk)
    ensures !o.Ok? ==> fs.disk == old(fs.disk)
    ensures fs.faults == old(fs.faults) ==> o.Ok?
  {
    e := Entry(false, None);
    o := Ok;
    if Published(l) in fs.disk.names {
      o := fs.Lstat(Published(l));
      if o.Ok? {
        var suffix: nat :| true;
        o := fs.Link(Published(l), Backup(l, suffix));
        e := Entry(true, Some(suffix));
      }
    }
  }

  /** _backup for every label. */
  method BackupAll(p: Protocol, fs: FileSystem<Name, Content>) returns (o: Outcome, artifacts: map<Label, Entry>)
    requires fs.disk.Valid()
    modifies fs
    ensures fs.disk.Valid() && fs.faults >= old(fs.faults)
    ensures World(fs.disk) == World(old(fs.disk)) && SameAt(old(fs.disk).Files(), fs.disk.Files(), Journal)
    ensures ScratchKept(old(fs.disk).Files(), fs.disk.Files(), {})
    ensures Taken(fs.disk, artifacts)
    ensures o.Ok? ==> forall l: Label :: l in artifacts <==> l in p.Labels()
    ensures fs.faults == old(fs.faults) ==> o.Ok?
    ensures Grown(old(fs.disk).names.Keys, fs.disk.names.Keys, artifacts)
  {
    artifacts := map[];
    var labels := p.Labels();
    for i := 0 to |labels|
      invariant fs.disk.Valid() && fs.faults >= old(fs.faults)
      invariant World(fs.disk) == World(old(fs.disk)) && SameAt(old(fs.disk).Files(), fs.disk.Files(), Journal)
      invariant ScratchKept(old(fs.disk).Files(), fs.disk.Files(), {})
      invariant Taken(fs.disk, artifacts)
      invariant forall l: Label :: l in artifacts <==> l in labels[..i]
      invariant Grown(old(fs.disk).names.Keys, fs.disk.names.Keys, artifacts)
    {
      var l := labels[i];
      ghost var was := fs.disk;
      var e;
      o, e := BackupOne(fs, l);
      if !o.Ok? {
        return;
      }
      TakenStep(was, fs.disk, artifacts, l, e);
      GrownStep(old(fs.disk).names.Keys, was.names.Keys, artifacts, l, e);
      artifacts := artifacts[l := e];
    }
    o := Ok;
  }

  lemma OnlyBackups(names: set<Name>, names': set<Name>, artifacts: map<Label, Entry>)
    requires Grown(names, names', artifacts)
    ensures forall n | n in names' :: n in names || n.Backup?
  {
  }

  /** The first journal, on a disk that has none. */
  method WriteFirst(fs: FileSystem<Name, Content>, document: Document) returns (o: Outcome)
    requires fs.disk.Valid() && Journal !in fs.disk.names
    modifies fs
    ensures fs.disk.Valid() && fs.faults >= old(fs.faults)
    ensures World(fs.disk) == World(old(fs.disk)) && ScratchKept(old(fs.disk).Files(), fs.disk.Files(), {})
    ensures if o.Ok? then Journaled(fs.disk, document) && Untouched(old(fs.disk).Files(), fs.disk.Files(), {Journal})
            else Journal !in fs.disk.names
    ensures o.Ok? ==> fs.disk.names.Keys == old(fs.disk).names.Keys + {Journal}
    ensures o.Raised? && fs.faults <= old(fs.faults) + 1 ==> fs.disk.names.Keys == old(fs.disk).names.Keys
    ensures fs.faults == old(fs.faults) ==> o.Ok?
  {
    ghost var was := fs.disk;
    o := WriteAtomic(fs, document);
    assert forall n: Name | n.Published? || n.Shard? :: SameAt(was.Files(), fs.disk.Files(), n);
    WorldFrame(was, fs.disk);
    assert !o.Ok? ==> SameAt(was.Files(), fs.disk.Files(), Journal);
  }

  /** The backups and the entry of the shard; a failure discards what it has taken. */
  method Prepare(p: Protocol, fs: FileSystem<Name, Content>, shardFile: Option<string>)
    returns (o: Outcome, artifacts: map<Label, Entry>, shard: ShardEntry)
    requires fs.disk.Valid()
    modifies fs
    ensures fs.disk.Valid() && fs.faults >= old(fs.faults)
    ensures World(fs.disk) == World(old(fs.disk)) && SameAt(old(fs.disk).Files(), fs.disk.Files(), Journal)
    ensures ScratchKept(old(fs.disk).Files(), fs.disk.Files(), {})
    ensures o.Ok? ==> Taken(fs.disk, artifacts) && forall l: Label :: l in artifacts <==> l in p.Labels()
    ensures o.Ok? ==>
      match shardFile
      case None => shard == NoShard
      case Some(f) => shard == ShardEntry(f, Shard(f) in World(fs.disk))
    ensures o.Ok? ==> Grown(old(fs.disk).names.Keys, fs.disk.names.Keys, artifacts)
    ensures o.Raised? && fs.faults <= old(fs.faults) + 1 ==> fs.disk.names.Keys == old(fs.disk).names.Keys
    ensures fs.faults == old(fs.faults) ==> o.Ok?
  {
    o, artifacts := BackupAll(p, fs);
    shard := NoShard;
    if o.Ok? && shardFile.Some? {
      shard := ShardEntry(shardFile.value, Shard(shardFile.value) in fs.disk.names);
      if shard.existed {
        o := fs.Lstat(Shard(shardFile.value));
      }
    }
    if o.Raised? {
      ghost var was := fs.disk;
      o, artifacts := DiscardAll(fs, artifacts);
      WorldFrame(was, fs.disk);
      assert SameAt(was.Files(), fs.disk.Files(), Journal);
      assert forall n: Name | n.Scratch? :: SameAt(was.Files(), fs.disk.Files(), n);
      o := if o.Crashed? then Crashed else Raised;
    }
  }

  /** Backs every protected file up and writes the first journal. */
  method Begin(p: Protocol, fs: FileSystem<Name, Content>, shardFile: Option<string>)
    returns (o: Outcome, journal: RecoveryJournal?)
    requires fs.disk.Valid() && Journal !in fs.disk.names
    modifies fs
    ensures fs.disk.Valid() && fs.faults >= old(fs.faults)
    ensures World(fs.disk) == World(old(fs.disk)) && ScratchKept(old(fs.disk).Files(), fs.disk.Files(), {})
    ensures !o.Ok? ==> Journal !in fs.disk.names
    ensures fs.faults == old(fs.faults) ==> o.Ok?
    // A journal that could not be written leaves its backups, and nothing else, behind.
    ensures o.Raised? && fs.faults <= old(fs.faults) + 1 ==> forall n | n in fs.disk.names :: n in old(fs.disk).names || n.Backup?
    ensures o.Ok? ==>
      && journal != null && fresh(journal) && journal.protocol == p
      && journal.document.phase == Prepared && Journaled(fs.disk, journal.document)
      && BackedUp(fs.disk, journal.document, World(fs.disk))
      && Complete(fs.disk.names.Keys, journal.document)
      && (forall l: Label :: l in journal.document.artifacts <==> l in p.Labels())
      && ((p.Rust? <==> shardFile.Some?) ==> Acceptable(p, journal.document))
      && (match shardFile
          case None => journal.document.shard == NoShard
          case Some(f) => journal.document.shard == ShardEntry(f, Shard(f) in World(fs.disk)))
    ensures o.Ok? ==> fs.disk.names.Keys == old(fs.disk).names.Keys + {Journal} + BackupNames(journal.document.artifacts)
  {
    journal := null;
    var artifacts, shard;
    ghost var start := fs.disk.names.Keys;
    o, artifacts, shard := Prepare(p, fs, shardFile);
    if !o.Ok? {
      return;
    }
    var document := Document(Prepared, artifacts, shard);
    ghost var taken := fs.disk;
    OnlyBackups(start, taken.names.Keys, artifacts);
    o := WriteFirst(fs, document);
    if o.Ok? {
      BeginBackedUp(taken, fs.disk, document);
      journal := new RecoveryJournal(p, document);
    }
  }

  lemma TakenFrame(taken: Storage, d: Storage, artifacts: map<Label, Entry>)
    requires taken.Valid() && d.Valid() && Taken(taken, artifacts)
    requires Untouched(taken.Files(), d.Files(), {Journal}) && World(taken) == World(d)
    ensures Taken(d, artifacts)
  {
    forall l | l in artifacts
      ensures EntryBackedUp(d.Files(), artifacts[l], l, World(d)) && EntryComplete(d.names.Keys, artifacts[l], l)
    {
      var e := artifacts[l];
      assert EntryBackedUp(taken.Files(), e, l, World(taken)) && EntryComplete(taken.names.Keys, e, l);
      if e.existed {
        assert SameAt(taken.Files(), d.Files(), Backup(l, e.backup.value));
      }
    }
  }

  lemma BeginBackedUp(taken: Storage, d: Storage, document: Document)
    requires taken.Valid() && d.Valid() && Taken(taken, document.artifacts)
    requires Untouched(taken.Files(), d.Files(), {Journal}) && World(taken) == World(d)
    requires document.shard.ShardEntry? ==> (document.shard.existed <==> Shard(document.shard.file) in taken.names)
    ensures BackedUp(d, document, World(d)) && Complete(d.names.Keys, document)
  {
    TakenFrame(taken, d, document.artifacts);
    forall n: Name | n.Published? || n.Shard?
      ensures WayBack(d.Files(), document, World(d), n)
    {
      if n.Shard? {
        assert SameAt(taken.Files(), d.Files(), n);
      }
    }
  }

  /** _cleanup_owned_stage_files, which runs only when no journal is left. */
  method CleanupOwnedStageFiles(p: Protocol, fs: FileSystem<Name, Content>) returns (o: Outcome)
    requires fs.disk.Valid() && Journal !in fs.disk.names
    modifies fs
    ensures fs.disk.Valid() && fs.faults >= old(fs.faults)
    ensures World(fs.disk) == World(old(fs.disk)) && Journal !in fs.disk.names
    ensures o.Ok? ==> fs.disk.names.Keys == set n | n in old(fs.disk).names && !p.Owns(n)
    ensures fs.faults == old(fs.faults) ==> o.Ok?
  {
    var pending := set n | n in fs.disk.names && p.Owns(n);
    while pending != {}
      invariant fs.disk.Valid() && fs.faults >= old(fs.faults)
      invariant World(fs.disk) == World(old(fs.disk)) && Journal !in fs.disk.names
      invariant pending <= fs.disk.names.Keys && forall n | n in pending :: p.Owns(n)
      invariant fs.disk.names.Keys == pending + set n | n in old(fs.disk).names && !p.Owns(n)
    {
      var n :| n in pending;
      :- fs.Lstat(n);
      ghost var was := fs.disk;
      :- fs.Unlink(n);
      WorldFrame(was, fs.disk);
      pending := pending - {n};
    }
    o := Ok;
  }

  /** A backup is recorded exactly for an artifact that existed. */
  predicate Consistent(e: Entry, l: Label) {
    e.existed <==> e.backup.Some?
  }

  /** What recovery checks before it believes a journal. */
  predicate Acceptable(p: Protocol, document: Document) {
    && document.phase in p.Phases()
    && (forall l: Label :: l in document.artifacts <==> l in p.Labels())
    && (p.Rust? ==>
          && document.shard.ShardEntry?
          && forall l | l in document.artifacts :: Consistent(document.artifacts[l], l))
    && (p.Standard? ==> document.shard.NoShard?)
  }

  /** When recovery can finish: nothing to do, a generation to accept, or all
      the backups it has to move back. */
  ghost predicate Recoverable(p: Protocol, d: Storage)
    requires d.Valid() && (Journal in d.names ==> d.Files()[Journal].Record?)
  {
    Journal in d.names ==>
      var document := d.Files()[Journal].document;
      Acceptable(p, document) && (Accepting(document.phase) || Complete(d.names.Keys, document))
  }

  /** What a recovery without faults makes of a disk that it cannot recover: it
      refuses the journal, or it stops at the first lost backup on its way and
      has restored only the labels behind it. */
  ghost predicate Stuck(p: Protocol, was: Storage, d: Storage, current: Files)
    requires was.Valid() && d.Valid()
  {
    && Journal in was.names && was.Files()[Journal].Record? && SameAt(was.Files(), d.Files(), Journal)
    && var document := was.Files()[Journal].document;
       if Acceptable(p, document) then
         exists rest: nat | StuckAt(was, document, p, rest) :: Restored(was.Files(), d.Files(), Elements(p.Labels()[rest..]), current)
       else d == was
  }

  /** No backup of this protocol is left, and of its private files only the
      temporaries of the state and of restored bytes may be. */
  ghost predicate Swept(p: Protocol, d: Storage) {
    forall n | n in d.names :: MayStay(p, n)
  }

  predicate MayStay(p: Protocol, n: Name) {
    match p
    case Rust =>
      && (n.Backup? ==> n.artifact in {Provider, Sidecar})
      && (n.Scratch? ==> n.kind in {RegistrationStage, RegistrationBackup, ProviderStage, ProviderBackup, StateTemporary, RestoreTemporary})
    case Standard =>
      && (n.Backup? ==> n.artifact == Pointer)
      && (n.Scratch? ==> n.kind in {ProviderStage, PointerStage, ShardStage, StateTemporary, RestoreTemporary})
  }

  lemma OwnedOrStays(p: Protocol, n: Name)
    ensures p.Owns(n) <==> !MayStay(p, n)
  {
    match n
    case Backup(l, _) => BackupOwned(p, l);
    case Scratch(kind, _) => ScratchOwned(p, kind);
    case _ =>
  }

  lemma BackupOwned(p: Protocol, l: Label)
    ensures l in p.Labels() <==> l !in (if p.Rust? then {Provider, Sidecar} else {Pointer})
  {
    match l
    case Provider | Sidecar | Manifest | Pointer | State =>
  }

  lemma ScratchOwned(p: Protocol, kind: Kind)
    ensures forall suffix :: p.Owns(Scratch(kind, suffix)) <==> !MayStay(p, Scratch(kind, suffix))
  {
    match kind
    case JournalTemporary | ManifestCandidate | ManifestBackup | RegistrationStage | RegistrationBackup =>
    case ProviderStage | ProviderBackup | PointerStage | ShardStage | StateTemporary | RestoreTemporary =>
  }

  /** recover_refresh_transaction and recover_rust_refresh_transaction.  Without
      faults it stops short of an acceptable journal's end only at a lost backup. */
  method Recover(p: Protocol, fs: FileSystem<Name, Content>, ghost current: Files) returns (o: Outcome)
    requires Settles(fs.disk, current)
    requires forall n | n in current :: n.Published? || n.Shard?
    modifies fs
    ensures Settles(fs.disk, current) && fs.faults >= old(fs.faults)
    ensures o.Ok? ==> Journal !in fs.disk.names && forall n | n in fs.disk.names :: !p.Owns(n)
    ensures Journal in fs.disk.names ==> SameAt(old(fs.disk).Files(), fs.disk.Files(), Journal)
    ensures o.Ok? ==> Recoverable(p, old(fs.disk)) && Swept(p, fs.disk)
    ensures o.Ok? && Journal in old(fs.disk).names ==>
      && var document := old(fs.disk).Files()[Journal].document;
      && document.phase in p.Phases() && document.artifacts.Keys == Elements(p.Labels()) && (document.shard.ShardEntry? <==> p.Rust?)
      && (p.Rust? ==> forall l | l in document.artifacts :: document.artifacts[l].existed <==> document.artifacts[l].backup.Some?)
    ensures Recoverable(p, old(fs.disk)) && !GoesBack(old(fs.disk)) ==> Recoverable(p, fs.disk)
    ensures fs.faults == old(fs.faults) ==>
      if Recoverable(p, old(fs.disk)) then o.Ok? else o.Raised? && Stuck(p, old(fs.disk), fs.disk, current)
  {
    ghost var was, rest := fs.disk, |p.Labels()|;
    if Journal in fs.disk.names {
      var content;
      o := fs.Lstat(Journal);
      if !o.Ok? {
        return;
      }
      o, content := fs.Read(Journal);
      if !o.Ok? {
        return;
      }
      var document := content.document;
      if !Acceptable(p, document) {
        return Raised;
      }
      var journal := new RecoveryJournal(p, document);
      if Accepting(document.phase) {
        o := journal.Commit(fs, document);
      } else {
        o, rest := journal.Rollback(fs, document, current);
        assert fs.faults == old(fs.faults) && !o.Ok? ==> StuckAt(was, document, p, rest);
      }
      if !o.Ok? {
        assert SameAt(old(fs.disk).Files(), fs.disk.Files(), Journal);
        return;
      }
    }
    o := CleanupOwnedStageFiles(p, fs);
    if o.Ok? {
      forall n | n in fs.disk.names
        ensures MayStay(p, n)
      {
        OwnedOrStays(p, n);
      }
    }
  }
}
