/** Steps of a journaled publication, shared by both refresh coordinators. */
module Transaction {
  import opened Basics
  import opened FileSystems
  import opened Publication
  import opened Staging

  ghost predicate Shown(files: Files) {
    forall n | n in files :: n.Published? || n.Shard?
  }

  /** A staged file that still waits for its publication. */
  ghost predicate Waiting(d: Storage, n: Name, content: Content)
    requires d.Valid()
  {
    n.Scratch? && n in d.names && d.Files()[n] == content
  }

  lemma WaitingFrame(d: Storage, d': Storage, n: Name, content: Content, except: set<Name>)
    requires d.Valid() && d'.Valid() && Waiting(d, n, content)
    requires ScratchKept(d.Files(), d'.Files(), except) && n !in except
    ensures Waiting(d', n, content)
  {
  }

  /** A journaled transaction from `base` whose backups are all there.  The
      process remembers `journal`; the disk holds `journaled`. */
  ghost predicate Open(p: Protocol, d: Storage, journal: Document, journaled: Document, base: Files) {
    && d.Valid() && Journaled(d, journaled)
    && BackedUp(d, journaled, base) && Complete(d.names.Keys, journaled)
    && journal.artifacts == journaled.artifacts && journal.shard == journaled.shard && Acceptable(p, journaled)
  }

  lemma OpenFrame(p: Protocol, d: Storage, d': Storage, journal: Document, journaled: Document, base: Files, except: set<Name>)
    requires Open(p, d, journal, journaled, base) && d'.Valid()
    requires Untouched(d.Files(), d'.Files(), except)
    requires forall n | n in except :: Replaceable(journaled, n) && n != Journal
    ensures Open(p, d', journal, journaled, base)
  {
    BackedUpFrame(d, d', journaled, base, except);
    assert SameAt(d.Files(), d'.Files(), Journal);
  }

  lemma OpenAdvanced(p: Protocol, d: Storage, d': Storage, journal: Document, journaled: Document, journal': Document, base: Files)
    requires Open(p, d, journal, journaled, base) && d'.Valid()
    requires Untouched(d.Files(), d'.Files(), {Journal}) && Journaled(d', journal')
    requires journal'.artifacts == journal.artifacts && journal'.shard == journal.shard && journal'.phase in p.Phases()
    ensures Open(p, d', journal', journal', base)
  {
    BackedUpFrame(d, d', journaled, base, {Journal});
    forall n: Name | n.Published? || n.Shard?
      ensures WayBack(d'.Files(), journal', base, n)
    {
      assert WayBack(d'.Files(), journaled, base, n);
    }
  }

  /** Where a phase stands in the list of its protocol. */
  function Position(p: Protocol, phase: Phase): nat {
    match p
    case Rust => (match phase
      case Prepared => 0
      case ShardPublished => 1
      case ManifestPublished => 2
      case PointerPublished => 3
      case StatePublished => 4
      case Committing => 5
      case _ => 6)
    case Standard => (match phase
      case Prepared => 0
      case ProviderIndexed => 1
      case ProviderValidated => 2
      case CandidateReady => 3
      case SidecarPublished => 4
      case ManifestPublished => 5
      case StatePublished => 6
      case GenerationActivated => 7
      case Committing => 8
      case _ => 9)
  }

  predicate Follows(p: Protocol, later: Phase, earlier: Phase) {
    Position(p, earlier) < Position(p, later) < if p.Rust? then 6 else 9
  }

  lemma PositionRank(p: Protocol, phase: Phase)
    ensures p.Rank(phase) == Position(p, phase)
  {
    PhasesUnique(p);
    PositionListed(p, phase);
    if phase in p.Phases() {
      IndexOfAt(p.Phases(), Position(p, phase));
    }
  }

  lemma FollowsRank(p: Protocol, later: Phase, earlier: Phase)
    ensures Follows(p, later, earlier) <==> p.Rank(earlier) < p.Rank(later) < |p.Phases()|
    ensures p.Rank(later) < |p.Phases()| ==> later in p.Phases()
  {
    PositionRank(p, later);
    PositionRank(p, earlier);
  }

  lemma PositionListed(p: Protocol, phase: Phase)
    ensures phase in p.Phases() ==> Position(p, phase) < |p.Phases()| && p.Phases()[Position(p, phase)] == phase
    ensures phase !in p.Phases() ==> Position(p, phase) == |p.Phases()|
  {
  }

  lemma PhasesUnique(p: Protocol)
    ensures Unique(p.Phases())
  {
  }

  /** recovery.advance, by positions in the list of phases. */
  method AdvanceListed(fs: FileSystem<Name, Content>, recovery: RecoveryJournal, phase: Phase) returns (o: Outcome)
    requires fs.disk.Valid()
    modifies fs, recovery
    ensures fs.disk.Valid() && fs.faults >= old(fs.faults)
    ensures recovery.document.artifacts == old(recovery.document).artifacts && recovery.document.shard == old(recovery.document).shard
    ensures o.Ok? ==>
      && recovery.document.phase == phase && phase in recovery.protocol.Phases()
      && Journaled(fs.disk, recovery.document) && Untouched(old(fs.disk).Files(), fs.disk.Files(), {Journal})
    ensures !o.Ok? ==> Untouched(old(fs.disk).Files(), fs.disk.Files(), {})
    ensures SameInode(old(fs.disk), fs.disk, Published(Sidecar))
    ensures fs.faults == old(fs.faults) && Follows(recovery.protocol, phase, old(recovery.document).phase) ==> o.Ok?
  {
    FollowsRank(recovery.protocol, phase, recovery.document.phase);
    o := recovery.Advance(fs, phase);
  }

  /** recovery.advance inside an open transaction. */
  method AdvanceOpen(ghost p: Protocol, fs: FileSystem<Name, Content>, recovery: RecoveryJournal, phase: Phase,
                     ghost journaled: Document, ghost base: Files)
    returns (o: Outcome, ghost journaled': Document)
    requires Open(p, fs.disk, recovery.document, journaled, base) && recovery.protocol == p
    modifies fs, recovery
    ensures Open(p, fs.disk, recovery.document, journaled', base) && fs.faults >= old(fs.faults)
    ensures World(fs.disk) == World(old(fs.disk)) && ScratchKept(old(fs.disk).Files(), fs.disk.Files(), {})
    ensures journaled'.phase == if o.Ok? then phase else journaled.phase
    ensures journaled'.shard == journaled.shard && SameInode(old(fs.disk), fs.disk, Published(Sidecar))
    ensures o.Ok? ==> recovery.document.phase == phase
    ensures fs.faults == old(fs.faults) && Follows(recovery.protocol, phase, old(recovery.document).phase) ==> o.Ok?
  {
    ghost var was, memory := fs.disk, recovery.document;
    journaled' := journaled;
    o := AdvanceListed(fs, recovery, phase);
    UntouchedWorld(was, fs.disk, {Journal});
    if o.Ok? {
      OpenAdvanced(p, was, fs.disk, memory, journaled, recovery.document, base);
      journaled' := recovery.document;
    } else {
      OpenFrame(p, was, fs.disk, memory, journaled, base, {});
    }
  }

  /** A well-formed journal that makes recovery keep what the disk shows. */
  ghost predicate Landed(p: Protocol, d: Storage, next: Files) {
    && d.Valid() && World(d) == next
    && Journal in d.names && d.Files()[Journal].Record? && Accepting(d.Files()[Journal].document.phase)
    && Acceptable(p, d.Files()[Journal].document)
  }

  lemma LandedFrame(p: Protocol, d: Storage, d': Storage, next: Files, except: set<Name>)
    requires Landed(p, d, next) && d'.Valid()
    requires Untouched(d.Files(), d'.Files(), except) && forall n | n in except :: n.Scratch?
    ensures Landed(p, d', next)
  {
    UntouchedWorld(d, d', except);
    assert SameAt(d.Files(), d'.Files(), Journal);
  }

  /** The journal of a landed generation moves on to a later accepting phase. */
  lemma LandedAdvanced(p: Protocol, d: Storage, d': Storage, next: Files, document: Document)
    requires Landed(p, d, next) && d'.Valid() && Journaled(d', document) && Accepting(document.phase) && Acceptable(p, document)
    requires Untouched(d.Files(), d'.Files(), {Journal})
    ensures Landed(p, d', next)
  {
    UntouchedWorld(d, d', {Journal});
  }

  /** Once an accepting phase is journaled, recovery keeps the new generation. */
  lemma OpenLanded(p: Protocol, d: Storage, journal: Document, journaled: Document, base: Files)
    requires Open(p, d, journal, journaled, base) && Accepting(journaled.phase)
    ensures Landed(p, d, World(d)) && Settles(d, World(d))
  {
  }

  /** Before that, recovery goes back. */
  lemma OpenSettles(p: Protocol, d: Storage, journal: Document, journaled: Document, base: Files)
    requires Open(p, d, journal, journaled, base) && !Accepting(journaled.phase)
    ensures Settles(d, base) && Recoverable(p, d)
  {
    CompleteIntact(d, journaled, base);
  }

  /** Publishing the manifest inside an open transaction. */
  method PublishManifestStep(ghost p: Protocol, fs: FileSystem<Name, Content>, ghost journal: Document, ghost journaled: Document,
                             manifest: StagedManifest, ghost base: Files)
    returns (o: Outcome)
    requires Open(p, fs.disk, journal, journaled, base)
    requires manifest.Valid() && !manifest.published && manifest.backup == None && manifest.temporary in fs.disk.names
    requires Manifest in journaled.artifacts
    modifies fs, manifest
    ensures manifest.Valid() && Open(p, fs.disk, journal, journaled, base) && fs.faults >= old(fs.faults)
    ensures ScratchKept(old(fs.disk).Files(), fs.disk.Files(), {manifest.temporary})
    ensures o.Ok? ==>
      World(fs.disk) == World(old(fs.disk))[Published(Manifest) := old(fs.disk).Files()[manifest.temporary]]
    ensures manifest.published <==> o.Ok?
    ensures o.Ok? || manifest.backup.Some? ==> Copy(fs.disk, manifest.backup, old(fs.disk).Files(), Manifest)
    ensures !o.Ok? ==> World(fs.disk) == World(old(fs.disk))
    ensures SameInode(old(fs.disk), fs.disk, Published(Sidecar))
    ensures fs.faults == old(fs.faults) ==> o.Ok?
  {
    ghost var was := fs.disk;
    ghost var except := {Published(Manifest), manifest.temporary};
    o := manifest.Publish(fs);
    OpenFrame(p, was, fs.disk, journal, journaled, base, if o.Ok? then except else {});
    if o.Ok? {
      PublishedWorld(was, fs.disk, Published(Manifest), was.Files()[manifest.temporary], except);
    } else {
      UntouchedWorld(was, fs.disk, {});
    }
  }

  lemma KeptTwice(a: Storage, b: Storage, c: Storage, except: set<Name>, except': set<Name>)
    requires a.Valid() && b.Valid() && c.Valid()
    requires ScratchKept(a.Files(), b.Files(), except) && ScratchKept(b.Files(), c.Files(), except')
    ensures ScratchKept(a.Files(), c.Files(), except + except')
    ensures SameInode(a, b, Published(Sidecar)) && SameInode(b, c, Published(Sidecar)) ==> SameInode(a, c, Published(Sidecar))
  {
  }

  /** record_index_state inside an open transaction. */
  method RecordIndexState(ghost p: Protocol, fs: FileSystem<Name, Content>, ghost journal: Document, ghost journaled: Document,
                          state: Content, ghost base: Files)
    returns (o: Outcome)
    requires Open(p, fs.disk, journal, journaled, base) && State in journaled.artifacts
    modifies fs
    ensures Open(p, fs.disk, journal, journaled, base) && fs.faults >= old(fs.faults)
    ensures ScratchKept(old(fs.disk).Files(), fs.disk.Files(), {})
    ensures o.Ok? ==> World(fs.disk) == World(old(fs.disk))[Published(State) := state]
    ensures SameInode(old(fs.disk), fs.disk, Published(Sidecar))
    ensures fs.faults == old(fs.faults) ==> o.Ok?
    ensures o.Raised? && fs.faults <= old(fs.faults) + 1 ==> fs.disk.names.Keys <= old(fs.disk).names.Keys
  {
    ghost var was := fs.disk;
    var temporary;
    o, temporary := Stage(fs, StateTemporary, state);
    OpenFrame(p, was, fs.disk, journal, journaled, base, {});
    UntouchedWorld(was, fs.disk, {});
    if o.Ok? {
      o := ReplaceStep(p, fs, journal, journaled, temporary, State, base);
      if o.Raised? {
        o := DropTemporary(p, fs, journal, journaled, temporary, base);
      }
    }
  }

  /** A temporary file that could not be renamed goes, and the error stands. */
  method DropTemporary(ghost p: Protocol, fs: FileSystem<Name, Content>, ghost journal: Document, ghost journaled: Document,
                       temporary: Name, ghost base: Files)
    returns (o: Outcome)
    requires Open(p, fs.disk, journal, journaled, base) && temporary.Scratch?
    modifies fs
    ensures Open(p, fs.disk, journal, journaled, base) && fs.faults >= old(fs.faults) && !o.Ok?
    ensures fs.disk.names.Keys <= old(fs.disk).names.Keys
    ensures fs.faults == old(fs.faults) ==> temporary !in fs.disk.names
    ensures ScratchKept(old(fs.disk).Files(), fs.disk.Files(), {temporary})
    ensures SameInode(old(fs.disk), fs.disk, Published(Sidecar))
  {
    ghost var was := fs.disk;
    var cleanup := fs.Unlink(temporary);
    OpenFrame(p, was, fs.disk, journal, journaled, base, {temporary});
    o := if cleanup.Crashed? then Crashed else Raised;
  }

  /** os.replace of one staged file inside an open transaction. */
  method ReplaceStep(ghost p: Protocol, fs: FileSystem<Name, Content>, ghost journal: Document, ghost journaled: Document, temporary: Name,
                     l: Label, ghost base: Files)
    returns (o: Outcome)
    requires Open(p, fs.disk, journal, journaled, base) && l in journaled.artifacts
    requires temporary.Scratch? && temporary in fs.disk.names
    modifies fs
    ensures Open(p, fs.disk, journal, journaled, base) && fs.faults >= old(fs.faults)
    ensures ScratchKept(old(fs.disk).Files(), fs.disk.Files(), {temporary})
    ensures o.Ok? ==> World(fs.disk) == World(old(fs.disk))[Published(l) := old(fs.disk).Files()[temporary]]
    ensures l != Sidecar ==> SameInode(old(fs.disk), fs.disk, Published(Sidecar))
    ensures fs.faults == old(fs.faults) ==> o.Ok?
    ensures !o.Ok? ==> fs.disk == old(fs.disk) && fs.faults > old(fs.faults)
  {
    ghost var was := fs.disk;
    o := fs.Replace(temporary, Published(l));
    if o.Ok? {
      RenamedScratch(was, temporary, Published(l));
      OpenFrame(p, was, fs.disk, journal, journaled, base, {Published(l), temporary});
      PublishedWorld(was, fs.disk, Published(l), was.Files()[temporary], {Published(l), temporary});
    }
  }

  /** A recovery without faults completes. */
  ghost predicate Sound(p: Protocol, d: Storage) {
    && d.Valid() && (Journal in d.names ==> d.Files()[Journal].Record?)
    && Recoverable(p, d)
  }

  /** The journal that made recovery go back is still there. */
  ghost predicate Going(was: Storage, d: Storage)
    requires was.Valid() && d.Valid()
  {
    GoesBack(was) && SameAt(was.Files(), d.Files(), Journal)
  }

  lemma CompleteFrame(d: Storage, d': Storage, document: Document)
    requires d.Valid() && d'.Valid() && Complete(d.names.Keys, document)
    requires forall n: Name | !n.Scratch? :: SameAt(d.Files(), d'.Files(), n)
    ensures Complete(d'.names.Keys, document)
  {
    forall l | l in document.artifacts
      ensures EntryComplete(d'.names.Keys, document.artifacts[l], l)
    {
      var e := document.artifacts[l];
      assert EntryComplete(d.names.Keys, e, l);
      if e.backup.Some? {
        assert SameAt(d.Files(), d'.Files(), Backup(l, e.backup.value));
      }
    }
  }

  /** Closing staged files touches nothing a query or a recovery reads. */
  lemma ClosedFrame(d: Storage, d': Storage, except: set<Name>)
    requires d.Valid() && d'.Valid()
    requires Untouched(d.Files(), d'.Files(), except) && forall n | n in except :: n.Scratch?
    ensures World(d') == World(d) && SameAt(d.Files(), d'.Files(), Journal)
    ensures forall files :: Settles(d, files) ==> Settles(d', files)
    ensures forall p :: Sound(p, d) ==> Sound(p, d')
  {
    UntouchedWorld(d, d', except);
    assert SameAt(d.Files(), d'.Files(), Journal);
    assert forall n: Name | !n.Scratch? :: SameAt(d.Files(), d'.Files(), n);
    forall p | Sound(p, d)
      ensures Sound(p, d')
    {
      if GoesBack(d) {
        CompleteFrame(d, d', d.Files()[Journal].document);
      }
    }
    forall files | Settles(d, files)
      ensures Settles(d', files)
    {
      if Journal in d.names && !Accepting(d.Files()[Journal].document.phase) {
        BackedUpFrame(d, d', d.Files()[Journal].document, files, except);
        IntactFrame(d, d', d.Files()[Journal].document, files);
      }
    }
  }

  // ---------- Histories of requests ----------

  /** What the caller of a request was told: that it took effect, that everything
      is as it was, or neither. */
  datatype Reply = Acknowledged | Preserved | Unknown {
    predicate Tells(effect: bool) {
      match this
      case Acknowledged => effect
      case Preserved => !effect
      case Unknown => true
    }
  }

  /** Numbers below `n` in increasing order. */
  ghost predicate Ordered(effective: seq<nat>, n: nat) {
    && (forall k | 0 <= k < |effective| :: effective[k] < n)
    && (forall j, k | 0 <= j < k < |effective| :: effective[j] < effective[k])
  }

  /** Every reply tells the truth about whether its request is an effective one. */
  ghost predicate Truthful(replies: seq<Reply>, effective: seq<nat>) {
    forall i | 0 <= i < |replies| :: replies[i].Tells(i in effective)
  }

  ghost function Extended(effective: seq<nat>, i: nat, effect: bool): seq<nat> {
    if effect then effective + [i] else effective
  }

  lemma TruthfulMore(replies: seq<Reply>, effective: seq<nat>, reply: Reply, effect: bool)
    requires Ordered(effective, |replies|) && Truthful(replies, effective) && reply.Tells(effect)
    ensures Ordered(Extended(effective, |replies|, effect), |replies| + 1)
    ensures Truthful(replies + [reply], Extended(effective, |replies|, effect))
  {
    forall i | 0 <= i < |replies| + 1
      ensures (replies + [reply])[i].Tells(i in Extended(effective, |replies|, effect))
    {
      if i < |replies| {
        assert replies[i].Tells(i in effective);
      }
    }
  }
}
