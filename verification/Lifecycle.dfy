/**
 The recovery journal around enable, update and stop (lifecycle_recovery.py).

 Unlike the refresh journals it restores by copying: a backup stays where it is
 until the journal has gone, so a recovery that is cut short can be repeated.
 */
module Lifecycle {
  import opened FileSystems

  datatype Label =
    | Config | Codex | Rule | Skill | LifecycleState | Index | Manifest | Registrations | RoutingState | Provider

  const LABELS: seq<Label> :=
    [Config, Codex, Rule, Skill, LifecycleState, Index, Manifest, Registrations, RoutingState, Provider]

  /** Files that Atlas alone writes; the other four belong to the repository. */
  predicate Owned(l: Label) {
    l in {LifecycleState, Index, Manifest, Registrations, RoutingState, Provider}
  }

  datatype Name =
    | Artifact(l: Label)
    | Journal
    | Backup(operation: string, l: Label)
    | JournalTemporary(suffix: nat)
    | RestoreTemporary(suffix: nat)

  /** SHA-256 of a payload, taken to be injective. */
  datatype Digest = Absent | Sha256(payload: string)

  datatype Content = File(bytes: string, mode: nat) | Record(document: Document)

  datatype Phase = Prepared | Accepted

  datatype Entry = Entry(existed: bool, backedUp: bool, mode: nat, before: Digest, allowed: set<Digest>, owned: bool)

  datatype Document = Document(phase: Phase, operation: string, artifacts: map<Label, Entry>)

  type Files = map<Name, Content>
  type Storage = Disk<Name, Content>
  type Store = FileSystem<Name, Content>

  const MAX_TRACKED_FILE_BYTES := 16 * 1024 * 1024

  // ---------- What a disk shows ----------

  ghost function World(d: Storage): Files
    requires d.Valid()
  {
    map n | n in d.names && n.Artifact? :: d.Files()[n]
  }

  function DigestOf(d: Storage, l: Label): (digest: Digest)
    requires d.Valid()
    ensures digest == Absent <==> Artifact(l) !in d.names || d.Files()[Artifact(l)].Record?
  {
    if Artifact(l) !in d.names then Absent
    else match d.data[d.names[Artifact(l)]]
         case File(bytes, _) => Sha256(bytes)
         case Record(_) => Absent
  }

  /** The journal can restore `l` to what it was in `before`. */
  ghost predicate Restorable(files: Files, document: Document, before: Files, l: Label) {
    && l in document.artifacts
    && var e := document.artifacts[l];
       && e.owned == Owned(l)
       && (e.existed <==> Artifact(l) in before) && (e.backedUp <==> e.existed)
       && e.before in e.allowed
       && if e.existed then
            && e.before.Sha256? && before[Artifact(l)] == File(e.before.payload, e.mode)
            && Backup(document.operation, l) in files && files[Backup(document.operation, l)].File?
            && files[Backup(document.operation, l)].bytes == e.before.payload
          else e.before == Absent
  }

  ghost predicate Protected(d: Storage, document: Document, before: Files)
    requires d.Valid()
  {
    forall l: Label :: Restorable(d.Files(), document, before, l)
  }

  ghost predicate Journaled(d: Storage, document: Document)
    requires d.Valid()
  {
    Journal in d.names && d.Files()[Journal] == Record(document)
  }

  /** A repository-owned file holds bytes this operation never wrote. */
  ghost predicate Foreign(d: Storage, document: Document, l: Label)
    requires d.Valid()
  {
    l in document.artifacts && !document.artifacts[l].owned && DigestOf(d, l) !in document.artifacts[l].allowed
  }

  ghost predicate Conflict(d: Storage, document: Document)
    requires d.Valid()
  {
    exists l: Label :: Foreign(d, document, l)
  }

  /** Any disk an interrupted operation can leave: `before` is what begin saw. */
  ghost predicate Interrupted(d: Storage, before: Files) {
    && d.Valid()
    && (Journal in d.names ==> d.Files()[Journal].Record? && Protected(d, d.Files()[Journal].document, before))
  }

  /** The same content, or none, behind a name. */
  ghost predicate SameAt(a: Files, b: Files, n: Name) {
    && (n in a <==> n in b)
    && (n in a ==> a[n] == b[n])
  }

  /** Outside `except`, only temporary files may differ. */
  ghost predicate Untouched(a: Files, b: Files, except: set<Name>) {
    forall n: Name | !n.JournalTemporary? && !n.RestoreTemporary? && n !in except :: SameAt(a, b, n)
  }

  /** Every name is an old one, an artifact or the journal: no temporary file and no
      backup has been added. */
  ghost predicate Clean(names: set<Name>, names': set<Name>) {
    forall n | n in names' :: n in names || n.Artifact? || n.Journal?
  }

  /** The same, but for the backups of one operation. */
  ghost predicate CleanBut(names: set<Name>, names': set<Name>, operation: string) {
    forall n | n in names' :: n in names || n.Artifact? || n.Journal? || (n.Backup? && n.operation == operation)
  }

  ghost predicate Gone(names: set<Name>, operation: string) {
    forall n | n in names && n.Backup? :: n.operation != operation
  }

  lemma ProtectedKept(d: Storage, d': Storage, document: Document, before: Files, except: set<Name>)
    requires d.Valid() && d'.Valid() && Protected(d, document, before)
    requires Untouched(d.Files(), d'.Files(), except) && forall n | n in except :: !n.Backup?
    ensures Protected(d', document, before)
  {
    forall l: Label
      ensures Restorable(d'.Files(), document, before, l)
    {
      assert Restorable(d.Files(), document, before, l);
      assert SameAt(d.Files(), d'.Files(), Backup(document.operation, l));
    }
  }

  lemma WorldKept(d: Storage, d': Storage, except: set<Name>)
    requires d.Valid() && d'.Valid()
    requires Untouched(d.Files(), d'.Files(), except) && forall n | n in except :: !n.Artifact?
    ensures World(d) == World(d')
  {
    forall n: Name
      ensures n in World(d) <==> n in World(d')
      ensures n in World(d) ==> World(d)[n] == World(d')[n]
    {
      if n.Artifact? {
        assert SameAt(d.Files(), d'.Files(), n);
      }
    }
  }

  lemma RenamedTemporary(d: Storage, temporary: Name, n: Name)
    requires d.Valid() && temporary in d.names && (temporary.JournalTemporary? || temporary.RestoreTemporary?)
    requires !n.JournalTemporary? && !n.RestoreTemporary?
    ensures var d' := d.Renamed(temporary, n);
            Untouched(d.Files(), d'.Files(), {n}) && n in d'.names && d'.Files()[n] == d.Files()[temporary]
  {
  }

  // ---------- Steps ----------

  /** _write_json */
  method WriteJson(fs: Store, document: Document) returns (o: Outcome)
    requires fs.disk.Valid()
    modifies fs
    ensures fs.disk.Valid() && fs.faults >= old(fs.faults)
    ensures Untouched(old(fs.disk).Files(), fs.disk.Files(), if o.Ok? then {Journal} else {})
    ensures o.Ok? ==> Journaled(fs.disk, document)
    ensures fs.faults == old(fs.faults) ==> o.Ok?
    ensures o.Ok? || (o.Raised? && fs.faults <= old(fs.faults) + 1) ==> Clean(old(fs.disk).names.Keys, fs.disk.names.Keys)
  {
    var suffix: nat :| true;
    var temporary := JournalTemporary(suffix);
    :- fs.Create(temporary, Record(document));
    assert temporary in fs.disk.Files() && fs.disk.Files()[temporary] == Record(document);
    o := fs.Replace(temporary, Journal);
    if o.Raised? {
      var cleanup := fs.Unlink(temporary);
      if cleanup.Crashed? {
        return Crashed;
      }
    }
  }

  /** _restore: a copy of the backup, with the recorded mode, renamed over the artifact. */
  method Restore(fs: Store, document: Document, l: Label, ghost before: Files) returns (o: Outcome)
    requires fs.disk.Valid() && Protected(fs.disk, document, before)
    modifies fs
    ensures fs.disk.Valid() && fs.faults >= old(fs.faults) && Protected(fs.disk, document, before)
    ensures Untouched(old(fs.disk).Files(), fs.disk.Files(), if o.Ok? then {Artifact(l)} else {})
    ensures o.Ok? ==> SameAt(fs.disk.Files(), before, Artifact(l))
    ensures fs.faults == old(fs.faults) ==> o.Ok?
    ensures !o.Crashed? && fs.faults <= old(fs.faults) + 1 ==> Clean(old(fs.disk).names.Keys, fs.disk.names.Keys)
  {
    ghost var was := fs.disk;
    assert Restorable(was.Files(), document, before, l);
    var e := document.artifacts[l];
    if e.existed {
      o := CopyOver(fs, document.operation, e.mode, l);
    } else {
      o := fs.Unlink(Artifact(l));
    }
    ProtectedKept(was, fs.disk, document, before, {Artifact(l)});
  }

  /** Writes a copy of a backup beside its destination and renames it into place. */
  method CopyOver(fs: Store, operation: string, mode: nat, l: Label) returns (o: Outcome)
    requires fs.disk.Valid() && Backup(operation, l) in fs.disk.names && fs.disk.Files()[Backup(operation, l)].File?
    modifies fs
    ensures fs.disk.Valid() && fs.faults >= old(fs.faults)
    ensures Untouched(old(fs.disk).Files(), fs.disk.Files(), if o.Ok? then {Artifact(l)} else {})
    ensures o.Ok? ==>
      && Artifact(l) in fs.disk.names
      && fs.disk.Files()[Artifact(l)] == File(old(fs.disk).Files()[Backup(operation, l)].bytes, mode)
    ensures fs.faults == old(fs.faults) ==> o.Ok?
    ensures !o.Crashed? && fs.faults <= old(fs.faults) + 1 ==> Clean(old(fs.disk).names.Keys, fs.disk.names.Keys)
  {
    var suffix: nat :| true;
    var temporary := RestoreTemporary(suffix);
    var bytes := fs.disk.data[fs.disk.names[Backup(operation, l)]].bytes;
    :- fs.Lstat(Backup(operation, l));
    :- fs.Create(temporary, File(bytes, mode));
    o := MoveOver(fs, temporary, l);
  }

  /** The rename of a written copy, and the clean-up when it fails. */
  method MoveOver(fs: Store, temporary: Name, l: Label) returns (o: Outcome)
    requires fs.disk.Valid() && temporary.RestoreTemporary? && temporary in fs.disk.names
    requires Artifact(l) in fs.disk.names ==> fs.disk.names[Artifact(l)] != fs.disk.names[temporary]
    modifies fs
    ensures fs.disk.Valid() && fs.faults >= old(fs.faults)
    ensures Untouched(old(fs.disk).Files(), fs.disk.Files(), if o.Ok? then {Artifact(l)} else {})
    ensures o.Ok? ==> Artifact(l) in fs.disk.names && fs.disk.Files()[Artifact(l)] == old(fs.disk).Files()[temporary]
    ensures fs.faults == old(fs.faults) ==> o.Ok?
    ensures !o.Crashed? && fs.faults <= old(fs.faults) + 1 ==> Clean(old(fs.disk).names.Keys - {temporary}, fs.disk.names.Keys)
  {
    o := fs.Replace(temporary, Artifact(l));
    if o.Ok? {
      RenamedTemporary(old(fs.disk), temporary, Artifact(l));
    } else if o.Raised? {
      var cleanup := fs.Unlink(temporary);
      o := if cleanup.Crashed? then Crashed else Raised;
    }
  }

  // ---------- Finishing ----------

  /** The first half of _finish: nothing is restored before every
      repository-owned artifact was found in a state this operation allows. */
  method Validate(fs: Store, document: Document) returns (o: Outcome, errors: bool)
    requires fs.disk.Valid() && forall l: Label :: l in document.artifacts
    modifies fs`faults
    ensures fs.faults >= old(fs.faults) && !o.Raised?
    ensures o.Ok? && !errors ==> !Conflict(fs.disk, document)
    ensures fs.faults == old(fs.faults) ==> o.Ok? && (errors <==> Conflict(fs.disk, document))
  {
    o, errors := Ok, false;
    for i := 0 to |LABELS|
      invariant fs.faults >= old(fs.faults)
      invariant !errors ==> forall j | 0 <= j < i :: !Foreign(fs.disk, document, LABELS[j])
      invariant fs.faults == old(fs.faults) && errors ==> Conflict(fs.disk, document)
    {
      var l := LABELS[i];
      if !document.artifacts[l].owned {
        var read := fs.Fate();
        if read.Crashed? {
          return Crashed, errors;
        }
        if read.Raised? || DigestOf(fs.disk, l) !in document.artifacts[l].allowed {
          assert read.Ok? ==> Foreign(fs.disk, document, l);
          errors := true;
        }
      }
    }
    if !errors {
      forall l: Label
        ensures !Foreign(fs.disk, document, l)
      {
        EveryLabel(l);
      }
    }
  }

  lemma EveryLabel(l: Label)
    ensures exists j | 0 <= j < |LABELS| :: LABELS[j] == l
  {
    match l {
      case Config => assert LABELS[0] == l;
      case Codex => assert LABELS[1] == l;
      case Rule => assert LABELS[2] == l;
      case Skill => assert LABELS[3] == l;
      case LifecycleState => assert LABELS[4] == l;
      case Index => assert LABELS[5] == l;
      case Manifest => assert LABELS[6] == l;
      case Registrations => assert LABELS[7] == l;
      case RoutingState => assert LABELS[8] == l;
      case Provider => assert LABELS[9] == l;
    }
  }

  /** Restoring cannot turn an allowed artifact into a foreign one. */
  lemma NoNewConflict(d: Storage, d': Storage, document: Document, before: Files, l: Label)
    requires d.Valid() && d'.Valid() && Protected(d, document, before)
    requires Untouched(d.Files(), d'.Files(), {Artifact(l)})
    requires SameAt(d'.Files(), before, Artifact(l)) || SameAt(d'.Files(), d.Files(), Artifact(l))
    requires !Conflict(d, document)
    ensures Protected(d', document, before) && !Conflict(d', document)
  {
    ProtectedKept(d, d', document, before, {Artifact(l)});
    forall m: Label
      ensures !Foreign(d', document, m)
    {
      assert !Foreign(d, document, m) && Restorable(d.Files(), document, before, m);
      if m != l {
        assert SameAt(d.Files(), d'.Files(), Artifact(m));
      }
    }
  }

  ghost predicate Restored(d: Storage, before: Files, l: Label)
    requires d.Valid()
  {
    SameAt(d.Files(), before, Artifact(l))
  }

  /** An artifact is back, or as it was. */
  ghost predicate BackOrSame(was: Storage, d: Storage, before: Files, l: Label)
    requires was.Valid() && d.Valid()
  {
    Restored(d, before, l) || SameAt(was.Files(), d.Files(), Artifact(l))
  }

  lemma BackOrSameStep(was: Storage, d: Storage, d': Storage, before: Files, l: Label)
    requires was.Valid() && d.Valid() && d'.Valid() && forall m: Label :: BackOrSame(was, d, before, m)
    requires Untouched(d.Files(), d'.Files(), {Artifact(l)}) && BackOrSame(d, d', before, l)
    ensures forall m: Label :: BackOrSame(was, d', before, m)
  {
    forall m: Label
      ensures BackOrSame(was, d', before, m)
    {
      assert BackOrSame(was, d, before, m);
      assert m != l ==> SameAt(d.Files(), d'.Files(), Artifact(m));
    }
  }

  /** The second half of _finish: every artifact, last label first, each failure
      noted and the rest still restored. */
  method RestoreAll(fs: Store, document: Document, ghost before: Files) returns (o: Outcome, errors: bool)
    requires fs.disk.Valid() && Protected(fs.disk, document, before) && !Conflict(fs.disk, document)
    modifies fs
    ensures fs.disk.Valid() && fs.faults >= old(fs.faults) && !o.Raised?
    ensures Protected(fs.disk, document, before) && !Conflict(fs.disk, document)
    ensures SameAt(old(fs.disk).Files(), fs.disk.Files(), Journal)
    ensures forall l: Label :: BackOrSame(old(fs.disk), fs.disk, before, l)
    ensures o.Ok? && !errors ==> forall l: Label :: Restored(fs.disk, before, l)
    ensures fs.faults == old(fs.faults) ==> o.Ok? && !errors
    ensures !o.Crashed? && fs.faults <= old(fs.faults) + 1 ==> Clean(old(fs.disk).names.Keys, fs.disk.names.Keys)
  {
    o, errors := Ok, false;
    var i := |LABELS|;
    while i > 0
      invariant 0 <= i <= |LABELS|
      invariant fs.disk.Valid() && fs.faults >= old(fs.faults)
      invariant Protected(fs.disk, document, before) && !Conflict(fs.disk, document)
      invariant SameAt(old(fs.disk).Files(), fs.disk.Files(), Journal)
      invariant forall l: Label :: BackOrSame(old(fs.disk), fs.disk, before, l)
      invariant !errors ==> forall j | i <= j < |LABELS| :: Restored(fs.disk, before, LABELS[j])
      invariant fs.faults == old(fs.faults) ==> !errors
      invariant fs.faults <= old(fs.faults) + 1 ==> Clean(old(fs.disk).names.Keys, fs.disk.names.Keys)
    {
      i := i - 1;
      var l := LABELS[i];
      ghost var was := fs.disk;
      var step := Restore(fs, document, l, before);
      assert SameAt(was.Files(), fs.disk.Files(), Journal);
      if step.Ok? {
        forall j | i < j < |LABELS| && Restored(was, before, LABELS[j])
          ensures Restored(fs.disk, before, LABELS[j])
        {
          assert LABELS[j] != l ==> SameAt(was.Files(), fs.disk.Files(), Artifact(LABELS[j]));
        }
      } else {
        assert SameAt(fs.disk.Files(), was.Files(), Artifact(l));
        errors := true;
      }
      NoNewConflict(was, fs.disk, document, before, l);
      BackOrSameStep(old(fs.disk), was, fs.disk, before, l);
      if step.Crashed? {
        return Crashed, errors;
      }
    }
    if !errors {
      forall l: Label
        ensures Restored(fs.disk, before, l)
      {
        EveryLabel(l);
      }
    }
  }

  /** shutil.rmtree of the operation directory */
  method RemoveBackups(fs: Store, operation: string) returns (o: Outcome)
    requires fs.disk.Valid()
    modifies fs
    ensures fs.disk.Valid() && fs.faults >= old(fs.faults)
    ensures World(fs.disk) == World(old(fs.disk)) && (Journal in fs.disk.names <==> Journal in old(fs.disk).names)
    ensures fs.faults == old(fs.faults) ==> o.Ok?
    ensures fs.disk.names.Keys <= old(fs.disk).names.Keys
    ensures o.Ok? ==> Gone(fs.disk.names.Keys, operation)
  {
    for i := 0 to |LABELS|
      invariant fs.disk.Valid() && fs.faults >= old(fs.faults)
      invariant World(fs.disk) == World(old(fs.disk)) && (Journal in fs.disk.names <==> Journal in old(fs.disk).names)
      invariant fs.disk.names.Keys <= old(fs.disk).names.Keys
      invariant forall j | 0 <= j < i :: Backup(operation, LABELS[j]) !in fs.disk.names
    {
      ghost var was := fs.disk;
      var name := Backup(operation, LABELS[i]);
      if name in fs.disk.names {
        :- fs.Unlink(name);
        WorldKept(was, fs.disk, {name});
      }
    }
    forall n | n in fs.disk.names && n.Backup?
      ensures n.operation != operation
    {
      EveryLabel(n.l);
    }
    o := Ok;
  }

  /** _finish: the journal goes before the backups do. */
  method Finish(fs: Store, document: Document, accept: bool, ghost before: Files) returns (o: Outcome, errors: bool)
    requires fs.disk.Valid() && forall n | n in before :: n.Artifact?
    requires Protected(fs.disk, document, before)
    modifies fs
    ensures fs.disk.Valid() && fs.faults >= old(fs.faults) && !o.Raised?
    ensures Journal in fs.disk.names ==>
      && SameAt(old(fs.disk).Files(), fs.disk.Files(), Journal)
      && Protected(fs.disk, document, before)
      && (accept ==> World(fs.disk) == World(old(fs.disk)))
      && (!accept && !old(Conflict(fs.disk, document)) ==> !Conflict(fs.disk, document))
      && forall l: Label :: BackOrSame(old(fs.disk), fs.disk, before, l)
    ensures Journal !in fs.disk.names && Journal in old(fs.disk).names ==>
      World(fs.disk) == if accept then World(old(fs.disk)) else before
    ensures o.Ok? && !errors ==> Journal !in fs.disk.names
    ensures !accept && old(Conflict(fs.disk, document)) ==> fs.disk == old(fs.disk) && !(o.Ok? && !errors)
    ensures fs.faults == old(fs.faults) ==> o.Ok? && (!errors <==> accept || !old(Conflict(fs.disk, document)))
    ensures !o.Crashed? && fs.faults <= old(fs.faults) + 1 ==> Clean(old(fs.disk).names.Keys, fs.disk.names.Keys)
    ensures o.Ok? && !errors ==> Gone(fs.disk.names.Keys, document.operation)
  {
    ghost var start := fs.disk;
    if !accept {
      forall l: Label
        ensures l in document.artifacts
      {
        assert Restorable(fs.disk.Files(), document, before, l);
      }
      o, errors := Validate(fs, document);
      if !o.Ok? || errors {
        return;
      }
      o, errors := RestoreAll(fs, document, before);
      if !o.Ok? || errors {
        return;
      }
      AllRestored(fs.disk, before);
    }
    ghost var restored := fs.disk;
    o, errors := Ok, false;
    var step := fs.Unlink(Journal);
    if step.Ok? {
      WorldKept(restored, fs.disk, {Journal});
      step := RemoveBackups(fs, document.operation);
    }
    if step.Crashed? {
      o := Crashed;
    }
    errors := step.Raised?;
  }

  lemma AllRestored(d: Storage, before: Files)
    requires d.Valid() && forall l: Label :: Restored(d, before, l)
    requires forall n | n in before :: n.Artifact?
    ensures World(d) == before
  {
    forall n: Name
      ensures n in World(d) <==> n in before
      ensures n in World(d) ==> World(d)[n] == before[n]
    {
      if n.Artifact? {
        assert Restored(d, before, n.l);
      }
    }
  }

  lemma OwnedOrTheirs(l: Label)
    ensures Owned(l) <==> l !in {Config, Codex, Rule, Skill}
  {
    match l
    case Config | Codex | Rule | Skill =>
    case LifecycleState | Index | Manifest | Registrations | RoutingState | Provider =>
  }

  /** Only the configuration, the Codex file, the rule and the skill belong to the
      repository: they alone can be in conflict. */
  lemma RepositoryFiles(d: Storage, document: Document, before: Files)
    requires d.Valid() && Protected(d, document, before)
    ensures Conflict(d, document) <==>
      exists l | l in {Config, Codex, Rule, Skill} :: l in document.artifacts && DigestOf(d, l) !in document.artifacts[l].allowed
  {
    forall l: Label
      ensures Foreign(d, document, l) <==>
        l in {Config, Codex, Rule, Skill} && l in document.artifacts && DigestOf(d, l) !in document.artifacts[l].allowed
    {
      assert Restorable(d.Files(), document, before, l);
      OwnedOrTheirs(l);
    }
  }

  // ---------- Recovery ----------

  /** What _validate demands of every entry. */
  predicate Acceptable(d: Storage, document: Document)
    requires d.Valid()
  {
    forall l: Label :: AcceptableEntry(d, document, l)
  }

  predicate AcceptableEntry(d: Storage, document: Document, l: Label) {
    && l in document.artifacts
    && var e := document.artifacts[l];
       && e.owned == Owned(l) && e.mode <= 0x1FF && e.before in e.allowed && e.backedUp == e.existed
       && (e.existed ==> Backup(document.operation, l) in d.names)
  }

  /** The only thing begin writes that validation can reject is a mode with bits
      outside rwxrwxrwx. */
  lemma AcceptableModes(d: Storage, document: Document, before: Files)
    requires d.Valid() && Protected(d, document, before)
    ensures Acceptable(d, document) <==> forall l: Label :: l in document.artifacts && document.artifacts[l].mode <= 0x1FF
  {
    forall l: Label
      ensures AcceptableEntry(d, document, l) <==> l in document.artifacts && document.artifacts[l].mode <= 0x1FF
    {
      assert Restorable(d.Files(), document, before, l);
    }
  }

  /** When recovery can finish. */
  ghost predicate Recoverable(d: Storage)
    requires d.Valid() && (Journal in d.names ==> d.Files()[Journal].Record?)
  {
    Journal in d.names ==>
      var document := d.Files()[Journal].document;
      Acceptable(d, document) && (document.phase == Accepted || !Conflict(d, document))
  }

  /** What a completed recovery makes of a disk. */
  ghost function Decided(d: Storage, before: Files): Files
    requires Interrupted(d, before)
  {
    if Journal in d.names && d.Files()[Journal].document.phase == Prepared then before else World(d)
  }

  predicate Orphan(n: Name) {
    n.JournalTemporary? || n.Backup?
  }

  /** _cleanup_orphans */
  method CleanupOrphans(fs: Store) returns (o: Outcome)
    requires fs.disk.Valid() && Journal !in fs.disk.names
    modifies fs
    ensures fs.disk.Valid() && fs.faults >= old(fs.faults)
    ensures World(fs.disk) == World(old(fs.disk)) && Journal !in fs.disk.names
    ensures o.Ok? ==> fs.disk.names.Keys == set n | n in old(fs.disk).names && !Orphan(n)
    ensures fs.disk.names.Keys <= old(fs.disk).names.Keys
    ensures fs.faults == old(fs.faults) ==> o.Ok?
  {
    var pending := set n | n in fs.disk.names && Orphan(n);
    while pending != {}
      invariant fs.disk.Valid() && fs.faults >= old(fs.faults)
      invariant World(fs.disk) == World(old(fs.disk)) && Journal !in fs.disk.names
      invariant pending <= fs.disk.names.Keys && forall n | n in pending :: Orphan(n)
      invariant fs.disk.names.Keys == pending + set n | n in old(fs.disk).names && !Orphan(n)
    {
      var n :| n in pending;
      ghost var was := fs.disk;
      :- fs.Lstat(n);
      :- fs.Unlink(n);
      WorldKept(was, fs.disk, {n});
      pending := pending - {n};
    }
    o := Ok;
  }

  /** recover_lifecycle_transaction.  It may be cut short any number of times: a
      journal it leaves behind still restores every artifact, and a conflict with
      a repository-owned file changes nothing. */
  method Recover(fs: Store, ghost before: Files) returns (o: Outcome)
    requires Interrupted(fs.disk, before) && forall n | n in before :: n.Artifact?
    modifies fs
    ensures Interrupted(fs.disk, before) && fs.faults >= old(fs.faults)
    ensures if Journal in fs.disk.names then SameAt(old(fs.disk).Files(), fs.disk.Files(), Journal)
            else World(fs.disk) == Decided(old(fs.disk), before)
    ensures Decided(fs.disk, before) == Decided(old(fs.disk), before)
    ensures o.Ok? ==> Journal !in fs.disk.names
    ensures Recoverable(old(fs.disk)) ==> Recoverable(fs.disk)
    ensures !Recoverable(old(fs.disk)) ==> !o.Ok? && fs.disk == old(fs.disk)
    ensures fs.faults == old(fs.faults) ==> (o.Ok? <==> Recoverable(old(fs.disk)))
    ensures !o.Crashed? && fs.faults <= old(fs.faults) + 1 ==> Clean(old(fs.disk).names.Keys, fs.disk.names.Keys)
    ensures o.Ok? ==> forall n | n in fs.disk.names :: !n.JournalTemporary? && !n.Backup?
  {
    ghost var start := fs.disk;
    if Journal in fs.disk.names {
      :- fs.Lstat(Journal);
      var content;
      o, content := fs.Read(Journal);
      if !o.Ok? {
        return;
      }
      var document := content.document;
      if !Acceptable(fs.disk, document) {
        return Raised;
      }
      var errors;
      o, errors := Finish(fs, document, document.phase == Accepted, before);
      if Journal in fs.disk.names {
        AcceptableModes(start, document, before);
        AcceptableModes(fs.disk, document, before);
      }
      if o.Crashed? || errors {
        o := if o.Crashed? then Crashed else Raised;
        return;
      }
    }
    o := CleanupOrphans(fs);
  }

  // ---------- The journal of one operation ----------

  /** Everything a fresh journal needs from a label: its digest, mode and backup. */
  method Track(fs: Store, operation: string, l: Label, planned: set<Digest>) returns (o: Outcome, e: Entry)
    requires fs.disk.Valid() && (Artifact(l) in fs.disk.names ==> fs.disk.Files()[Artifact(l)].File?)
    modifies fs
    ensures fs.disk.Valid() && fs.faults >= old(fs.faults)
    ensures Untouched(old(fs.disk).Files(), fs.disk.Files(), {Backup(operation, l)})
    ensures o.Ok? ==> Tracked(fs.disk.Files(), operation, l, e)
    ensures o.Ok? ==> e.allowed == {e.before} + planned
    ensures fs.faults == old(fs.faults) ==> !o.Crashed? && (o.Ok? <==> Trackable(World(old(fs.disk)), l))
    ensures CleanBut(old(fs.disk).names.Keys, fs.disk.names.Keys, operation)
    // The database is linked, every other artifact copied.
    ensures o.Ok? && e.existed && l != Provider ==> fs.disk.names[Backup(operation, l)] != fs.disk.names[Artifact(l)]
    ensures o.Ok? && e.existed && l == Provider && fs.faults == old(fs.faults) ==>
      fs.disk.names[Backup(operation, l)] == fs.disk.names[Artifact(l)]
  {
    e := Entry(false, false, 0x1A4, Absent, {Absent} + planned, Owned(l));
    if Artifact(l) in fs.disk.names {
      :- fs.Lstat(Artifact(l));
      var file := fs.disk.data[fs.disk.names[Artifact(l)]];
      if l != Provider && |file.bytes| > MAX_TRACKED_FILE_BYTES {
        return Raised, e;
      }
      e := Entry(true, true, file.mode, Sha256(file.bytes), {Sha256(file.bytes)} + planned, Owned(l));
      var linked := Raised;
      if l == Provider {
        linked := fs.Link(Artifact(l), Backup(operation, l));
        if linked.Crashed? {
          return Crashed, e;
        }
      }
      if linked.Raised? {
        :- fs.Create(Backup(operation, l), File(file.bytes, 0x1A4));
      }
    }
    o := Ok;
  }

  /** begin reads every artifact but the Provider's database into memory. */
  ghost predicate Trackable(files: Files, l: Label) {
    l != Provider && Artifact(l) in files && files[Artifact(l)].File? ==> |files[Artifact(l)].bytes| <= MAX_TRACKED_FILE_BYTES
  }

  /** The entry describes the artifact and its backup as they are now. */
  ghost predicate Tracked(files: Files, operation: string, l: Label, e: Entry) {
    && e.owned == Owned(l) && e.before in e.allowed && e.backedUp == e.existed
    && (e.existed <==> Artifact(l) in files)
    && if e.existed then
         && e.before.Sha256? && files[Artifact(l)] == File(e.before.payload, e.mode)
         && Backup(operation, l) in files && files[Backup(operation, l)].File?
         && files[Backup(operation, l)].bytes == e.before.payload
       else e.before == Absent && e.mode == 0x1A4
  }

  lemma TrackedKept(d: Storage, d': Storage, operation: string, artifacts: map<Label, Entry>, l: Label, e: Entry,
                    artifacts': map<Label, Entry>)
    requires artifacts' == artifacts[l := e] && d.Valid() && d'.Valid() && Untouched(d.Files(), d'.Files(), {Backup(operation, l)})
    requires forall m | m in artifacts :: Tracked(d.Files(), operation, m, artifacts[m])
    requires Tracked(d'.Files(), operation, l, e)
    ensures forall m | m in artifacts' :: Tracked(d'.Files(), operation, m, artifacts'[m])
  {
    forall m | m in artifacts && m != l
      ensures Tracked(d'.Files(), operation, m, artifacts[m])
    {
      assert Tracked(d.Files(), operation, m, artifacts[m]);
      assert SameAt(d.Files(), d'.Files(), Backup(operation, m)) && SameAt(d.Files(), d'.Files(), Artifact(m));
    }
  }

  ghost predicate Regular(files: Files) {
    forall n | n in files :: files[n].File?
  }

  lemma InWorld(d: Storage, l: Label)
    requires d.Valid()
    ensures SameAt(d.Files(), World(d), Artifact(l))
  {
  }

  function Planned(planned: map<Label, Digest>, l: Label): set<Digest> {
    if l in planned then {planned[l]} else {}
  }

  /** Allowed are the bytes that begin found and the ones that are planned. */
  predicate AllowedBy(e: Entry, l: Label, planned: map<Label, Digest>) {
    e.allowed == {e.before} + Planned(planned, l)
  }

  /** What begin notes so far is true of the disk and allows what it should. */
  ghost predicate Noted(files: Files, operation: string, artifacts: map<Label, Entry>, planned: map<Label, Digest>) {
    forall l | l in artifacts :: Tracked(files, operation, l, artifacts[l]) && AllowedBy(artifacts[l], l, planned)
  }

  /** Nothing has been added but backups of this operation. */
  ghost predicate OnlyBackups(was: Storage, d: Storage, operation: string) {
    && was.Valid() && d.Valid() && World(d) == World(was) && SameAt(was.Files(), d.Files(), Journal)
    && CleanBut(was.names.Keys, d.names.Keys, operation)
  }

  lemma OnlyBackupsTwice(a: Storage, b: Storage, c: Storage, operation: string)
    requires OnlyBackups(a, b, operation) && OnlyBackups(b, c, operation)
    ensures OnlyBackups(a, c, operation)
  {
  }

  lemma OneBackup(was: Storage, d: Storage, operation: string, l: Label)
    requires was.Valid() && d.Valid() && Untouched(was.Files(), d.Files(), {Backup(operation, l)})
    requires CleanBut(was.names.Keys, d.names.Keys, operation)
    ensures OnlyBackups(was, d, operation)
  {
    WorldKept(was, d, {Backup(operation, l)});
    assert SameAt(was.Files(), d.Files(), Journal);
  }

  lemma NotedNext(was: Storage, d: Storage, operation: string, artifacts: map<Label, Entry>, l: Label, e: Entry,
                  planned: map<Label, Digest>)
    requires was.Valid() && d.Valid() && Untouched(was.Files(), d.Files(), {Backup(operation, l)})
    requires Noted(was.Files(), operation, artifacts, planned)
    requires Tracked(d.Files(), operation, l, e) && AllowedBy(e, l, planned)
    ensures Noted(d.Files(), operation, artifacts[l := e], planned)
  {
    TrackedKept(was, d, operation, artifacts, l, e, artifacts[l := e]);
  }

  /** One more entry; the ones before it stay as they are. */
  method TrackNext(fs: Store, operation: string, l: Label, planned: map<Label, Digest>, artifacts: map<Label, Entry>)
    returns (o: Outcome, artifacts': map<Label, Entry>)
    requires fs.disk.Valid() && Regular(World(fs.disk))
    requires Noted(fs.disk.Files(), operation, artifacts, planned)
    modifies fs
    ensures OnlyBackups(old(fs.disk), fs.disk, operation) && fs.faults >= old(fs.faults)
    ensures o.Ok? ==> artifacts'.Keys == artifacts.Keys + {l}
    ensures o.Ok? ==> Noted(fs.disk.Files(), operation, artifacts', planned)
    ensures fs.faults == old(fs.faults) ==> !o.Crashed? && (o.Ok? <==> Trackable(World(old(fs.disk)), l))
  {
    ghost var was := fs.disk;
    var e;
    InWorld(was, l);
    o, e := Track(fs, operation, l, Planned(planned, l));
    OneBackup(was, fs.disk, operation, l);
    artifacts' := artifacts[l := e];
    if o.Ok? {
      NotedNext(was, fs.disk, operation, artifacts, l, e, planned);
    }
  }

  lemma AllLabels(artifacts: map<Label, Entry>, files: Files)
    requires forall j | 0 <= j < |LABELS| :: LABELS[j] in artifacts
    ensures forall l: Label :: l in artifacts
    ensures (forall j | 0 <= j < |LABELS| :: Trackable(files, LABELS[j])) ==> forall l: Label :: Trackable(files, l)
  {
    forall l: Label
      ensures l in artifacts
      ensures (forall j | 0 <= j < |LABELS| :: Trackable(files, LABELS[j])) ==> Trackable(files, l)
    {
      EveryLabel(l);
    }
  }

  /** The ten entries of begin; `planned` holds the routing payloads to come. */
  method TrackAll(fs: Store, operation: string, planned: map<Label, Digest>) returns (o: Outcome, artifacts: map<Label, Entry>)
    requires fs.disk.Valid() && Regular(World(fs.disk))
    modifies fs
    ensures OnlyBackups(old(fs.disk), fs.disk, operation) && fs.faults >= old(fs.faults)
    ensures o.Ok? ==> Noted(fs.disk.Files(), operation, artifacts, planned) && forall l: Label :: l in artifacts
    ensures fs.faults == old(fs.faults) ==> !o.Crashed? && (o.Ok? <==> forall l: Label :: Trackable(World(old(fs.disk)), l))
  {
    artifacts := map[];
    for i := 0 to |LABELS|
      invariant OnlyBackups(old(fs.disk), fs.disk, operation) && fs.faults >= old(fs.faults)
      invariant forall j | 0 <= j < i :: LABELS[j] in artifacts
      invariant Noted(fs.disk.Files(), operation, artifacts, planned)
      invariant fs.faults == old(fs.faults) ==> forall j | 0 <= j < i :: Trackable(World(old(fs.disk)), LABELS[j])
    {
      ghost var was := fs.disk;
      o, artifacts := TrackNext(fs, operation, LABELS[i], planned, artifacts);
      OnlyBackupsTwice(old(fs.disk), was, fs.disk, operation);
      if !o.Ok? {
        return;
      }
    }
    AllLabels(artifacts, World(old(fs.disk)));
    o := Ok;
  }

  lemma NotedAll(d: Storage, artifacts: map<Label, Entry>, operation: string, planned: map<Label, Digest>)
    requires d.Valid() && Noted(d.Files(), operation, artifacts, planned) && forall l: Label :: l in artifacts
    ensures forall l: Label :: Tracked(d.Files(), operation, l, artifacts[l])
    ensures forall l: Label :: AllowedBy(artifacts[l], l, planned)
  {
  }

  /** The first half of begin; a failure removes the backups again. */
  method BackUp(fs: Store, operation: string, planned: map<Label, Digest>) returns (o: Outcome, artifacts: map<Label, Entry>)
    requires fs.disk.Valid() && Regular(World(fs.disk))
    modifies fs
    ensures fs.disk.Valid() && fs.faults >= old(fs.faults) && World(fs.disk) == World(old(fs.disk))
    ensures Journal in fs.disk.names <==> Journal in old(fs.disk).names
    ensures o.Ok? ==> Noted(fs.disk.Files(), operation, artifacts, planned) && forall l: Label :: l in artifacts
    ensures fs.faults == old(fs.faults) ==> !o.Crashed? && (o.Ok? <==> forall l: Label :: Trackable(World(old(fs.disk)), l))
    ensures CleanBut(old(fs.disk).names.Keys, fs.disk.names.Keys, operation)
    ensures o.Raised? && fs.faults <= old(fs.faults) + (if forall l: Label :: Trackable(World(old(fs.disk)), l) then 1 else 0)
            ==> Gone(fs.disk.names.Keys, operation)
  {
    o, artifacts := TrackAll(fs, operation, planned);
    if o.Raised? {
      var cleanup := RemoveBackups(fs, operation);
      o := if cleanup.Crashed? then Crashed else Raised;
    }
  }

  /** The second half; a failure removes the backups again. */
  method WriteFirst(fs: Store, document: Document) returns (o: Outcome)
    requires fs.disk.Valid()
    modifies fs
    ensures fs.disk.Valid() && fs.faults >= old(fs.faults) && World(fs.disk) == World(old(fs.disk))
    ensures o.Ok? ==> Journaled(fs.disk, document) && Untouched(old(fs.disk).Files(), fs.disk.Files(), {Journal})
    ensures !o.Ok? ==> (Journal in fs.disk.names <==> Journal in old(fs.disk).names)
    ensures fs.faults == old(fs.faults) ==> o.Ok?
    ensures o.Ok? || (o.Raised? && fs.faults <= old(fs.faults) + 1) ==> Clean(old(fs.disk).names.Keys, fs.disk.names.Keys)
    ensures o.Raised? && fs.faults <= old(fs.faults) + 1 ==> Gone(fs.disk.names.Keys, document.operation)
  {
    ghost var was := fs.disk;
    o := WriteJson(fs, document);
    WorldKept(was, fs.disk, {Journal});
    if !o.Ok? {
      assert SameAt(was.Files(), fs.disk.Files(), Journal);
      if o.Raised? {
        var cleanup := RemoveBackups(fs, document.operation);
        o := if cleanup.Crashed? then Crashed else Raised;
      }
    }
  }

  class LifecycleRecoveryJournal {
    var document: Document

    constructor (document: Document)
      ensures this.document == document
    {
      this.document := document;
    }

    /** begin refuses to start over an unfinished operation, or in a directory
        that an earlier operation of the same id has left. */
    static method Begin(fs: Store, operation: string, planned: map<Label, Digest>)
      returns (o: Outcome, journal: LifecycleRecoveryJournal?)
      requires fs.disk.Valid() && Regular(World(fs.disk))
      modifies fs
      ensures fs.disk.Valid() && fs.faults >= old(fs.faults) && World(fs.disk) == World(old(fs.disk))
      ensures !o.Ok? ==> (Journal in fs.disk.names <==> Journal in old(fs.disk).names)
      ensures o.Ok? ==>
        && Journal !in old(fs.disk).names
        && journal != null && fresh(journal) && journal.document.phase == Prepared
        && Running(fs.disk, journal.document, World(old(fs.disk)))
        && (Modest(journal.document) <==> Plain(World(old(fs.disk))))
        && forall l: Label :: l in journal.document.artifacts && AllowedBy(journal.document.artifacts[l], l, planned)
      ensures fs.faults == old(fs.faults) ==>
        !o.Crashed? && (o.Ok? <==> Journal !in old(fs.disk).names && forall l: Label :: Trackable(World(old(fs.disk)), l))
      ensures o.Ok? ==> CleanBut(old(fs.disk).names.Keys, fs.disk.names.Keys, operation) && journal.document.operation == operation
      ensures o.Raised? && fs.faults <= old(fs.faults) + (if forall l: Label :: Trackable(World(old(fs.disk)), l) then 1 else 0)
              ==> Clean(old(fs.disk).names.Keys, fs.disk.names.Keys)
    {
      journal := null;
      if Journal in fs.disk.names {
        return Raised, null;
      }
      ghost var start := fs.disk;
      var artifacts;
      o, artifacts := BackUp(fs, operation, planned);
      if !o.Ok? {
        return;
      }
      var document := Document(Prepared, operation, artifacts);
      ghost var tracked := fs.disk;
      NotedAll(tracked, artifacts, operation, planned);
      o := WriteFirst(fs, document);
      if o.Ok? {
        WorldKept(tracked, fs.disk, {Journal});
        TrackedRunning(tracked, fs.disk, document);
        TrackedModes(tracked, document);
        journal := new LifecycleRecoveryJournal(document);
      }
    }

    /** allow: the digest of a payload is authorized on disk before it is written. */
    method Allow(fs: Store, l: Label, digest: Digest, ghost before: Files) returns (o: Outcome)
      requires Running(fs.disk, document, before)
      modifies this, fs
      ensures fs.disk.Valid() && World(fs.disk) == World(old(fs.disk)) && fs.faults >= old(fs.faults)
      ensures o.Ok? ==>
        && Running(fs.disk, document, before) && document.phase == old(document).phase
        && l in document.artifacts && digest in document.artifacts[l].allowed
      ensures (Modest(document) <==> Modest(old(document))) && document.operation == old(document).operation
      ensures !o.Ok? ==> Running(fs.disk, old(document), before) && Widened(old(document), document)
      ensures fs.faults == old(fs.faults) ==> o.Ok?
      ensures !o.Crashed? && fs.faults <= old(fs.faults) + 1 ==> Clean(old(fs.disk).names.Keys, fs.disk.names.Keys)
    {
      assert Restorable(fs.disk.Files(), document, before, l);
      var e := document.artifacts[l];
      if digest in e.allowed {
        return Ok;
      }
      var widened := document.(artifacts := document.artifacts[l := e.(allowed := e.allowed + {digest})]);
      WidenedModes(document, widened);
      o := Rewrite(fs, document, widened, before);
      document := widened;
    }

    /** accept */
    method Accept(fs: Store, ghost before: Files) returns (o: Outcome)
      requires Running(fs.disk, document, before)
      modifies this, fs
      ensures fs.disk.Valid() && World(fs.disk) == World(old(fs.disk)) && fs.faults >= old(fs.faults)
      ensures o.Ok? ==> document == old(document).(phase := Accepted) && Running(fs.disk, document, before)
      ensures !o.Ok? ==> Running(fs.disk, old(document), before) && Widened(old(document), document)
      ensures fs.faults == old(fs.faults) ==> o.Ok?
      ensures !o.Crashed? && fs.faults <= old(fs.faults) + 1 ==> Clean(old(fs.disk).names.Keys, fs.disk.names.Keys)
    {
      o := Rewrite(fs, document, document.(phase := Accepted), before);
      document := document.(phase := Accepted);
    }

    /** rollback in process: what is in memory may allow more than the journal on disk. */
    method Rollback(fs: Store, ghost journaled: Document, ghost before: Files) returns (o: Outcome, errors: bool)
      requires Running(fs.disk, journaled, before) && journaled.phase == Prepared && Widened(journaled, document)
      requires forall n | n in before :: n.Artifact?
      modifies fs
      ensures Interrupted(fs.disk, before) && Decided(fs.disk, before) == before && fs.faults >= old(fs.faults) && !o.Raised?
      ensures o.Ok? && !errors ==> Journal !in fs.disk.names && World(fs.disk) == before
      ensures Journal in fs.disk.names ==> Running(fs.disk, journaled, before)
      ensures fs.faults == old(fs.faults) ==> o.Ok? && !errors
      ensures !o.Crashed? && fs.faults <= old(fs.faults) + 1 ==> Clean(old(fs.disk).names.Keys, fs.disk.names.Keys)
      ensures o.Ok? && !errors ==> Gone(fs.disk.names.Keys, document.operation)
    {
      ghost var was := fs.disk;
      WidenedRunning(was, journaled, document, before);
      o, errors := Finish(fs, document, false, before);
      if Journal in fs.disk.names {
        Narrowed(was, fs.disk, journaled, document, before);
      }
    }

    /** commit: accept, then the clean-up. */
    method Commit(fs: Store, ghost before: Files) returns (o: Outcome, accepted: bool, clean: bool)
      requires Running(fs.disk, document, before) && document.phase == Prepared
      requires forall n | n in before :: n.Artifact?
      modifies this, fs
      ensures Interrupted(fs.disk, before) && World(fs.disk) == World(old(fs.disk)) && fs.faults >= old(fs.faults)
      ensures Decided(fs.disk, before) == if accepted then World(old(fs.disk)) else before
      ensures o.Ok? ==> accepted && (clean ==> Journal !in fs.disk.names)
      ensures !accepted ==> Running(fs.disk, old(document), before)
      ensures accepted && Journal in fs.disk.names ==> Running(fs.disk, document, before)
      ensures Widened(old(document), document)
      ensures fs.faults == old(fs.faults) ==> o.Ok? && clean
      ensures !o.Crashed? && fs.faults <= old(fs.faults) + 1 ==> Clean(old(fs.disk).names.Keys, fs.disk.names.Keys)
      ensures o.Ok? && clean ==> Gone(fs.disk.names.Keys, document.operation)
    {
      o := Accept(fs, before);
      accepted, clean := o.Ok?, false;
      if accepted {
        var errors;
        ghost var was := fs.disk;
        o, errors := Finish(fs, document, true, before);
        clean := !errors;
        if Journal in fs.disk.names {
          Narrowed(was, fs.disk, document, document, before);
        }
      }
    }
  }

  lemma WidenedRunning(d: Storage, journaled: Document, document: Document, before: Files)
    requires Running(d, journaled, before) && Widened(journaled, document)
    ensures Protected(d, document, before) && !Conflict(d, document)
  {
    forall l: Label
      ensures Restorable(d.Files(), document, before, l) && !Foreign(d, document, l)
    {
      assert Restorable(d.Files(), journaled, before, l) && !Foreign(d, journaled, l);
    }
  }

  /** What restores by the widened journal restores by the one on disk. */
  lemma Narrowed(was: Storage, d: Storage, journaled: Document, document: Document, before: Files)
    requires was.Valid() && d.Valid() && Protected(was, journaled, before) && Widened(journaled, document)
    requires Protected(d, document, before) && !Conflict(was, journaled)
    requires forall l: Label :: BackOrSame(was, d, before, l)
    ensures Protected(d, journaled, before) && !Conflict(d, journaled)
  {
    forall l: Label
      ensures Restorable(d.Files(), journaled, before, l) && !Foreign(d, journaled, l)
    {
      assert Restorable(was.Files(), journaled, before, l) && Restorable(d.Files(), document, before, l);
      assert !Foreign(was, journaled, l) && BackOrSame(was, d, before, l);
    }
  }

  /** Rewrites the journal of a running operation. */
  method Rewrite(fs: Store, ghost document: Document, document': Document, ghost before: Files) returns (o: Outcome)
    requires Running(fs.disk, document, before)
    requires Widened(document, document')
    modifies fs
    ensures fs.disk.Valid() && World(fs.disk) == World(old(fs.disk)) && fs.faults >= old(fs.faults)
    ensures Running(fs.disk, if o.Ok? then document' else document, before)
    ensures fs.faults == old(fs.faults) ==> o.Ok?
    ensures !o.Crashed? && fs.faults <= old(fs.faults) + 1 ==> Clean(old(fs.disk).names.Keys, fs.disk.names.Keys)
  {
    ghost var was := fs.disk;
    o := WriteJson(fs, document');
    WorldKept(was, fs.disk, {Journal});
    if o.Ok? {
      AllowedRunning(was, fs.disk, document, document', before);
    } else {
      WorldRunning(was, fs.disk, document, before, {});
    }
  }

  /** An operation is under way: its journal is on the disk and no
      repository-owned file holds bytes it did not authorize. */
  ghost predicate Running(d: Storage, document: Document, before: Files) {
    && d.Valid() && Journaled(d, document) && Protected(d, document, before) && !Conflict(d, document)
  }

  /** The same entries with more digests allowed, or a later phase. */
  ghost predicate Widened(document: Document, document': Document) {
    && document'.operation == document.operation && document'.artifacts.Keys == document.artifacts.Keys
    && forall l | l in document.artifacts ::
      && document.artifacts[l].allowed <= document'.artifacts[l].allowed
      && document'.artifacts[l] == document.artifacts[l].(allowed := document'.artifacts[l].allowed)
  }

  /** No artifact has mode bits outside rwxrwxrwx. */
  ghost predicate Plain(before: Files) {
    forall l: Label | Artifact(l) in before && before[Artifact(l)].File? :: before[Artifact(l)].mode <= 0x1FF
  }

  ghost predicate Modest(document: Document) {
    forall l: Label :: ModestEntry(document, l)
  }

  predicate ModestEntry(document: Document, l: Label) {
    l in document.artifacts && document.artifacts[l].mode <= 0x1FF
  }

  lemma TrackedModes(d: Storage, document: Document)
    requires d.Valid()
    requires forall l: Label :: l in document.artifacts && Tracked(d.Files(), document.operation, l, document.artifacts[l])
    ensures Modest(document) <==> Plain(World(d))
  {
    forall l: Label
      ensures ModestEntry(document, l) <==>
        (Artifact(l) in World(d) && World(d)[Artifact(l)].File? ==> World(d)[Artifact(l)].mode <= 0x1FF)
    {
      assert Tracked(d.Files(), document.operation, l, document.artifacts[l]);
    }
    if Modest(document) {
      forall l: Label | Artifact(l) in World(d) && World(d)[Artifact(l)].File?
        ensures World(d)[Artifact(l)].mode <= 0x1FF
      {
        assert ModestEntry(document, l);
      }
    }
  }

  lemma WidenedModes(document: Document, document': Document)
    requires Widened(document, document')
    ensures Modest(document) <==> Modest(document')
  {
    forall l: Label
      ensures ModestEntry(document, l) <==> ModestEntry(document', l)
    {
    }
  }

  lemma TrackedRunning(tracked: Storage, d: Storage, document: Document)
    requires tracked.Valid() && d.Valid()
    requires forall l: Label :: l in document.artifacts && Tracked(tracked.Files(), document.operation, l, document.artifacts[l])
    requires Untouched(tracked.Files(), d.Files(), {Journal}) && Journaled(d, document)
    ensures Running(d, document, World(tracked))
  {
    forall l: Label
      ensures Restorable(d.Files(), document, World(tracked), l) && !Foreign(d, document, l)
    {
      assert Tracked(tracked.Files(), document.operation, l, document.artifacts[l]);
      assert SameAt(tracked.Files(), d.Files(), Backup(document.operation, l));
      assert SameAt(tracked.Files(), d.Files(), Artifact(l));
    }
  }

  /** Widening the allowed digests, or accepting, keeps an operation running. */
  lemma AllowedRunning(d: Storage, d': Storage, document: Document, document': Document, before: Files)
    requires Running(d, document, before) && d'.Valid() && Journaled(d', document')
    requires Untouched(d.Files(), d'.Files(), {Journal})
    requires Widened(document, document')
    ensures Running(d', document', before)
  {
    ProtectedKept(d, d', document, before, {Journal});
    forall l: Label
      ensures Restorable(d'.Files(), document', before, l) && !Foreign(d', document', l)
    {
      assert Restorable(d'.Files(), document, before, l) && !Foreign(d, document, l);
      assert SameAt(d.Files(), d'.Files(), Artifact(l));
    }
  }

  /** Writing an authorized or an owned artifact keeps an operation running. */
  lemma WorldRunning(d: Storage, d': Storage, document: Document, before: Files, labels: set<Label>)
    requires Running(d, document, before) && d'.Valid()
    requires Untouched(d.Files(), d'.Files(), set l | l in labels :: Artifact(l))
    requires forall l | l in labels :: Owned(l) || (l in document.artifacts && DigestOf(d', l) in document.artifacts[l].allowed)
    ensures Running(d', document, before)
  {
    ProtectedKept(d, d', document, before, set l | l in labels :: Artifact(l));
    assert SameAt(d.Files(), d'.Files(), Journal);
    forall l: Label
      ensures !Foreign(d', document, l)
    {
      assert Restorable(d.Files(), document, before, l) && !Foreign(d, document, l);
      if l !in labels {
        assert SameAt(d.Files(), d'.Files(), Artifact(l));
      }
    }
  }

  // ---------- Every history ----------

  /** Atlas writes an artifact or removes it. */
  datatype Edit = Write(l: Label, bytes: string, mode: nat) | Remove(l: Label) {
    function Payload(): Digest {
      match this
      case Write(_, bytes, _) => Sha256(bytes)
      case Remove(_) => Absent
    }

    function Apply(files: Files): Files {
      match this
      case Write(l, bytes, mode) => files[Artifact(l) := File(bytes, mode)]
      case Remove(l) => files - {Artifact(l)}
    }
  }

  function ApplyAll(files: Files, edits: seq<Edit>): Files {
    if edits == [] then files else edits[|edits| - 1].Apply(ApplyAll(files, edits[..|edits| - 1]))
  }

  /** One edit; of a repository-owned artifact only after allow. */
  method Publish(fs: Store, journal: LifecycleRecoveryJournal, edit: Edit, ghost before: Files)
    returns (o: Outcome, ghost journaled: Document)
    requires Running(fs.disk, journal.document, before) && journal.document.phase == Prepared
    modifies fs, journal
    ensures Running(fs.disk, journaled, before) && journaled.phase == Prepared && Widened(journaled, journal.document)
    ensures (Modest(journaled) <==> Modest(old(journal.document))) && journal.document.operation == old(journal.document).operation
    ensures o.Ok? ==> journaled == journal.document
    ensures fs.faults >= old(fs.faults) && (fs.faults == old(fs.faults) ==> o.Ok?)
    ensures o.Ok? ==> World(fs.disk) == edit.Apply(World(old(fs.disk)))
    ensures !o.Crashed? && fs.faults <= old(fs.faults) + 1 ==> Clean(old(fs.disk).names.Keys, fs.disk.names.Keys)
  {
    journaled := journal.document;
    if !Owned(edit.l) {
      :- journal.Allow(fs, edit.l, edit.Payload(), before);
    }
    journaled := journal.document;
    ghost var was := fs.disk;
    o := EditArtifact(fs, edit);
    if o.Ok? {
      EditedWorld(was, fs.disk, edit);
      assert (set l | l in {edit.l} :: Artifact(l)) == {Artifact(edit.l)};
      WorldRunning(was, fs.disk, journal.document, before, {edit.l});
    } else {
      WorldRunning(was, fs.disk, journal.document, before, {});
    }
  }

  method EditArtifact(fs: Store, edit: Edit) returns (o: Outcome)
    requires fs.disk.Valid()
    modifies fs
    ensures fs.disk.Valid() && fs.faults >= old(fs.faults)
    ensures Untouched(old(fs.disk).Files(), fs.disk.Files(), if o.Ok? then {Artifact(edit.l)} else {})
    ensures o.Ok? ==> Edited(fs.disk.Files(), edit)
    ensures fs.faults == old(fs.faults) ==> o.Ok?
    ensures !o.Crashed? && fs.faults <= old(fs.faults) + 1 ==> Clean(old(fs.disk).names.Keys, fs.disk.names.Keys)
  {
    match edit {
      case Write(l, bytes, mode) => {
        var suffix: nat :| true;
        var temporary := RestoreTemporary(suffix);
        :- fs.Create(temporary, File(bytes, mode));
        o := MoveOver(fs, temporary, l);
      }
      case Remove(l) => {
        o := fs.Unlink(Artifact(l));
      }
    }
  }

  ghost predicate Edited(files: Files, edit: Edit) {
    match edit
    case Write(l, bytes, mode) => Artifact(l) in files && files[Artifact(l)] == File(bytes, mode)
    case Remove(l) => Artifact(l) !in files
  }

  lemma EditedWorld(d: Storage, d': Storage, edit: Edit)
    requires d.Valid() && d'.Valid() && Untouched(d.Files(), d'.Files(), {Artifact(edit.l)}) && Edited(d'.Files(), edit)
    ensures World(d') == edit.Apply(World(d)) && DigestOf(d', edit.l) == edit.Payload()
  {
    forall n: Name
      ensures n in World(d') <==> n in edit.Apply(World(d))
      ensures n in World(d') ==> World(d')[n] == edit.Apply(World(d))[n]
    {
      if n.Artifact? && n != Artifact(edit.l) {
        assert SameAt(d.Files(), d'.Files(), n);
      }
    }
  }

  /** Recovery of what an operation leaves is never blocked by a conflict, unless
      somebody else edits a repository-owned file; only a recorded mode with bits
      outside rwxrwxrwx makes validation reject the journal. */
  lemma RunningRecoverable(d: Storage, document: Document, before: Files)
    requires Running(d, document, before)
    ensures Recoverable(d) <==> Modest(document)
  {
    AcceptableModes(d, document, before);
    assert Modest(document) <==> forall l: Label :: l in document.artifacts && document.artifacts[l].mode <= 0x1FF by {
      if Modest(document) {
        forall l: Label
          ensures l in document.artifacts && document.artifacts[l].mode <= 0x1FF
        {
          assert ModestEntry(document, l);
        }
      }
    }
  }

  /** A project configuration that somebody made set-user-id. */
  const Setuid: Storage := Disk(map[Artifact(Config) := 0], map[0 := File("", 0x9ED)], 1)

  /** Whatever operation runs on it, no recovery of its journal completes. */
  lemma SetuidStuck(d: Storage, document: Document)
    requires Setuid.Valid() && Running(d, document, World(Setuid)) && Journal in d.names
    ensures !Plain(World(Setuid)) && !Recoverable(d)
  {
    var before := World(Setuid);
    assert Artifact(Config) in before && before[Artifact(Config)] == File("", 0x9ED);
    assert Restorable(d.Files(), document, before, Config);
    assert !ModestEntry(document, Config);
    RunningRecoverable(d, document, before);
  }

  /** How a program ends an operation: it may stop at any time, take it back, or commit it. */
  datatype Ending = Stop | TakeBack | Commit

  /** One operation and all the recoveries after it.

      The operation writes and removes artifacts, may be rolled back in process or
      committed, and stops anywhere, also inside these; an error in it may be
      handled by a rollback (`handles`).  Then recovery is started any number of
      times and cut short any number of times.  What the disk shows once the
      journal has gone is what begin saw, or, after an accepted operation, what the
      operation had published; and as long as begin saw no special mode bits, a
      recovery without faults always gets there. */
  method Lifetime(fs: Store, operation: string, planned: map<Label, Digest>, edits: seq<Edit>, ending: Ending, handles: bool,
                  attempts: nat)
    returns (accepted: bool, ghost published: Files)
    requires fs.disk.Valid() && Journal !in fs.disk.names
    requires Regular(World(fs.disk))
    modifies fs
    ensures Interrupted(fs.disk, World(old(fs.disk)))
    ensures Journal !in fs.disk.names ==> World(fs.disk) == if accepted then published else World(old(fs.disk))
    ensures accepted ==> ending == Commit && published == ApplyAll(World(old(fs.disk)), edits)
    ensures fs.faults == old(fs.faults) && ending != Stop ==> Journal !in fs.disk.names
    ensures fs.faults == old(fs.faults) && ending == Commit && (forall l: Label :: Trackable(World(old(fs.disk)), l)) ==> accepted
    ensures Plain(World(old(fs.disk))) ==> Recoverable(fs.disk)
    ensures fs.faults == old(fs.faults) && ending != Stop ==> Clean(old(fs.disk).names.Keys, fs.disk.names.Keys)
  {
    ghost var before := World(fs.disk);
    accepted, published := Operate(fs, operation, planned, edits, ending, handles);
    for i := 0 to attempts
      invariant Interrupted(fs.disk, before) && fs.faults >= old(fs.faults)
      invariant Decided(fs.disk, before) == if accepted then published else before
      invariant fs.faults == old(fs.faults) && ending != Stop ==> Journal !in fs.disk.names
      invariant fs.faults == old(fs.faults) && ending != Stop ==> Clean(old(fs.disk).names.Keys, fs.disk.names.Keys)
      invariant Plain(before) ==> Recoverable(fs.disk)
      invariant fs.faults == old(fs.faults) && ending == Commit && (forall l: Label :: Trackable(World(old(fs.disk)), l)) ==> accepted
    {
      var o := Recover(fs, before);
    }
  }

  method Operate(fs: Store, operation: string, planned: map<Label, Digest>, edits: seq<Edit>, ending: Ending, handles: bool)
    returns (accepted: bool, ghost published: Files)
    requires fs.disk.Valid() && Journal !in fs.disk.names
    requires Regular(World(fs.disk))
    modifies fs
    ensures Interrupted(fs.disk, World(old(fs.disk))) && fs.faults >= old(fs.faults)
    ensures Decided(fs.disk, World(old(fs.disk))) == if accepted then published else World(old(fs.disk))
    ensures accepted ==> ending == Commit && published == ApplyAll(World(old(fs.disk)), edits)
    ensures fs.faults == old(fs.faults) && ending != Stop ==> Journal !in fs.disk.names
    ensures fs.faults == old(fs.faults) && ending == Commit && (forall l: Label :: Trackable(World(old(fs.disk)), l)) ==> accepted
    ensures Plain(World(old(fs.disk))) ==> Recoverable(fs.disk)
    ensures fs.faults == old(fs.faults) && ending != Stop ==> Clean(old(fs.disk).names.Keys, fs.disk.names.Keys)
  {
    accepted := false;
    ghost var before := World(fs.disk);
    published := before;
    var o, journal := LifecycleRecoveryJournal.Begin(fs, operation, planned);
    if !o.Ok? {
      return;
    }
    for i := 0 to |edits|
      invariant fresh(journal) && Running(fs.disk, journal.document, before) && journal.document.phase == Prepared
      invariant World(fs.disk) == ApplyAll(before, edits[..i]) && fs.faults >= old(fs.faults)
      invariant Plain(before) ==> Modest(journal.document)
      invariant fs.faults == old(fs.faults) ==> CleanBut(old(fs.disk).names.Keys, fs.disk.names.Keys, operation)
      invariant journal.document.operation == operation
    {
      assert edits[..i + 1][..i] == edits[..i];
      ghost var journaled;
      o, journaled := Publish(fs, journal, edits[i], before);
      RunningRecoverable(fs.disk, journaled, before);
      if !o.Ok? {
        if o.Raised? && handles {
          var errors;
          o, errors := journal.Rollback(fs, journaled, before);
          if Journal in fs.disk.names {
            RunningRecoverable(fs.disk, journaled, before);
          }
        }
        return;
      }
    }
    assert edits[..|edits|] == edits;
    published := World(fs.disk);
    accepted := End(fs, journal, ending, handles, before);
  }

  /** rollback or commit at the end of an operation. */
  method End(fs: Store, journal: LifecycleRecoveryJournal, ending: Ending, handles: bool, ghost before: Files)
    returns (accepted: bool)
    requires Running(fs.disk, journal.document, before) && journal.document.phase == Prepared
    requires forall n | n in before :: n.Artifact?
    modifies fs, journal
    ensures Interrupted(fs.disk, before) && fs.faults >= old(fs.faults) && (accepted ==> ending == Commit)
    ensures Decided(fs.disk, before) == if accepted then World(old(fs.disk)) else before
    ensures old(Modest(journal.document)) ==> Recoverable(fs.disk)
    ensures fs.faults == old(fs.faults) && ending != Stop ==> Journal !in fs.disk.names && (accepted <==> ending == Commit)
    ensures fs.faults == old(fs.faults) && ending != Stop ==>
      Clean(old(fs.disk).names.Keys, fs.disk.names.Keys) && Gone(fs.disk.names.Keys, old(journal.document).operation)
  {
    accepted := false;
    ghost var journaled := journal.document;
    RunningRecoverable(fs.disk, journaled, before);
    var o, errors := Raised, false;
    if ending == Commit {
      var clean;
      o, accepted, clean := journal.Commit(fs, before);
      WidenedModes(journaled, journal.document);
      if Journal in fs.disk.names {
        RunningRecoverable(fs.disk, if accepted then journal.document else journaled, before);
      }
    }
    if !accepted && (ending == TakeBack || (ending == Commit && o.Raised? && handles)) {
      o, errors := journal.Rollback(fs, journaled, before);
      if Journal in fs.disk.names {
        RunningRecoverable(fs.disk, journaled, before);
      }
    }
  }
}
