/** Staged files and their publication steps (refresh_planner.py). */
module Staging {
  import opened Basics
  import opened FileSystems
  import opened Publication

  /** A published file took over `content`; nothing else a query reads changed. */
  lemma PublishedWorld(d: Storage, d': Storage, n: Name, content: Content, except: set<Name>)
    requires d.Valid() && d'.Valid() && (n.Published? || n.Shard?)
    requires Untouched(d.Files(), d'.Files(), except) && forall m | m in except :: m == n || m == Journal || m.Scratch?
    requires n in d'.names && d'.Files()[n] == content
    ensures World(d') == World(d)[n := content]
  {
    forall m: Name
      ensures m in World(d') <==> m in World(d)[n := content]
      ensures m in World(d') ==> World(d')[m] == World(d)[n := content][m]
    {
      if (m.Published? || m.Shard?) && m != n {
        assert SameAt(d.Files(), d'.Files(), m);
      }
    }
  }

  lemma UntouchedWorld(d: Storage, d': Storage, except: set<Name>)
    requires d.Valid() && d'.Valid()
    requires Untouched(d.Files(), d'.Files(), except) && forall m | m in except :: m == Journal || m.Scratch?
    ensures World(d') == World(d)
  {
    forall n: Name | n.Published? || n.Shard?
      ensures SameAt(d.Files(), d'.Files(), n)
    {
      assert n !in except;
    }
    WorldFrame(d, d');
  }

  /** A temporary file renamed over its destination. */
  lemma RenamedScratch(d: Storage, temporary: Name, n: Name)
    requires d.Valid() && temporary in d.names && temporary.Scratch? && !n.Scratch?
    ensures var d' := d.Renamed(temporary, n);
            Untouched(d.Files(), d'.Files(), {n, temporary}) && n in d'.names && d'.Files()[n] == d.Files()[temporary]
  {
  }

  /** A private backup from which an artifact of `base` can be had back; None stands for absence. */
  ghost predicate Copy(d: Storage, backup: Option<Name>, base: Files, l: Label)
    requires d.Valid()
  {
    match backup
    case None => Published(l) !in base
    case Some(b) => b.Scratch? && b in d.names && Published(l) in base && d.Files()[b] == base[Published(l)]
  }

  lemma CopyFrame(d: Storage, d': Storage, backup: Option<Name>, base: Files, l: Label, except: set<Name>)
    requires d.Valid() && d'.Valid() && Copy(d, backup, base, l)
    requires ScratchKept(d.Files(), d'.Files(), except) && (backup.Some? ==> backup.value !in except)
    ensures Copy(d', backup, base, l)
  {
  }

  /** A rollback took effect: the private backup moved over the artifact, or
      there was none and the artifact went. */
  ghost predicate TookBack(a: Files, b: Files, l: Label, backup: Option<Name>) {
    match backup
    case None => Published(l) !in b
    case Some(n) => n in a && Published(l) in b && b[Published(l)] == a[n]
  }

  method Stage(fs: FileSystem<Name, Content>, kind: Kind, content: Content) returns (o: Outcome, temporary: Name)
    requires fs.disk.Valid()
    modifies fs
    ensures fs.disk.Valid() && fs.faults >= old(fs.faults) && temporary.Scratch? && temporary.kind == kind
    ensures Untouched(old(fs.disk).Files(), fs.disk.Files(), {})
    ensures SameInode(old(fs.disk), fs.disk, Published(Sidecar))
    ensures o.Ok? ==> temporary !in old(fs.disk).names && temporary in fs.disk.names && fs.disk.Files()[temporary] == content
    ensures fs.disk.names.Keys <= old(fs.disk).names.Keys + {temporary}
    ensures !o.Ok? ==> fs.disk == old(fs.disk)
    ensures fs.faults == old(fs.faults) ==> o.Ok?
  {
    var suffix: nat :| true;
    temporary := Scratch(kind, suffix);
    o := fs.Create(temporary, content);
  }

  /** StagedGenerationManifest */
  class StagedManifest {
    const temporary: Name
    var backup: Option<Name>
    var published: bool

    ghost predicate Valid()
      reads this
    {
      && temporary.Scratch? && temporary.kind == ManifestCandidate
      && (backup.Some? ==> backup.value.Scratch? && backup.value.kind == ManifestBackup)
    }

    constructor (temporary: Name)
      requires temporary.Scratch? && temporary.kind == ManifestCandidate
      ensures Valid() && this.temporary == temporary && !published && backup == None
    {
      this.temporary := temporary;
      this.backup := None;
      this.published := false;
    }

    /** The old manifest gets a private hard link. */
    method LinkOld(fs: FileSystem<Name, Content>) returns (o: Outcome)
      requires fs.disk.Valid() && Valid() && backup == None
      modifies this`backup, fs
      ensures fs.disk.Valid() && Valid() && fs.faults >= old(fs.faults)
      ensures Untouched(old(fs.disk).Files(), fs.disk.Files(), {})
      ensures backup.Some? ==> backup.value !in old(fs.disk).names
      ensures temporary in old(fs.disk).names <==> temporary in fs.disk.names
      ensures SameInode(old(fs.disk), fs.disk, Published(Sidecar))
      ensures o.Ok? || backup.Some? ==> Copy(fs.disk, backup, old(fs.disk).Files(), Manifest)
      ensures fs.faults == old(fs.faults) ==> o.Ok?
    {
      if Published(Manifest) in fs.disk.names {
        var suffix: nat :| true;
        var name := Scratch(ManifestBackup, suffix);
        :- fs.Link(Published(Manifest), name);
        backup := Some(name);
      }
      o := Ok;
    }

    method Publish(fs: FileSystem<Name, Content>) returns (o: Outcome)
      requires fs.disk.Valid() && Valid() && !published && backup == None
      modifies this, fs
      ensures fs.disk.Valid() && Valid() && fs.faults >= old(fs.faults)
      ensures published <==> o.Ok?
      ensures o.Ok? ==>
        && temporary in old(fs.disk).names && Published(Manifest) in fs.disk.names
        && fs.disk.Files()[Published(Manifest)] == old(fs.disk).Files()[temporary]
        && Untouched(old(fs.disk).Files(), fs.disk.Files(), {Published(Manifest), temporary})
      ensures !o.Ok? ==> Untouched(old(fs.disk).Files(), fs.disk.Files(), {})
      ensures o.Ok? && backup.Some? ==> backup.value !in old(fs.disk).names
      ensures o.Ok? || backup.Some? ==> Copy(fs.disk, backup, old(fs.disk).Files(), Manifest)
      ensures SameInode(old(fs.disk), fs.disk, Published(Sidecar))
      ensures fs.faults == old(fs.faults) && temporary in old(fs.disk).names ==> o.Ok?
    {
      o := LinkOld(fs);
      if !o.Ok? {
        return;
      }
      ghost var linked := fs.disk;
      o := fs.Replace(temporary, Published(Manifest));
      if o.Ok? {
        RenamedScratch(linked, temporary, Published(Manifest));
        published := true;
      } else if o.Raised? && backup.Some? {
        var cleanup := fs.Unlink(backup.value);
        if cleanup.Crashed? {
          return Crashed;
        } else if cleanup.Ok? {
          backup := None;
        }
      }
    }

    /** Gives up the private backup; a failure to remove it is reported, not raised. */
    method Commit(fs: FileSystem<Name, Content>) returns (o: Outcome, clean: bool)
      requires fs.disk.Valid() && Valid()
      modifies this, fs
      ensures fs.disk.Valid() && Valid() && fs.faults >= old(fs.faults) && !o.Raised? && published == old(published)
      ensures fs.disk.names.Keys <= old(fs.disk).names.Keys
      ensures Untouched(old(fs.disk).Files(), fs.disk.Files(), OwnBackup(old(backup)))
      ensures SameInode(old(fs.disk), fs.disk, Published(Sidecar))
      ensures o.Ok? && clean && old(backup).Some? ==> backup == None && old(backup).value !in fs.disk.names
      ensures backup.Some? ==> backup == old(backup) && fs.disk == old(fs.disk)
      ensures old(backup).Some? && backup == None ==> old(backup).value !in fs.disk.names
      ensures fs.faults == old(fs.faults) ==> o.Ok? && clean
    {
      o, clean := Ok, true;
      if backup.Some? {
        o := fs.Unlink(backup.value);
        if o.Ok? {
          backup := None;
        } else if o.Raised? {
          o, clean := Ok, false;
        }
      }
    }

    /** The staged rollback: the private backup moves back over the manifest. */
    method Rollback(fs: FileSystem<Name, Content>) returns (o: Outcome)
      requires fs.disk.Valid() && Valid()
      modifies this, fs
      ensures fs.disk.Valid() && Valid() && fs.faults >= old(fs.faults)
      ensures Untouched(old(fs.disk).Files(), fs.disk.Files(),
                        {Published(Manifest), temporary} + OwnBackup(old(backup)))
      ensures o.Ok? && old(published) ==>
        !published && TookBack(old(fs.disk).Files(), fs.disk.Files(), Manifest, old(backup))
      ensures !(o.Ok? && old(published)) ==> SameAt(old(fs.disk).Files(), fs.disk.Files(), Published(Manifest))
      ensures SameInode(old(fs.disk), fs.disk, Published(Sidecar))
      ensures fs.faults == old(fs.faults) ==> !o.Crashed?
      ensures backup.Some? ==> backup == old(backup) && ScratchKept(old(fs.disk).Files(), fs.disk.Files(), {temporary})
      ensures fs.faults == old(fs.faults) && (old(published && backup.Some?) ==> old(backup).value in old(fs.disk).names) ==> o.Ok?
    {
      if !published {
        o := Close(fs);
        return;
      }
      if backup.None? {
        :- fs.Unlink(Published(Manifest));
      } else {
        :- fs.Replace(backup.value, Published(Manifest));
        backup := None;
      }
      published := false;
      o := Ok;
    }

    method Close(fs: FileSystem<Name, Content>) returns (o: Outcome)
      requires fs.disk.Valid() && Valid()
      modifies this, fs
      ensures fs.disk.Valid() && Valid() && fs.faults >= old(fs.faults)
      ensures fs.disk.names.Keys <= old(fs.disk).names.Keys && published == old(published)
      ensures Untouched(old(fs.disk).Files(), fs.disk.Files(),
                        {temporary} + OwnBackup(old(backup)))
      ensures o.Ok? && !old(published) ==> temporary !in fs.disk.names
      ensures backup.Some? ==> backup == old(backup) && ScratchKept(old(fs.disk).Files(), fs.disk.Files(), {temporary})
      ensures SameInode(old(fs.disk), fs.disk, Published(Sidecar))
      ensures fs.faults == old(fs.faults) ==> o.Ok?
    {
      if published {
        var clean;
        o, clean := Commit(fs);
      } else {
        o := fs.Unlink(temporary);
      }
    }
  }

  ghost function OwnBackup(backup: Option<Name>): set<Name> {
    if backup.Some? then {backup.value} else {}
  }

  ghost function OwnNames(temporary: Name, backup: Option<Name>): set<Name> {
    {temporary} + OwnBackup(backup)
  }

  /** StagedRegistrationIndex (python_registration_store.py), which also checks
      that the file it rolls back is still the one it published. */
  class StagedRegistration {
    const temporary: Name
    var backup: Option<Name>
    var published: bool
    var identity: Option<nat>

    ghost predicate Valid()
      reads this
    {
      && temporary.Scratch? && temporary.kind == RegistrationStage
      && (backup.Some? ==> backup.value.Scratch? && backup.value.kind == RegistrationBackup)
    }

    ghost predicate CanRollback(d: Storage)
      reads this
    {
      published ==> Identified(d) && (backup.Some? ==> backup.value in d.names)
    }

    /** The published index is the very file this object put there. */
    ghost predicate Identified(d: Storage)
      reads this
    {
      Published(Sidecar) in d.names && identity == Some(d.names[Published(Sidecar)])
    }

    constructor (temporary: Name)
      requires temporary.Scratch? && temporary.kind == RegistrationStage
      ensures Valid() && this.temporary == temporary && !published && backup == None && identity == None
    {
      this.temporary := temporary;
      this.backup := None;
      this.published := false;
      this.identity := None;
    }

    /** The old index gets a private hard link. */
    method LinkOld(fs: FileSystem<Name, Content>) returns (o: Outcome)
      requires fs.disk.Valid() && Valid() && backup == None
      modifies this`backup, fs
      ensures fs.disk.Valid() && Valid() && fs.faults >= old(fs.faults)
      ensures Untouched(old(fs.disk).Files(), fs.disk.Files(), {})
      ensures backup.Some? ==> backup.value !in old(fs.disk).names
      ensures temporary in old(fs.disk).names <==> temporary in fs.disk.names
      ensures o.Ok? || backup.Some? ==> Copy(fs.disk, backup, old(fs.disk).Files(), Sidecar)
      ensures fs.faults == old(fs.faults) ==> o.Ok?
    {
      if Published(Sidecar) in fs.disk.names {
        :- fs.Lstat(Published(Sidecar));
        var suffix: nat :| true;
        var name := Scratch(RegistrationBackup, suffix);
        :- fs.Link(Published(Sidecar), name);
        backup := Some(name);
      }
      o := Ok;
    }

    /** After the rename: remember the inode and sync the directory. */
    method Settle(fs: FileSystem<Name, Content>) returns (o: Outcome)
      requires fs.disk.Valid() && Valid()
      modifies this`identity, fs`faults
      ensures Valid() && fs.faults >= old(fs.faults)
      ensures o.Ok? ==> Identified(fs.disk)
      ensures Identified(fs.disk) || identity == old(identity)
      ensures fs.faults == old(fs.faults) && Published(Sidecar) in fs.disk.names ==> o.Ok?
    {
      o := fs.Lstat(Published(Sidecar));
      if !o.Ok? {
        return;
      }
      identity := Some(fs.disk.names[Published(Sidecar)]);
      o := fs.Fate();
    }

    /** The rename and what follows it. */
    method PublishTemporary(fs: FileSystem<Name, Content>) returns (o: Outcome)
      requires fs.disk.Valid() && Valid() && !published
      modifies this`published, this`identity, fs
      ensures fs.disk.Valid() && Valid() && fs.faults >= old(fs.faults)
      ensures Untouched(old(fs.disk).Files(), fs.disk.Files(), {Published(Sidecar), temporary})
      ensures o.Ok? ==>
        && published && Identified(fs.disk) && temporary in old(fs.disk).names && Published(Sidecar) in fs.disk.names
        && fs.disk.Files()[Published(Sidecar)] == old(fs.disk).Files()[temporary]
      ensures !published ==> fs.disk == old(fs.disk)
      ensures published ==> (Identified(fs.disk) || identity == old(identity)) && temporary in old(fs.disk).names
      ensures fs.faults == old(fs.faults) && temporary in old(fs.disk).names ==> o.Ok?
    {
      ghost var linked := fs.disk;
      o := fs.Replace(temporary, Published(Sidecar));
      if o.Ok? {
        RenamedScratch(linked, temporary, Published(Sidecar));
        published := true;
        o := Settle(fs);
      }
    }

    /** Publication with the old index backed up, and its way back. */
    method PublishOrUndo(fs: FileSystem<Name, Content>) returns (o: Outcome)
      requires fs.disk.Valid() && Valid() && !published && Copy(fs.disk, backup, fs.disk.Files(), Sidecar)
      modifies this, fs
      ensures fs.disk.Valid() && Valid() && fs.faults >= old(fs.faults)
      ensures Untouched(old(fs.disk).Files(), fs.disk.Files(), {Published(Sidecar)} + OwnNames(temporary, old(backup)))
      ensures backup.Some? ==> backup == old(backup) && ScratchKept(old(fs.disk).Files(), fs.disk.Files(), {temporary})
      ensures o.Ok? ==>
        && published && backup == old(backup) && temporary in old(fs.disk).names && Published(Sidecar) in fs.disk.names
        && fs.disk.Files()[Published(Sidecar)] == old(fs.disk).Files()[temporary]
        && Identified(fs.disk)
      ensures o.Raised? && fs.faults <= old(fs.faults) + 1 && old(identity) == None ==>
        SameAt(old(fs.disk).Files(), fs.disk.Files(), Published(Sidecar)) || (published && identity == None)
      ensures fs.faults == old(fs.faults) && temporary in old(fs.disk).names ==> o.Ok?
    {
      ghost var linked := fs.disk;
      o := PublishTemporary(fs);
      if o.Raised? {
        assert backup.Some? ==> backup.value in fs.disk.names && fs.disk.Files()[backup.value] == linked.Files()[backup.value];
        var undo := Undo(fs);
        o := if undo.Crashed? then Crashed else Raised;
      }
    }

    /** A directory sync that fails after the rename rolls the publication back. */
    method Publish(fs: FileSystem<Name, Content>) returns (o: Outcome)
      requires fs.disk.Valid() && Valid() && !published && backup == None
      modifies this, fs
      ensures fs.disk.Valid() && Valid() && fs.faults >= old(fs.faults)
      ensures Untouched(old(fs.disk).Files(), fs.disk.Files(), {Published(Sidecar), temporary})
      ensures o.Ok? ==>
        && published && temporary in old(fs.disk).names && Published(Sidecar) in fs.disk.names
        && fs.disk.Files()[Published(Sidecar)] == old(fs.disk).Files()[temporary]
        && Identified(fs.disk)
      ensures o.Ok? || backup.Some? ==> Copy(fs.disk, backup, old(fs.disk).Files(), Sidecar)
      // A single fault leaves the old index, unless it strikes before the new file is identified.
      ensures o.Raised? && fs.faults <= old(fs.faults) + 1 && old(identity) == None ==>
        SameAt(old(fs.disk).Files(), fs.disk.Files(), Published(Sidecar)) || (published && identity == None)
      ensures fs.faults == old(fs.faults) && temporary in old(fs.disk).names ==> o.Ok?
    {
      o := LinkOld(fs);
      if !o.Ok? {
        return;
      }
      assert SameAt(old(fs.disk).Files(), fs.disk.Files(), Published(Sidecar));
      o := PublishOrUndo(fs);
    }

    /** What publish does before it raises. */
    method Undo(fs: FileSystem<Name, Content>) returns (o: Outcome)
      requires fs.disk.Valid() && Valid()
      modifies this, fs
      ensures fs.disk.Valid() && Valid() && fs.faults >= old(fs.faults)
      ensures Untouched(old(fs.disk).Files(), fs.disk.Files(), {Published(Sidecar)} + OwnNames(temporary, old(backup)))
      ensures backup.Some? ==> backup == old(backup) && ScratchKept(old(fs.disk).Files(), fs.disk.Files(), {temporary})
      ensures fs.faults == old(fs.faults) && old(published && CanRollback(fs.disk)) ==>
        TookBack(old(fs.disk).Files(), fs.disk.Files(), Sidecar, old(backup))
      ensures SameAt(old(fs.disk).Files(), fs.disk.Files(), Published(Sidecar))
           || (old(published) && TookBack(old(fs.disk).Files(), fs.disk.Files(), Sidecar, old(backup)))
      ensures fs.faults == old(fs.faults) && !old(published) && old(backup).Some? ==>
        o.Ok? && backup == None && old(backup).value !in fs.disk.names
      ensures fs.faults == old(fs.faults) && old(published && identity == None) ==> published && identity == None
    {
      o := Ok;
      if published {
        o := Rollback(fs);
      } else if backup.Some? {
        o := fs.Unlink(backup.value);
        if o.Ok? {
          backup := None;
        }
      }
    }

    method Commit(fs: FileSystem<Name, Content>) returns (o: Outcome, clean: bool)
      requires fs.disk.Valid() && Valid()
      modifies this, fs
      ensures fs.disk.Valid() && Valid() && fs.faults >= old(fs.faults) && !o.Raised? && published == old(published)
      ensures identity == old(identity)
      ensures fs.disk.names.Keys <= old(fs.disk).names.Keys
      ensures Untouched(old(fs.disk).Files(), fs.disk.Files(), OwnNames(temporary, old(backup)))
      ensures o.Ok? && clean && old(backup).Some? ==> backup == None && old(backup).value !in fs.disk.names
      ensures backup.Some? ==> backup == old(backup) && fs.disk == old(fs.disk)
      ensures old(backup).Some? && backup == None ==> old(backup).value !in fs.disk.names
      ensures fs.faults == old(fs.faults) ==> o.Ok? && clean
    {
      o, clean := Ok, true;
      if backup.Some? {
        o := fs.Unlink(backup.value);
        if o.Ok? {
          backup := None;
          o := fs.Fate();
        }
        if o.Raised? {
          o, clean := Ok, false;
        }
      }
    }

    method Rollback(fs: FileSystem<Name, Content>) returns (o: Outcome)
      requires fs.disk.Valid() && Valid()
      modifies this, fs
      ensures fs.disk.Valid() && Valid() && fs.faults >= old(fs.faults)
      ensures Untouched(old(fs.disk).Files(), fs.disk.Files(), {Published(Sidecar)} + OwnNames(temporary, old(backup)))
      ensures !old(published) ==> Untouched(old(fs.disk).Files(), fs.disk.Files(), OwnNames(temporary, old(backup)))
      ensures o.Ok? && old(published) ==>
        && !published && identity == None && old(Identified(fs.disk))
        && TookBack(old(fs.disk).Files(), fs.disk.Files(), Sidecar, old(backup))
      ensures SameAt(old(fs.disk).Files(), fs.disk.Files(), Published(Sidecar))
           || (old(published) && TookBack(old(fs.disk).Files(), fs.disk.Files(), Sidecar, old(backup)))
      ensures fs.faults == old(fs.faults) ==> !o.Crashed?
      ensures backup.Some? ==> backup == old(backup) && ScratchKept(old(fs.disk).Files(), fs.disk.Files(), {temporary})
      ensures fs.faults == old(fs.faults) && old(CanRollback(fs.disk)) ==> o.Ok?
      ensures !o.Ok? ==> published == old(published) && identity == old(identity)
      ensures o.Ok? && !old(published) ==> temporary !in fs.disk.names
    {
      if !published {
        o := Close(fs);
        return;
      }
      :- fs.Lstat(Published(Sidecar));
      if identity != Some(fs.disk.names[Published(Sidecar)]) {
        return Raised;
      }
      if backup.None? {
        :- fs.Unlink(Published(Sidecar));
      } else {
        :- fs.Replace(backup.value, Published(Sidecar));
        backup := None;
      }
      :- fs.Fate();
      published := false;
      identity := None;
      o := Ok;
    }

    method Close(fs: FileSystem<Name, Content>) returns (o: Outcome)
      requires fs.disk.Valid() && Valid()
      modifies this, fs
      ensures fs.disk.Valid() && Valid() && fs.faults >= old(fs.faults)
      ensures fs.disk.names.Keys <= old(fs.disk).names.Keys && published == old(published)
      ensures identity == old(identity)
      ensures Untouched(old(fs.disk).Files(), fs.disk.Files(), OwnNames(temporary, old(backup)))
      ensures o.Ok? && !old(published) ==> temporary !in fs.disk.names
      ensures backup.Some? ==> backup == old(backup) && ScratchKept(old(fs.disk).Files(), fs.disk.Files(), {temporary})
      ensures fs.faults == old(fs.faults) ==> o.Ok?
    {
      if published {
        var clean;
        o, clean := Commit(fs);
      } else {
        o := fs.Unlink(temporary);
      }
    }
  }

  /** ProviderDatabaseBackup (refresh_coordinator.py) */
  class ProviderDatabaseBackup {
    const existed: bool
    var backup: Option<Name>

    ghost predicate Valid()
      reads this
    {
      backup.Some? ==> existed && backup.value.Scratch? && backup.value.kind == ProviderBackup
    }

    constructor (existed: bool, backup: Option<Name>)
      requires backup.Some? ==> existed && backup.value.Scratch? && backup.value.kind == ProviderBackup
      ensures Valid() && this.existed == existed && this.backup == backup
    {
      this.existed := existed;
      this.backup := backup;
    }

    static method Create(fs: FileSystem<Name, Content>) returns (o: Outcome, created: ProviderDatabaseBackup?)
      requires fs.disk.Valid()
      modifies fs
      ensures fs.disk.Valid() && fs.faults >= old(fs.faults)
      ensures Untouched(old(fs.disk).Files(), fs.disk.Files(), {})
      ensures o.Ok? ==> created != null && fresh(created) && created.Valid()
      ensures o.Ok? ==> (created.existed <==> Published(Provider) in fs.disk.names)
      ensures o.Ok? ==> Copy(fs.disk, created.backup, old(fs.disk).Files(), Provider)
      ensures fs.faults == old(fs.faults) ==> o.Ok?
      ensures !o.Ok? ==> created == null
    {
      created := null;
      if Published(Provider) !in fs.disk.names {
        created := new ProviderDatabaseBackup(false, None);
        return Ok, created;
      }
      var suffix: nat :| true;
      var name := Scratch(ProviderBackup, suffix);
      :- fs.Link(Published(Provider), name);
      created := new ProviderDatabaseBackup(true, Some(name));
      o := Ok;
    }

    method Rollback(fs: FileSystem<Name, Content>) returns (o: Outcome)
      requires fs.disk.Valid() && Valid()
      modifies this, fs
      ensures fs.disk.Valid() && Valid() && fs.faults >= old(fs.faults)
      ensures Untouched(old(fs.disk).Files(), fs.disk.Files(),
                        {Published(Provider)} + OwnBackup(old(backup)))
      ensures o.Ok? ==> TookBack(old(fs.disk).Files(), fs.disk.Files(), Provider, old(backup)) && (existed <==> old(backup).Some?)
      ensures if o.Ok? then backup == None else backup == old(backup) && fs.disk == old(fs.disk)
      ensures fs.faults == old(fs.faults) ==> !o.Crashed?
      ensures fs.faults == old(fs.faults) && (existed ==> old(backup).Some? && old(backup).value in old(fs.disk).names) ==> o.Ok?
    {
      if existed {
        if backup.None? {
          return Raised;
        }
        :- fs.Replace(backup.value, Published(Provider));
        backup := None;
      } else {
        :- fs.Unlink(Published(Provider));
      }
      o := Ok;
    }

    method Commit(fs: FileSystem<Name, Content>) returns (o: Outcome, clean: bool)
      requires fs.disk.Valid() && Valid()
      modifies this, fs
      ensures fs.disk.Valid() && Valid() && fs.faults >= old(fs.faults) && !o.Raised?
      ensures fs.disk.names.Keys <= old(fs.disk).names.Keys
      ensures Untouched(old(fs.disk).Files(), fs.disk.Files(), OwnBackup(old(backup)))
      ensures o.Ok? && clean && old(backup).Some? ==> backup == None && old(backup).value !in fs.disk.names
      ensures backup.Some? ==> backup == old(backup) && fs.disk == old(fs.disk)
      ensures old(backup).Some? && backup == None ==> old(backup).value !in fs.disk.names
      ensures fs.faults == old(fs.faults) ==> o.Ok? && clean
    {
      o, clean := Ok, true;
      if backup.Some? {
        o := fs.Unlink(backup.value);
        if o.Ok? {
          backup := None;
        } else if o.Raised? {
          o, clean := Ok, false;
        }
      }
    }
  }

  /** Besides these, new names are those of rewritten copies at most. */
  ghost predicate Added(names: set<Name>, names': set<Name>, except: set<Name>) {
    forall n | n in names' && n !in names && n !in except :: n.Scratch? && n.kind == RestoreTemporary
  }

  /** _restore_file: the remembered bytes in a fresh file, or no file. */
  method RestoreFile(fs: FileSystem<Name, Content>, l: Label, payload: Option<Content>) returns (o: Outcome)
    requires fs.disk.Valid()
    modifies fs
    ensures fs.disk.Valid() && fs.faults >= old(fs.faults)
    ensures Untouched(old(fs.disk).Files(), fs.disk.Files(), {Published(l)})
    ensures !o.Ok? ==> Untouched(old(fs.disk).Files(), fs.disk.Files(), {})
    ensures o.Ok? ==> match payload
                      case None => Published(l) !in fs.disk.names
                      case Some(content) => Published(l) in fs.disk.names && fs.disk.Files()[Published(l)] == content
    ensures fs.faults == old(fs.faults) ==> o.Ok?
    ensures Added(old(fs.disk).names.Keys, fs.disk.names.Keys, {Published(l)})
  {
    if payload.None? {
      o := fs.Unlink(Published(l));
      return;
    }
    var temporary;
    o, temporary := Stage(fs, RestoreTemporary, payload.value);
    if !o.Ok? {
      return;
    }
    o := MoveOver(fs, temporary, l);
  }

  /** The rename of a written copy, and the clean-up when it fails. */
  method MoveOver(fs: FileSystem<Name, Content>, temporary: Name, l: Label) returns (o: Outcome)
    requires fs.disk.Valid() && temporary.Scratch? && temporary in fs.disk.names
    modifies fs
    ensures fs.disk.Valid() && fs.faults >= old(fs.faults)
    ensures Untouched(old(fs.disk).Files(), fs.disk.Files(), if o.Ok? then {Published(l), temporary} else {temporary})
    ensures o.Ok? ==> Published(l) in fs.disk.names && fs.disk.Files()[Published(l)] == old(fs.disk).Files()[temporary]
    ensures fs.disk.names.Keys <= old(fs.disk).names.Keys + {Published(l)}
    ensures o.Raised? && fs.faults <= old(fs.faults) + 1 ==> temporary !in fs.disk.names
    ensures fs.faults == old(fs.faults) ==> o.Ok?
  {
    o := fs.Replace(temporary, Published(l));
    if o.Ok? {
      RenamedScratch(old(fs.disk), temporary, Published(l));
    } else if o.Raised? {
      var cleanup := fs.Unlink(temporary);
      o := if cleanup.Crashed? then Crashed else Raised;
    }
  }
}
