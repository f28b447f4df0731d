/** Publishing and withdrawing the routing assets (routing_transaction.py). */
module RoutingTransactions {
  import opened Basics
  import opened FileSystems

  type Bytes = string

  /** A path below the repository by its components; the repository is []. */
  type Path = seq<string>

  datatype Asset = Asset(content: Bytes, mode: nat)

  const DEFAULT_MODE := 420 // 0o644
  const TEMPORARY_PREFIX := ".atlas-routing-"

  function Parent(path: Path): Path {
    if path == [] then [] else path[..|path| - 1]
  }

  predicate IsTemporary(path: Path) {
    path != [] && TEMPORARY_PREFIX <= path[|path| - 1]
  }

  /** What is not a temporary file of a publication. */
  ghost function Assets(files: map<Path, Asset>): map<Path, Asset> {
    map n | n in files && !IsTemporary(n) :: files[n]
  }

  ghost function Temporaries(files: map<Path, Asset>): map<Path, Asset> {
    map n | n in files && IsTemporary(n) :: files[n]
  }

  lemma SameFiles(a: map<Path, Asset>, b: map<Path, Asset>)
    requires Assets(a) == Assets(b) && Temporaries(a) == Temporaries(b)
    ensures a == b
  {
    forall n
      ensures n in a <==> n in b
      ensures n in a ==> a[n] == b[n]
    {
      assert n in a <==> n in Assets(a) || n in Temporaries(a);
      assert n in b <==> n in Assets(b) || n in Temporaries(b);
    }
  }

  function Members(paths: seq<Path>): set<Path> {
    set d | d in paths
  }

  /** Nothing lies in the directory. */
  ghost predicate Vacant(files: map<Path, Asset>, dirs: set<Path>, path: Path) {
    && (forall n | n in files && n != [] :: Parent(n) != path)
    && (forall d | d in dirs && d != [] :: Parent(d) != path)
  }

  /** Every file and every directory lies in one of the directories. */
  ghost predicate Supported(files: map<Path, Asset>, dirs: set<Path>) {
    && (forall n | n in files :: Parent(n) == [] || Parent(n) in dirs)
    && (forall d | d in dirs :: d != [] && (Parent(d) == [] || Parent(d) in dirs))
  }

  /** The content and mode at a path, as _read returns them. */
  function At(files: map<Path, Asset>, path: Path): Option<Asset> {
    if path in files then Some(files[path]) else None
  }

  function Put(files: map<Path, Asset>, path: Path, asset: Option<Asset>): map<Path, Asset> {
    if asset.Some? then files[path := asset.value] else files - {path}
  }

  // ---------- The worktree ----------

  /** Files and directories of the repository. A step may raise or crash at any
      time; renaming and unlinking may do so before or after they took effect. */
  class Worktree {
    var files: map<Path, Asset>
    var dirs: set<Path>
    ghost var faults: nat

    ghost predicate IsDirectory(path: Path)
      reads this
    {
      path == [] || path in dirs
    }

    method Fate() returns (o: Outcome)
      modifies this`faults
      ensures faults == if o.Ok? then old(faults) else old(faults) + 1
    {
      if * {
        o := Ok;
      } else if * {
        o := Raised;
        faults := faults + 1;
      } else {
        o := Crashed;
        faults := faults + 1;
      }
    }

    /** _read and the comparison of _check. */
    method Check(path: Path, expected: Option<Asset>) returns (o: Outcome)
      modifies this`faults
      ensures o.Ok? ==> At(files, path) == expected
      ensures faults >= old(faults) && (faults == old(faults) ==> (o.Ok? <==> At(files, path) == expected) && !o.Crashed?)
    {
      if At(files, path) != expected {
        return Raised;
      }
      o := Fate();
    }

    method Mkdir(path: Path) returns (o: Outcome)
      modifies this`dirs, this`faults
      ensures dirs == if o.Ok? then old(dirs) + {path} else old(dirs)
      ensures o.Ok? ==> path != [] && path !in old(dirs) && (Parent(path) == [] || Parent(path) in old(dirs))
      ensures faults >= old(faults) && (faults == old(faults) ==> !o.Crashed?)
      ensures faults == old(faults) && path != [] && old(IsDirectory(Parent(path))) && path !in old(dirs) && path !in files ==> o.Ok?
    {
      if !(Parent(path) == [] || Parent(path) in dirs) || path == [] || path in dirs || path in files {
        return Raised;
      }
      o := Fate();
      if o.Ok? {
        dirs := dirs + {path};
      }
    }

    /** rmdir() takes empty directories only. */
    method Rmdir(path: Path) returns (o: Outcome)
      modifies this`dirs, this`faults
      ensures dirs == old(dirs) || dirs == old(dirs) - {path}
      ensures o.Ok? ==> path in old(dirs) && Vacant(files, old(dirs), path) && path !in dirs
      ensures faults >= old(faults)
      ensures faults == old(faults) ==>
        !o.Crashed? && (o.Ok? <==> path in old(dirs) && Vacant(files, old(dirs), path)) && (!o.Ok? ==> dirs == old(dirs))
    {
      if path !in dirs || (exists n | n in files :: n != [] && Parent(n) == path) || (exists d | d in dirs :: d != [] && Parent(d) == path) {
        return Raised;
      }
      var done := *;
      o := Fate();
      if o.Ok? || done {
        dirs := dirs - {path};
      }
    }

    /** mkstemp: an empty file under an unused name. Not finding one is a fault. */
    method Mkstemp(path: Path) returns (o: Outcome)
      modifies this`files, this`faults
      ensures files == if o.Ok? then old(files)[path := Asset([], 384)] else old(files)
      ensures o.Ok? ==> path !in old(files)
      ensures faults >= old(faults) && (faults == old(faults) ==> !o.Crashed? && (IsDirectory(Parent(path)) ==> o.Ok?))
    {
      if path in files {
        faults := faults + 1;
        return Raised;
      }
      if !(Parent(path) == [] || Parent(path) in dirs) {
        return Raised;
      }
      o := Fate();
      if o.Ok? {
        files := files[path := Asset([], 384)];
      }
    }

    /** Writing and setting the mode of a file that nobody else knows. */
    method Fill(path: Path, asset: Asset) returns (o: Outcome)
      requires path in files
      modifies this`files, this`faults
      ensures path in files && files == old(files)[path := files[path]]
      ensures o.Ok? ==> files[path] == asset
      ensures faults >= old(faults) && (faults == old(faults) ==> o.Ok?)
    {
      var written: nat :| written <= |asset.content|;
      o := Fate();
      files := files[path := if o.Ok? then asset else Asset(asset.content[..written], files[path].mode)];
    }

    /** os.replace of one file over another that is not a link to it. */
    method Replace(src: Path, dst: Path) returns (o: Outcome)
      requires src in files && src != dst
      modifies this`files, this`faults
      ensures files == old(files) || files == (old(files) - {src})[dst := old(files)[src]]
      ensures o.Ok? ==> src !in files && dst in files && files[dst] == old(files)[src]
      ensures faults >= old(faults) && (faults == old(faults) ==> o.Ok?)
    {
      var done := *;
      o := Fate();
      if o.Ok? || done {
        files := (files - {src})[dst := files[src]];
      }
    }

    method Unlink(path: Path) returns (o: Outcome)
      modifies this`files, this`faults
      ensures files == old(files) || files == old(files) - {path}
      ensures o.Ok? ==> path !in files
      ensures faults >= old(faults) && (faults == old(faults) ==> !o.Crashed? && (path in old(files) ==> o.Ok?))
    {
      if path !in files {
        return Raised;
      }
      var done := *;
      o := Fate();
      if o.Ok? || done {
        files := files - {path};
      }
    }
  }

  // ---------- Plans ----------

  /** `target` is the mode that a removal record asks for. */
  datatype AssetPlan = AssetPlan(path: Path, before: Option<Bytes>, after: Option<Bytes>, mode: Option<nat>, target: Option<nat>) {
    function Before(): Option<Asset> {
      if before.Some? && mode.Some? then Some(Asset(before.value, mode.value)) else None
    }

    /** _after_mode */
    function After(): Option<Asset> {
      if after.None? then None
      else Some(Asset(after.value, if target.Some? then target.value else if mode.Some? then mode.value else DEFAULT_MODE))
    }

    /** _read gives a mode exactly when it gives content, and the plan is about a
        real asset whose directories are no temporary names. */
    predicate WellFormed() {
      && (before.Some? <==> mode.Some?) && path != []
      && forall k | 1 <= k <= |path| :: !IsTemporary(path[..k])
    }
  }

  /** A plan that changes no content keeps the file as it is, unless a record asks for
      a mode; a new file without one gets the default. */
  lemma ModeAfter(p: AssetPlan)
    requires p.WellFormed()
    ensures p.after == p.before && p.target.None? ==> p.After() == p.Before()
    ensures p.after.Some? && p.before.None? && p.target.None? ==> p.After() == Some(Asset(p.after.value, 0x1A4))
    ensures p.after.Some? && p.target.Some? ==> p.After() == Some(Asset(p.after.value, p.target.value))
    ensures p.after.None? <==> p.After().None?
  {
  }

  ghost predicate Planned(plans: seq<AssetPlan>) {
    && (forall p | p in plans :: p.WellFormed())
    && (forall i, j | 0 <= i < |plans| && 0 <= j < |plans| && i != j :: !(plans[i].path <= plans[j].path))
  }

  /** No directory on the way to the path is taken by a file. */
  ghost predicate Clear(files: map<Path, Asset>, path: Path) {
    forall k | 1 <= k < |path| :: path[..k] !in files
  }

  /** The directories made since are listed, in order, after those listed before. */
  ghost predicate Extended(listed: seq<Path>, dirs: set<Path>, listed': seq<Path>, dirs': set<Path>) {
    && listed <= listed'
    && dirs' == dirs + (set d | d in listed'[|listed|..])
    && forall j | |listed| <= j < |listed'| :: MadeAt(dirs, listed'[|listed|..j], listed'[j])
  }

  /** A directory that was made after the others: it is new, and what it lies in is not. */
  ghost predicate MadeAt(dirs: set<Path>, others: seq<Path>, d: Path) {
    && d != [] && d !in dirs && d !in others
    && (Parent(d) == [] || Parent(d) in dirs || Parent(d) in others)
  }

  lemma ExtendedOnce(listed: seq<Path>, dirs: set<Path>, listed': seq<Path>, dirs': set<Path>, d: Path)
    requires Extended(listed, dirs, listed', dirs') && d != [] && d !in dirs' && (Parent(d) == [] || Parent(d) in dirs')
    ensures Extended(listed, dirs, listed' + [d], dirs' + {d})
  {
    var more := listed' + [d];
    assert more[|listed|..] == listed'[|listed|..] + [d];
    forall j | |listed| <= j < |more|
      ensures MadeAt(dirs, more[|listed|..j], more[j])
    {
      assert j < |listed'| ==> more[|listed|..j] == listed'[|listed|..j];
      assert j == |listed'| ==> more[|listed|..j] == listed'[|listed|..];
    }
  }

  lemma ExtendedTwice(l: seq<Path>, d: set<Path>, l': seq<Path>, d': set<Path>, l'': seq<Path>, d'': set<Path>)
    requires Extended(l, d, l', d') && Extended(l', d', l'', d'')
    ensures Extended(l, d, l'', d'')
  {
    assert l''[|l|..] == l'[|l|..] + l''[|l'|..];
    forall j | |l| <= j < |l''|
      ensures MadeAt(d, l''[|l|..j], l''[j])
    {
      if j < |l'| {
        assert MadeAt(d, l'[|l|..j], l'[j]);
        assert l''[|l|..j] == l'[|l|..j];
      } else {
        assert MadeAt(d', l''[|l'|..j], l''[j]);
        assert l''[|l|..j] == l'[|l|..] + l''[|l'|..j];
      }
    }
  }

  /** The directory that was made last can be removed first. */
  lemma LastVacant(files: map<Path, Asset>, dirs: set<Path>, listed: seq<Path>, dirs': set<Path>, i: nat)
    requires Extended([], dirs, listed, dirs') && Supported(files, dirs) && i < |listed|
    ensures Vacant(files, dirs + Members(listed[..i + 1]), listed[i])
  {
    assert listed[0..i] == listed[..i];
    assert MadeAt(dirs, listed[..i], listed[i]);
    forall d | d in listed[..i + 1]
      ensures Parent(d) != listed[i]
    {
      var j :| 0 <= j <= i && listed[j] == d;
      assert MadeAt(dirs, listed[0..j], listed[j]);
      forall k | 0 <= k < j
        ensures listed[k] != listed[i]
      {
        assert listed[..i][k] == listed[k];
      }
    }
  }

  /** A publication has not happened, or it has; nothing else changes but temporary files. */
  ghost predicate Published(files: map<Path, Asset>, files': map<Path, Asset>, path: Path, to: Option<Asset>) {
    || Assets(files') == Assets(files)
    || Assets(files') == Put(Assets(files), path, to)
  }

  /** The plans that change something. */
  function Changing(plans: seq<AssetPlan>): (r: seq<AssetPlan>)
    ensures forall p | p in r :: p in plans && p.before != p.after
  {
    if plans == [] then []
    else
      var last := plans[|plans| - 1];
      Changing(plans[..|plans| - 1]) + if last.before != last.after then [last] else []
  }

  /** The assets once these plans are published. */
  function PutAll(files: map<Path, Asset>, plans: seq<AssetPlan>): map<Path, Asset> {
    if plans == [] then files
    else
      var last := plans[|plans| - 1];
      var rest := PutAll(files, plans[..|plans| - 1]);
      if last.before != last.after then Put(rest, last.path, last.After()) else rest
  }

  lemma PlannedAppend(some: seq<AssetPlan>, plans: seq<AssetPlan>, i: nat)
    requires Planned(plans) && i < |plans| && Planned(some) && forall p | p in some :: p in plans[..i]
    ensures Planned(some + [plans[i]]) && forall p | p in some + [plans[i]] :: p in plans[..i + 1]
  {
    assert plans[i] in plans && plans[..i + 1] == plans[..i] + [plans[i]];
    forall p | p in some
      ensures !(p.path <= plans[i].path) && !(plans[i].path <= p.path)
    {
      var k :| 0 <= k < i && plans[k] == p;
    }
  }

  lemma {:induction false} ChangingPlanned(plans: seq<AssetPlan>)
    requires Planned(plans)
    ensures Planned(Changing(plans))
  {
    if plans != [] {
      var front := plans[..|plans| - 1];
      assert forall p | p in front :: p in plans;
      ChangingPlanned(front);
      PlannedAppend(Changing(front), plans, |front|);
    }
  }

  /** Only the plans that change something put anything. */
  lemma {:induction false} PutAllAt(files: map<Path, Asset>, plans: seq<AssetPlan>, path: Path)
    requires forall p | p in Changing(plans) :: p.path != path
    ensures At(PutAll(files, plans), path) == At(files, path)
  {
    if plans != [] {
      PutAllAt(files, plans[..|plans| - 1], path);
    }
  }

  /** Each asset is as it was, or as its plan wants it. */
  ghost predicate Mixed(files: map<Path, Asset>, files': map<Path, Asset>, plans: seq<AssetPlan>) {
    forall path {:trigger MixedAt(files, files', plans, path)} :: MixedAt(files, files', plans, path)
  }

  ghost predicate MixedAt(files: map<Path, Asset>, files': map<Path, Asset>, plans: seq<AssetPlan>, path: Path) {
    || At(files', path) == At(files, path)
    || exists p | p in plans :: p.path == path && At(files', path) == p.After()
  }

  lemma {:induction false} PutAllMixed(files: map<Path, Asset>, plans: seq<AssetPlan>, n: nat)
    requires n <= |plans|
    ensures Mixed(files, PutAll(files, plans[..n]), plans)
  {
    if n > 0 {
      PutAllMixed(files, plans, n - 1);
      var last := plans[n - 1];
      assert plans[..n][..n - 1] == plans[..n - 1] && last in plans;
      forall path
        ensures MixedAt(files, PutAll(files, plans[..n]), plans, path)
      {
        assert MixedAt(files, PutAll(files, plans[..n - 1]), plans, path);
      }
    }
  }

  lemma TemporaryAssets(files: map<Path, Asset>, temporary: Path, asset: Asset)
    requires IsTemporary(temporary)
    ensures Assets(files[temporary := asset]) == Assets(files) == Assets(files - {temporary})
    ensures Temporaries(files[temporary := asset]) - {temporary} == Temporaries(files) - {temporary} == Temporaries(files - {temporary})
  {
  }

  lemma RenamedAssets(files: map<Path, Asset>, temporary: Path, path: Path, asset: Asset)
    requires IsTemporary(temporary) && !IsTemporary(path)
    ensures Assets((files - {temporary})[path := asset]) == Assets(files)[path := asset]
    ensures Temporaries((files - {temporary})[path := asset]) == Temporaries(files) - {temporary}
  {
  }

  lemma AtAssets(files: map<Path, Asset>, path: Path)
    requires !IsTemporary(path)
    ensures At(files, path) == At(Assets(files), path)
  {
  }

  lemma LastRemoved(dirs: set<Path>, listed: seq<Path>, dirs': set<Path>, i: nat)
    requires Extended([], dirs, listed, dirs') && i < |listed|
    ensures dirs + Members(listed[..i + 1]) - {listed[i]} == dirs + Members(listed[..i])
  {
    assert listed[0..i] == listed[..i];
    assert MadeAt(dirs, listed[..i], listed[i]);
    assert listed[..i + 1] == listed[..i] + [listed[i]];
  }

  class RoutingTransaction {
    const fs: Worktree
    const plans: seq<AssetPlan>
    var applied: seq<AssetPlan>
    var directories: seq<Path>
    var started: bool

    constructor (fs: Worktree, plans: seq<AssetPlan>)
      ensures this.fs == fs && this.plans == plans && applied == [] && directories == [] && !started
    {
      this.fs, this.plans, applied, directories, started := fs, plans, [], [], false;
    }

    ghost predicate Valid()
      reads this
    {
      Planned(plans) && Planned(applied) && (!started ==> applied == [] && directories == [])
    }

    /** The missing directories of a path, outermost first. */
    method MakeParents(path: Path) returns (o: Outcome)
      requires path != []
      modifies this`directories, fs`dirs, fs`faults
      ensures Extended(old(directories), old(fs.dirs), directories, fs.dirs)
      ensures fs.faults >= old(fs.faults)
      ensures fs.faults == old(fs.faults) ==> !o.Crashed?
      ensures fs.faults == old(fs.faults) && Clear(fs.files, path) ==> o.Ok? && fs.IsDirectory(Parent(path))
    {
      var missing: seq<Path> := [];
      var parent := Parent(path);
      while parent != [] && parent !in fs.dirs && parent !in fs.files
        invariant |missing| < |path| && parent == path[..|path| - 1 - |missing|]
        invariant forall i | 0 <= i < |missing| :: missing[i] == path[..|path| - 1 - i] && missing[i] !in fs.dirs
        decreases |parent|
      {
        missing := missing + [parent];
        parent := Parent(parent);
      }
      o := Ok;
      var i := |missing|;
      assert fs.faults == old(fs.faults) && Clear(fs.files, path) ==> fs.IsDirectory(parent);
      while i > 0
        invariant 0 <= i <= |missing| && Extended(old(directories), old(fs.dirs), directories, fs.dirs)
        invariant o.Ok? && fs.faults >= old(fs.faults)
        invariant forall j | 0 <= j < i :: missing[j] !in fs.dirs
        invariant fs.faults == old(fs.faults) && Clear(fs.files, path) ==> fs.IsDirectory(path[..|path| - 1 - i])
      {
        i := i - 1;
        assert Parent(missing[i]) == path[..|path| - 1 - (i + 1)];
        assert Clear(fs.files, path) ==> path[..|path| - 1 - i] !in fs.files;
        assert forall j | 0 <= j < i :: |missing[j]| != |missing[i]|;
        o := fs.Mkdir(missing[i]);
        if !o.Ok? {
          return;
        }
        ExtendedOnce(old(directories), old(fs.dirs), directories, fs.dirs - {missing[i]}, missing[i]);
        directories := directories + [missing[i]];
      }
    }

    /** _publish from its second check on: a temporary file is renamed over the target. */
    method Swap(path: Path, from: Option<Asset>, to: Asset) returns (o: Outcome)
      requires !IsTemporary(path) && path != []
      modifies fs`files, fs`faults
      ensures Published(old(fs.files), fs.files, path, Some(to)) && (o.Ok? ==> At(fs.files, path) == Some(to))
      ensures At(old(fs.files), path) != from ==> Assets(fs.files) == Assets(old(fs.files))
      ensures fs.faults >= old(fs.faults)
      ensures fs.faults == old(fs.faults) ==> !o.Crashed?
      ensures fs.faults == old(fs.faults) && fs.IsDirectory(Parent(path)) && At(old(fs.files), path) == from ==> o.Ok?
      ensures !o.Crashed? && fs.faults <= old(fs.faults) + (if At(old(fs.files), path) == from then 1 else 0) ==>
        Temporaries(fs.files) == Temporaries(old(fs.files))
    {
      o := fs.Check(path, from);
      if !o.Ok? {
        return;
      }
      var name: string :| TEMPORARY_PREFIX <= name;
      var temporary := Parent(path) + [name];
      assert Parent(temporary) == Parent(path);
      o := fs.Mkstemp(temporary);
      if o.Ok? {
        TemporaryAssets(old(fs.files), temporary, fs.files[temporary]);
        o := Rename(temporary, path, from, to);
      }
    }

    /** The body of the try statement, and its finally clause. */
    method Rename(temporary: Path, path: Path, from: Option<Asset>, to: Asset) returns (o: Outcome)
      requires IsTemporary(temporary) && !IsTemporary(path) && temporary in fs.files
      modifies fs`files, fs`faults
      ensures Published(old(fs.files), fs.files, path, Some(to)) && (o.Ok? ==> At(fs.files, path) == Some(to))
      ensures At(old(fs.files), path) != from ==> Assets(fs.files) == Assets(old(fs.files))
      ensures fs.faults >= old(fs.faults)
      ensures fs.faults == old(fs.faults) ==> !o.Crashed? && (At(old(fs.files), path) == from ==> o.Ok?)
      ensures !o.Crashed? && fs.faults <= old(fs.faults) + (if At(old(fs.files), path) == from then 1 else 0) ==>
        Temporaries(fs.files) == Temporaries(old(fs.files)) - {temporary}
    {
      o := fs.Fill(temporary, to);
      TemporaryAssets(old(fs.files), temporary, fs.files[temporary]);
      ghost var filled := fs.files;
      if o.Ok? {
        o := fs.Check(path, from);
      }
      if o.Ok? {
        o := fs.Replace(temporary, path);
        RenamedAssets(filled, temporary, path, to);
      }
      if !o.Crashed? && temporary in fs.files {
        TemporaryAssets(fs.files, temporary, to);
        var cleanup := fs.Unlink(temporary);
        o := if cleanup.Ok? then o else cleanup;
      }
    }

    /** _publish: from a checked state to another. */
    method Publish(path: Path, from: Option<Asset>, to: Option<Asset>) returns (o: Outcome)
      requires !IsTemporary(path) && path != []
      modifies this`directories, fs
      ensures Published(old(fs.files), fs.files, path, to) && (o.Ok? ==> At(fs.files, path) == to)
      ensures Extended(old(directories), old(fs.dirs), directories, fs.dirs)
      ensures At(old(fs.files), path) != from ==> Assets(fs.files) == Assets(old(fs.files)) && !o.Ok?
      ensures fs.faults >= old(fs.faults)
      ensures fs.faults == old(fs.faults) ==> !o.Crashed?
      ensures fs.faults == old(fs.faults) && Clear(old(fs.files), path) && At(old(fs.files), path) == from ==> o.Ok?
      ensures !o.Crashed? && fs.faults <= old(fs.faults) + (if At(old(fs.files), path) == from then 1 else 0) ==>
        Temporaries(fs.files) == Temporaries(old(fs.files))
    {
      o := fs.Check(path, from);
      if !o.Ok? {
        return;
      }
      if to.None? {
        if from.Some? {
          o := fs.Unlink(path);
          assert Assets(old(fs.files) - {path}) == Assets(old(fs.files)) - {path};
        }
        return;
      }
      o := MakeParents(path);
      if o.Ok? {
        o := Swap(path, from, to.value);
      }
    }

    /** The end of rollback(): the created directories, innermost first. */
    method RemoveDirectories(ghost dirs: set<Path>) returns (o: Outcome, complete: bool)
      modifies this`directories, fs`dirs, fs`faults
      ensures o.Ok? && complete ==> fs.dirs == old(fs.dirs) - (set d | d in old(directories))
      ensures !o.Raised? && (o.Ok? ==> directories == [])
      ensures fs.faults >= old(fs.faults) && (fs.faults == old(fs.faults) ==> o.Ok?)
      ensures old(directories) == [] ==> fs.faults == old(fs.faults)
      ensures fs.faults == old(fs.faults) && Extended([], dirs, old(directories), old(fs.dirs)) && Supported(fs.files, dirs) ==> complete
    {
      complete := true;
      var i := |directories|;
      while i > 0
        invariant 0 <= i <= |directories| && directories == old(directories) && fs.faults >= old(fs.faults)
        invariant i == |directories| ==> fs.faults == old(fs.faults)
        invariant old(fs.dirs) - (set d | d in directories) <= fs.dirs <= old(fs.dirs)
        invariant complete ==> forall j | i <= j < |directories| :: directories[j] !in fs.dirs
        invariant fs.faults == old(fs.faults) && Extended([], dirs, directories, old(fs.dirs)) && Supported(fs.files, dirs) ==>
          complete && fs.dirs == dirs + Members(directories[..i])
      {
        i := i - 1;
        ghost var was := fs.dirs;
        if Extended([], dirs, directories, old(fs.dirs)) && Supported(fs.files, dirs) {
          LastVacant(fs.files, dirs, directories, old(fs.dirs), i);
          LastRemoved(dirs, directories, old(fs.dirs), i);
        }
        o := fs.Rmdir(directories[i]);
        if o.Crashed? {
          return;
        }
        if directories[i] in fs.dirs {
          complete := false;
        }
      }
      assert complete ==> fs.dirs == old(fs.dirs) - (set d | d in directories);
      directories := [];
      o := Ok;
    }

    /** One target of rollback(): it is left alone when it is at its original state. */
    method Restore(plan: AssetPlan) returns (o: Outcome)
      requires plan.WellFormed()
      modifies this`directories, fs
      ensures Published(old(fs.files), fs.files, plan.path, plan.Before())
      ensures Extended(old(directories), old(fs.dirs), directories, fs.dirs)
      ensures o.Ok? ==> At(fs.files, plan.path) == plan.Before()
      ensures fs.faults >= old(fs.faults)
      ensures fs.faults == old(fs.faults) ==> !o.Crashed?
      ensures fs.faults == old(fs.faults) && Clear(old(fs.files), plan.path) && At(old(fs.files), plan.path) in {plan.Before(), plan.After()}
              ==> o.Ok?
      ensures fs.faults == old(fs.faults) ==> Temporaries(fs.files) == Temporaries(old(fs.files))
    {
      assert plan.path[..|plan.path|] == plan.path;
      o := fs.Fate();
      if !o.Ok? || At(fs.files, plan.path) == plan.Before() {
        return;
      }
      o := Publish(plan.path, plan.After(), plan.Before());
    }

    /** One turn of rollback(). */
    method RollbackStep(i: nat, ghost start: map<Path, Asset>) returns (o: Outcome)
      requires Planned(applied) && i < |applied| && Back(start, Assets(fs.files), applied)
      modifies this`directories, fs
      ensures Back(start, Assets(fs.files), applied)
      ensures Extended(old(directories), old(fs.dirs), directories, fs.dirs)
      ensures o.Ok? && Restored(Assets(old(fs.files)), applied[i + 1..]) ==> Restored(Assets(fs.files), applied[i..])
      ensures fs.faults >= old(fs.faults)
      ensures fs.faults == old(fs.faults) && Revocable(Assets(old(fs.files)), applied) ==> o.Ok? && Revocable(Assets(fs.files), applied)
      ensures fs.faults == old(fs.faults) ==> !o.Crashed? && Temporaries(fs.files) == Temporaries(old(fs.files))
    {
      var plan := applied[i];
      assert plan in applied && plan.path[..|plan.path|] == plan.path;
      AtAssets(fs.files, plan.path);
      ClearAssets(fs.files, plan);
      ghost var before := Assets(fs.files);
      o := Restore(plan);
      AtAssets(fs.files, plan.path);
      BackStep(start, before, Assets(fs.files), applied, i);
      MixtureStep(before, Assets(fs.files), applied, i);
      if o.Ok? {
        RestoredStep(before, Assets(fs.files), applied, i);
      }
    }

    /** rollback(): `complete` says that it reports no error. */
    method Rollback(ghost dirs: set<Path>) returns (o: Outcome, complete: bool)
      requires Valid()
      modifies this`applied, this`directories, fs
      ensures !o.Raised? && Planned(plans)
      ensures Back(Assets(old(fs.files)), Assets(fs.files), old(applied))
      ensures o.Ok? && complete ==> Restored(Assets(fs.files), old(applied))
      ensures o.Ok? && complete ==> fs.dirs == old(fs.dirs) - (set d | d in old(directories))
      ensures o.Ok? ==> applied == [] && directories == []
      ensures fs.faults >= old(fs.faults)
      ensures old(applied) == [] && old(directories) == [] ==> fs.faults == old(fs.faults)
      ensures fs.faults == old(fs.faults) && Revocable(Assets(old(fs.files)), old(applied))
              ==> o.Ok? && Restored(Assets(fs.files), old(applied))
      ensures fs.faults == old(fs.faults) ==> o.Ok? && Temporaries(fs.files) == Temporaries(old(fs.files))
      ensures fs.faults == old(fs.faults) && Revocable(Assets(old(fs.files)), old(applied))
              && Extended([], dirs, old(directories), old(fs.dirs)) && Supported(fs.files, dirs)
              ==> complete
    {
      complete := true;
      ghost var start := Assets(fs.files);
      var i := |applied|;
      while i > 0
        invariant 0 <= i <= |applied| && applied == old(applied)
        invariant Extended(old(directories), old(fs.dirs), directories, fs.dirs)
        invariant Back(start, Assets(fs.files), applied)
        invariant complete ==> Restored(Assets(fs.files), applied[i..])
        invariant fs.faults >= old(fs.faults) && (i == |applied| ==> fs.faults == old(fs.faults) && directories == old(directories))
        invariant fs.faults == old(fs.faults) && Revocable(start, applied) ==> complete && Revocable(Assets(fs.files), applied)
        invariant fs.faults == old(fs.faults) ==> Temporaries(fs.files) == Temporaries(old(fs.files))
      {
        i := i - 1;
        ghost var listed, dirs := directories, fs.dirs;
        o := RollbackStep(i, start);
        ExtendedTwice(old(directories), old(fs.dirs), listed, dirs, directories, fs.dirs);
        if o.Crashed? {
          return;
        }
        complete := complete && o.Ok?;
      }
      assert applied[0..] == applied;
      applied := [];
      DirectoriesGone(old(directories), old(fs.dirs), directories, fs.dirs);
      var removed;
      if Extended([], dirs, old(directories), old(fs.dirs)) {
        ExtendedTwice([], dirs, old(directories), old(fs.dirs), directories, fs.dirs);
      }
      o, removed := RemoveDirectories(dirs);
      complete := complete && removed;
    }

    /** apply(): on failure the assets are as before, if the rollback is complete. */
    method Apply() returns (o: Outcome, complete: bool)
      requires Valid()
      modifies this`applied, this`directories, this`started, fs
      ensures old(started) ==> o.Raised? && complete && fs.files == old(fs.files) && fs.dirs == old(fs.dirs)
      ensures o.Ok? ==> Restored(Assets(old(fs.files)), plans)
      ensures o.Ok? ==> Assets(fs.files) == PutAll(Assets(old(fs.files)), plans)
      ensures o.Raised? && complete ==> Assets(fs.files) == Assets(old(fs.files)) && fs.dirs == old(fs.dirs)
      ensures Mixed(Assets(old(fs.files)), Assets(fs.files), plans)
      ensures !old(started) && fs.faults == old(fs.faults) && Restored(Assets(old(fs.files)), plans) && AllClear(Assets(old(fs.files)), plans)
              ==> o.Ok?
      // A single exception, of any step, leaves every file and directory as it was.
      ensures !old(started) && fs.faults <= old(fs.faults) + 1 && AllClear(Assets(old(fs.files)), plans)
              && Supported(old(fs.files), old(fs.dirs)) && o.Raised?
              ==> complete && fs.files == old(fs.files) && fs.dirs == old(fs.dirs)
      ensures started
    {
      complete := true;
      SameMixed(Assets(fs.files), plans);
      if started {
        return Raised, true;
      }
      started := true;
      ghost var start := Assets(fs.files);
      o := CheckAll();
      ReachedHere(start, start, plans, [], 0);
      if o.Ok? {
        o := PublishAll();
        ReachedMixed(start, Assets(fs.files), plans, applied);
      }
      if o.Raised? {
        if AllClear(start, plans) && Restored(start, plans) {
          ReachedRevocable(start, Assets(fs.files), plans, applied);
        }
        o, complete := Abandon(start, old(fs.dirs));
        if Assets(fs.files) == start && Temporaries(fs.files) == Temporaries(old(fs.files)) {
          SameFiles(fs.files, old(fs.files));
        }
      }
    }

    /** The handler of apply(). */
    method Abandon(ghost start: map<Path, Asset>, ghost dirs: set<Path>) returns (o: Outcome, complete: bool)
      requires Planned(plans) && Planned(applied) && Reached(start, Assets(fs.files), plans, applied)
      requires (applied != [] ==> Restored(start, plans)) && started && Extended([], dirs, directories, fs.dirs)
      modifies this`applied, this`directories, fs
      ensures !o.Ok? && Mixed(start, Assets(fs.files), plans)
      ensures o.Raised? && complete ==> Assets(fs.files) == start && fs.dirs == dirs
      ensures fs.faults >= old(fs.faults)
      ensures old(applied) == [] && old(directories) == [] ==> fs.faults == old(fs.faults)
      ensures fs.faults == old(fs.faults) ==> o.Raised? && Temporaries(fs.files) == Temporaries(old(fs.files))
      ensures fs.faults == old(fs.faults) && Revocable(Assets(old(fs.files)), old(applied)) ==>
        Assets(fs.files) == start && (Supported(fs.files, dirs) ==> complete)
      ensures old(applied) == [] ==> Assets(fs.files) == start
    {
      ghost var reached, made := Assets(fs.files), applied;
      DirectoriesGone([], dirs, directories, fs.dirs);
      o, complete := Rollback(dirs);
      BackMixed(start, reached, Assets(fs.files), plans, made);
      if Restored(Assets(fs.files), made) {
        Undone(start, reached, Assets(fs.files), plans, made);
      }
      if o.Ok? {
        o := Raised;
      }
    }

    /** One turn of the publishing loop of apply(), for a plan that changes something. */
    method PublishOne(ghost start: map<Path, Asset>, i: nat) returns (o: Outcome)
      requires Planned(plans) && Restored(start, plans) && i < |plans| && plans[i].before != plans[i].after
      requires applied == Changing(plans[..i]) && Assets(fs.files) == PutAll(start, plans[..i])
      modifies this`applied, this`directories, fs
      ensures ReachedAt(start, Assets(fs.files), plans, applied, i + 1)
      ensures o.Ok? ==> Assets(fs.files) == PutAll(start, plans[..i + 1])
      ensures Extended(old(directories), old(fs.dirs), directories, fs.dirs)
      ensures AllClear(Assets(old(fs.files)), plans) ==> AllClear(Assets(fs.files), plans)
      ensures fs.faults >= old(fs.faults)
      ensures fs.faults == old(fs.faults) && AllClear(Assets(old(fs.files)), plans) ==> o.Ok?
      ensures !o.Crashed? && fs.faults <= old(fs.faults) + 1 ==> Temporaries(fs.files) == Temporaries(old(fs.files))
    {
      var p := plans[i];
      ghost var before := Assets(fs.files);
      assert p in plans && p.path[..|p.path|] == p.path;
      assert plans[..i + 1][..i] == plans[..i];
      applied := applied + [p];
      NotYetPut(start, plans, i);
      AtAssets(fs.files, p.path);
      ClearAssets(fs.files, p);
      o := Publish(p.path, p.Before(), p.After());
      AtAssets(fs.files, p.path);
      PublishedStep(before, Assets(fs.files), plans, i);
      PutHere(start, plans, i, Assets(fs.files));
    }

    /** The loop of apply() that publishes. */
    method PublishAll() returns (o: Outcome)
      requires Planned(plans) && Restored(Assets(fs.files), plans) && applied == [] && directories == []
      modifies this`applied, this`directories, fs
      ensures Planned(applied) && Reached(Assets(old(fs.files)), Assets(fs.files), plans, applied)
      ensures Extended([], old(fs.dirs), directories, fs.dirs)
      ensures o.Ok? ==> Assets(fs.files) == PutAll(Assets(old(fs.files)), plans)
      ensures fs.faults >= old(fs.faults)
      ensures fs.faults == old(fs.faults) && AllClear(Assets(old(fs.files)), plans) ==> o.Ok?
      ensures !o.Crashed? && fs.faults <= old(fs.faults) + 1 ==> Temporaries(fs.files) == Temporaries(old(fs.files))
    {
      o := Ok;
      ghost var start := Assets(fs.files);
      for i := 0 to |plans|
        invariant o.Ok? && applied == Changing(plans[..i]) && Assets(fs.files) == PutAll(start, plans[..i])
        invariant Extended([], old(fs.dirs), directories, fs.dirs) && fs.faults >= old(fs.faults)
        invariant AllClear(start, plans) ==> AllClear(Assets(fs.files), plans)
        invariant fs.faults <= old(fs.faults) + 1 ==> Temporaries(fs.files) == Temporaries(old(fs.files))
      {
        assert plans[..i + 1][..i] == plans[..i];
        if plans[i].before != plans[i].after {
          ghost var listed, dirs := directories, fs.dirs;
          o := PublishOne(start, i);
          ExtendedTwice([], old(fs.dirs), listed, dirs, directories, fs.dirs);
          if !o.Ok? {
            ReachedHere(start, Assets(fs.files), plans, applied, i + 1);
            return;
          }
        }
      }
      assert plans[..|plans|] == plans;
      ReachedHere(start, Assets(fs.files), plans, applied, |plans|);
    }

    /** Every target is validated before the first one is published. */
    method CheckAll() returns (o: Outcome)
      requires Planned(plans)
      modifies fs`faults
      ensures o.Ok? ==> Restored(Assets(fs.files), plans)
      ensures fs.faults >= old(fs.faults)
      ensures fs.faults == old(fs.faults) ==> !o.Crashed? && (o.Ok? <==> Restored(Assets(fs.files), plans))
    {
      o := Ok;
      for i := 0 to |plans|
        invariant o.Ok? && fs.faults >= old(fs.faults) && Restored(Assets(fs.files), plans[..i])
      {
        var p := plans[i];
        assert p in plans && p.path[..|p.path|] == p.path;
        o := fs.Check(p.path, p.Before());
        AtAssets(fs.files, p.path);
        if !o.Ok? {
          return;
        }
        assert plans[..i + 1] == plans[..i] + [p];
      }
      assert plans[..|plans|] == plans;
    }

    /** The first loop of apply_recovery(): which assets are restored already. */
    method Classify() returns (o: Outcome, restored: seq<bool>)
      requires Planned(plans)
      modifies fs`faults
      ensures o.Ok? ==> |restored| == |plans|
      ensures o.Ok? ==> forall i | 0 <= i < |plans| :: ClassifiedAs(Assets(fs.files), plans[i], restored[i])
      ensures fs.faults >= old(fs.faults)
      ensures fs.faults == old(fs.faults) ==> !o.Crashed? && (o.Ok? <==> Mixture(Assets(fs.files), plans))
    {
      o, restored := Ok, [];
      for i := 0 to |plans|
        invariant o.Ok? && fs.faults >= old(fs.faults) && |restored| == i
        invariant forall j | 0 <= j < i :: ClassifiedAs(Assets(fs.files), plans[j], restored[j])
      {
        var p := plans[i];
        assert p in plans && p.path[..|p.path|] == p.path;
        AtAssets(fs.files, p.path);
        o := fs.Fate();
        if !o.Ok? {
          return;
        }
        if At(fs.files, p.path) == p.After() {
          restored := restored + [true];
        } else if At(fs.files, p.path) == p.Before() {
          restored := restored + [false];
        } else {
          o := Raised;
          return;
        }
      }
    }

    /** apply_recovery(): from any mixture to fully restored, and nothing at all
        when an asset is in neither state. Cut short, it leaves a mixture again. */
    method ApplyRecovery() returns (o: Outcome)
      requires Valid()
      modifies this`applied, this`directories, this`started, fs
      ensures Planned(applied)
      ensures o.Ok? ==> Mixture(Assets(old(fs.files)), plans) && Finished(Assets(fs.files), plans)
      ensures !Mixture(Assets(old(fs.files)), plans) ==> !o.Ok? && fs.files == old(fs.files) && fs.dirs == old(fs.dirs)
      // What it has changed is in its list, for a later rollback.
      ensures Mixed(Assets(old(fs.files)), Assets(fs.files), plans) && Mixed(Assets(old(fs.files)), Assets(fs.files), applied)
      ensures old(started) ==> o.Raised? && fs.files == old(fs.files) && fs.dirs == old(fs.dirs)
      ensures started
      ensures Mixture(Assets(old(fs.files)), plans) ==> Mixture(Assets(fs.files), plans)
      ensures !old(started) && fs.faults == old(fs.faults) && Mixture(Assets(old(fs.files)), plans) && AllClear(Assets(old(fs.files)), plans)
              ==> o.Ok?
    {
      SameMixed(Assets(fs.files), plans);
      if started {
        return Raised;
      }
      started := true;
      var restored;
      o, restored := Classify();
      if o.Ok? {
        o := Finish(restored);
        MixtureKept(Assets(old(fs.files)), Assets(fs.files), plans);
      }
    }

    /** The second loop of apply_recovery(). */
    method Finish(restored: seq<bool>) returns (o: Outcome)
      requires Planned(plans) && applied == [] && |restored| == |plans|
      requires forall i | 0 <= i < |plans| :: ClassifiedAs(Assets(fs.files), plans[i], restored[i])
      modifies this`applied, this`directories, fs
      ensures Planned(applied) && Mixed(Assets(old(fs.files)), Assets(fs.files), plans)
      ensures Mixed(Assets(old(fs.files)), Assets(fs.files), applied)
      ensures o.Ok? ==> Finished(Assets(fs.files), plans)
      ensures fs.faults >= old(fs.faults)
      ensures fs.faults == old(fs.faults) && AllClear(Assets(old(fs.files)), plans) ==> o.Ok?
    {
      o := Ok;
      ghost var start := Assets(fs.files);
      SameMixed(start, plans);
      for i := 0 to |plans|
        invariant o.Ok? && fs.faults >= old(fs.faults)
        invariant Planned(applied) && Mixed(start, Assets(fs.files), applied) && forall p | p in applied :: p in plans[..i]
        invariant Mixed(start, Assets(fs.files), plans) && Finished(Assets(fs.files), plans[..i])
        invariant forall j | i <= j < |plans| :: ClassifiedAs(Assets(fs.files), plans[j], restored[j])
        invariant AllClear(start, plans) ==> AllClear(Assets(fs.files), plans)
      {
        ghost var before := Assets(fs.files);
        PlannedAppend(applied, plans, i);
        assert plans[..i + 1] == plans[..i] + [plans[i]] && ClassifiedAs(before, plans[i], restored[i]);
        if !restored[i] {
          assert (applied + [plans[i]])[..|applied|] == applied;
          applied := applied + [plans[i]];
          assert plans[i] in plans && plans[i].path[..|plans[i].path|] == plans[i].path;
          AtAssets(fs.files, plans[i].path);
          ClearAssets(fs.files, plans[i]);
          o := Publish(plans[i].path, plans[i].Before(), plans[i].After());
          AtAssets(fs.files, plans[i].path);
          FinishStep(start, before, Assets(fs.files), plans, restored, i);
          AppliedStep(start, before, Assets(fs.files), applied, plans[i]);
          if !o.Ok? {
            return;
          }
        }
      }
      assert plans[..|plans|] == plans;
    }
  }

  predicate ClassifiedAs(assets: map<Path, Asset>, p: AssetPlan, restored: bool) {
    At(assets, p.path) == if restored then p.After() else p.Before()
  }

  /** Each asset is removed or restored. */
  ghost predicate Mixture(assets: map<Path, Asset>, plans: seq<AssetPlan>) {
    forall p | p in plans :: At(assets, p.path) == p.After() || At(assets, p.path) == p.Before()
  }

  ghost predicate Finished(assets: map<Path, Asset>, plans: seq<AssetPlan>) {
    forall p | p in plans :: At(assets, p.path) == p.After()
  }

  ghost predicate AllClear(assets: map<Path, Asset>, plans: seq<AssetPlan>) {
    forall p | p in plans :: Clear(assets, p.path)
  }

  lemma ClearAssets(files: map<Path, Asset>, p: AssetPlan)
    requires p.WellFormed()
    ensures Clear(Assets(files), p.path) <==> Clear(files, p.path)
  {
    forall k | 1 <= k < |p.path|
      ensures p.path[..k] in files <==> p.path[..k] in Assets(files)
    {
      assert !IsTemporary(p.path[..k]);
    }
  }

  lemma FinishStep(start: map<Path, Asset>, before: map<Path, Asset>, after: map<Path, Asset>, plans: seq<AssetPlan>,
                   restored: seq<bool>, i: nat)
    requires Planned(plans) && i < |plans| == |restored|
    requires after == before || after == Put(before, plans[i].path, plans[i].After())
    requires Mixed(start, before, plans) && Finished(before, plans[..i])
    requires forall j | i <= j < |plans| :: ClassifiedAs(before, plans[j], restored[j])
    ensures Mixed(start, after, plans) && Finished(after, plans[..i])
    ensures forall j | i < j < |plans| :: ClassifiedAs(after, plans[j], restored[j])
    ensures AllClear(before, plans) ==> AllClear(after, plans)
  {
    forall path
      ensures MixedAt(start, after, plans, path)
    {
      assert MixedAt(start, before, plans, path) && plans[i] in plans;
    }
    forall j | 0 <= j < |plans| && j != i
      ensures plans[j].path != plans[i].path
    {
    }
    PublishedStep(before, after, plans, i);
  }

  lemma AppliedStep(start: map<Path, Asset>, before: map<Path, Asset>, after: map<Path, Asset>, applied: seq<AssetPlan>, p: AssetPlan)
    requires p in applied && applied[|applied| - 1] == p && Mixed(start, before, applied[..|applied| - 1])
    requires after == before || after == Put(before, p.path, p.After())
    ensures Mixed(start, after, applied)
  {
    forall path
      ensures MixedAt(start, after, applied, path)
    {
      assert MixedAt(start, before, applied[..|applied| - 1], path);
    }
  }

  lemma PublishedStep(before: map<Path, Asset>, after: map<Path, Asset>, plans: seq<AssetPlan>, i: nat)
    requires Planned(plans) && i < |plans|
    requires after == before || after == Put(before, plans[i].path, plans[i].After())
    ensures AllClear(before, plans) ==> AllClear(after, plans)
  {
    if AllClear(before, plans) {
      forall p | p in plans
        ensures Clear(after, p.path)
      {
        StillClear(before, after, plans, i, plans[i].After(), p);
      }
    }
  }

  /** Each asset is original or published, and reachable. */
  ghost predicate Revocable(assets: map<Path, Asset>, plans: seq<AssetPlan>) {
    Mixture(assets, plans) && AllClear(assets, plans)
  }

  lemma MixtureStep(before: map<Path, Asset>, after: map<Path, Asset>, plans: seq<AssetPlan>, i: nat)
    requires Planned(plans) && i < |plans|
    requires after == before || after == Put(before, plans[i].path, plans[i].Before())
    ensures Mixture(before, plans) ==> Mixture(after, plans)
    ensures AllClear(before, plans) ==> AllClear(after, plans)
  {
    if AllClear(before, plans) {
      forall p | p in plans
        ensures Clear(after, p.path)
      {
        StillClear(before, after, plans, i, plans[i].Before(), p);
      }
    }
  }

  lemma StillClear(before: map<Path, Asset>, after: map<Path, Asset>, plans: seq<AssetPlan>, i: nat, to: Option<Asset>, p: AssetPlan)
    requires Planned(plans) && i < |plans| && p in plans && Clear(before, p.path)
    requires after == before || after == Put(before, plans[i].path, to)
    ensures Clear(after, p.path)
  {
    forall k | 1 <= k < |p.path|
      ensures p.path[..k] !in after
    {
      assert p.path[..k] <= p.path && p.path[..k] != p.path;
    }
  }

  lemma MixtureKept(start: map<Path, Asset>, assets: map<Path, Asset>, plans: seq<AssetPlan>)
    requires Planned(plans) && Mixture(start, plans) && Mixed(start, assets, plans)
    ensures Mixture(assets, plans)
  {
    forall p | p in plans
      ensures At(assets, p.path) == p.After() || At(assets, p.path) == p.Before()
    {
      assert MixedAt(start, assets, plans, p.path);
    }
  }

  /** Every plan's asset is at its original state. */
  ghost predicate Restored(assets: map<Path, Asset>, plans: seq<AssetPlan>) {
    forall p | p in plans :: At(assets, p.path) == p.Before()
  }

  /** Going back: each asset is as it was, or at its original state. */
  ghost predicate Back(assets: map<Path, Asset>, assets': map<Path, Asset>, plans: seq<AssetPlan>) {
    forall path {:trigger BackAt(assets, assets', plans, path)} :: BackAt(assets, assets', plans, path)
  }

  ghost predicate BackAt(assets: map<Path, Asset>, assets': map<Path, Asset>, plans: seq<AssetPlan>, path: Path) {
    || At(assets', path) == At(assets, path)
    || exists p | p in plans :: p.path == path && At(assets', path) == p.Before()
  }

  lemma BackStep(start: map<Path, Asset>, before: map<Path, Asset>, after: map<Path, Asset>, applied: seq<AssetPlan>, i: nat)
    requires i < |applied| && Back(start, before, applied)
    requires after == before || after == Put(before, applied[i].path, applied[i].Before())
    ensures Back(start, after, applied)
  {
    forall path
      ensures BackAt(start, after, applied, path)
    {
      assert BackAt(start, before, applied, path);
      assert applied[i] in applied;
    }
  }

  lemma RestoredStep(before: map<Path, Asset>, after: map<Path, Asset>, applied: seq<AssetPlan>, i: nat)
    requires i < |applied| && Planned(applied)
    requires after == before || after == Put(before, applied[i].path, applied[i].Before())
    requires At(after, applied[i].path) == applied[i].Before()
    ensures Restored(before, applied[i + 1..]) ==> Restored(after, applied[i..])
  {
    assert forall p | p in applied[i..] :: p == applied[i] || p in applied[i + 1..];
    forall p | p in applied[i + 1..]
      ensures p.path != applied[i].path
    {
      var j :| i < j < |applied| && applied[j] == p;
    }
  }

  lemma DirectoriesGone(listed: seq<Path>, dirs: set<Path>, made: seq<Path>, dirs': set<Path>)
    requires Extended(listed, dirs, made, dirs')
    ensures dirs' - (set d | d in made) == dirs - (set d | d in listed)
  {
    assert made == listed + made[|listed|..];
    assert forall d :: d in made <==> d in listed || d in made[|listed|..];
  }

  /** Publication has come to some plan, whose own publication may have happened or not. */
  ghost predicate Reached(start: map<Path, Asset>, assets: map<Path, Asset>, plans: seq<AssetPlan>, applied: seq<AssetPlan>) {
    exists n: nat :: ReachedAt(start, assets, plans, applied, n)
  }

  ghost predicate ReachedAt(start: map<Path, Asset>, assets: map<Path, Asset>, plans: seq<AssetPlan>, applied: seq<AssetPlan>, n: nat) {
    && n <= |plans| && applied == Changing(plans[..n])
    && (assets == PutAll(start, plans[..n]) || (n > 0 && assets == PutAll(start, plans[..n - 1])))
  }

  lemma ReachedHere(start: map<Path, Asset>, assets: map<Path, Asset>, plans: seq<AssetPlan>, applied: seq<AssetPlan>, n: nat)
    requires ReachedAt(start, assets, plans, applied, n) && Planned(plans)
    ensures Reached(start, assets, plans, applied) && Planned(applied)
  {
    assert forall p | p in plans[..n] :: p in plans;
    ChangingPlanned(plans[..n]);
  }

  lemma NotYetPut(start: map<Path, Asset>, plans: seq<AssetPlan>, i: nat)
    requires i < |plans| && Planned(plans) && Restored(start, plans)
    ensures At(PutAll(start, plans[..i]), plans[i].path) == plans[i].Before()
  {
    forall p | p in Changing(plans[..i])
      ensures p.path != plans[i].path
    {
      var k :| 0 <= k < i && plans[k] == p;
    }
    PutAllAt(start, plans[..i], plans[i].path);
    assert plans[i] in plans;
  }

  /** Where the publication of plan `i` has led. */
  lemma PutHere(start: map<Path, Asset>, plans: seq<AssetPlan>, i: nat, assets: map<Path, Asset>)
    requires i < |plans| && plans[i].before != plans[i].after
    requires assets == PutAll(start, plans[..i]) || assets == Put(PutAll(start, plans[..i]), plans[i].path, plans[i].After())
    ensures ReachedAt(start, assets, plans, Changing(plans[..i]) + [plans[i]], i + 1)
    ensures At(assets, plans[i].path) == plans[i].After() ==> assets == PutAll(start, plans[..i + 1])
  {
    assert plans[..i + 1][..i] == plans[..i];
    if At(assets, plans[i].path) == plans[i].After() {
      PutOnce(start, plans, i, assets);
    }
  }

  lemma PutOnce(start: map<Path, Asset>, plans: seq<AssetPlan>, i: nat, assets: map<Path, Asset>)
    requires i < |plans| && plans[i].before != plans[i].after && At(assets, plans[i].path) == plans[i].After()
    requires assets == PutAll(start, plans[..i]) || assets == Put(PutAll(start, plans[..i]), plans[i].path, plans[i].After())
    ensures assets == PutAll(start, plans[..i + 1])
  {
    assert plans[..i + 1][..i] == plans[..i];
    assert assets == Put(assets, plans[i].path, plans[i].After());
  }

  lemma SameMixed(assets: map<Path, Asset>, plans: seq<AssetPlan>)
    ensures Mixed(assets, assets, plans)
  {
  }

  lemma ReachedMixed(start: map<Path, Asset>, assets: map<Path, Asset>, plans: seq<AssetPlan>, applied: seq<AssetPlan>)
    requires Reached(start, assets, plans, applied)
    ensures Mixed(start, assets, plans)
  {
    var n: nat :| ReachedAt(start, assets, plans, applied, n);
    PutAllMixed(start, plans, n);
    if n > 0 {
      PutAllMixed(start, plans, n - 1);
    }
  }

  lemma ReachedRevocable(start: map<Path, Asset>, assets: map<Path, Asset>, plans: seq<AssetPlan>, applied: seq<AssetPlan>)
    requires Planned(plans) && Reached(start, assets, plans, applied) && Restored(start, plans) && AllClear(start, plans)
    ensures Revocable(assets, applied)
  {
    ReachedMixed(start, assets, plans, applied);
    forall p | p in applied
      ensures At(assets, p.path) == p.After() || At(assets, p.path) == p.Before()
      ensures Clear(assets, p.path)
    {
      assert p in plans && MixedAt(start, assets, plans, p.path);
      forall k | 1 <= k < |p.path|
        ensures p.path[..k] !in assets
      {
        assert MixedAt(start, assets, plans, p.path[..k]);
        assert p.path[..k] <= p.path;
      }
    }
  }

  lemma BackMixed(start: map<Path, Asset>, reached: map<Path, Asset>, assets: map<Path, Asset>, plans: seq<AssetPlan>,
                  applied: seq<AssetPlan>)
    requires Reached(start, reached, plans, applied) && Back(reached, assets, applied)
    requires applied != [] ==> Restored(start, plans)
    ensures Mixed(start, assets, plans)
  {
    ReachedMixed(start, reached, plans, applied);
    var n: nat :| ReachedAt(start, reached, plans, applied, n);
    forall path
      ensures MixedAt(start, assets, plans, path)
    {
      assert BackAt(reached, assets, applied, path) && MixedAt(start, reached, plans, path);
    }
  }

  /** A complete rollback of whatever was reached is the start again. */
  lemma Undone(start: map<Path, Asset>, reached: map<Path, Asset>, assets: map<Path, Asset>, plans: seq<AssetPlan>,
               applied: seq<AssetPlan>)
    requires Reached(start, reached, plans, applied) && Back(reached, assets, applied) && Restored(assets, applied)
    requires applied != [] ==> Restored(start, plans)
    ensures assets == start
  {
    var n: nat :| ReachedAt(start, reached, plans, applied, n);
    forall path
      ensures At(assets, path) == At(start, path)
    {
      assert BackAt(reached, assets, applied, path);
      if p :| p in applied && p.path == path {
        assert p in plans;
      } else {
        PutAllAt(start, plans[..n], path);
        if n > 0 {
          assert plans[..n][..n - 1] == plans[..n - 1];
          PutAllAt(start, plans[..n - 1], path);
        }
      }
    }
    SameAssets(assets, start);
  }

  lemma SameAssets(a: map<Path, Asset>, b: map<Path, Asset>)
    requires forall path :: At(a, path) == At(b, path)
    ensures a == b
  {
    forall path
      ensures path in a <==> path in b
      ensures path in a ==> a[path] == b[path]
    {
      assert At(a, path) == At(b, path);
    }
  }
}
