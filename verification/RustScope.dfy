/** The closure of Cargo targets over module declarations and includes (rust_scope.py). */
module RustScope {
  import opened Basics

  type Path = seq<string>

  /** A module declaration without a body; `macroName` is set inside a macro definition. */
  datatype Declaration = Declaration(name: string, explicit: Option<string>, inlinePath: Path, macroName: Option<string>)

  datatype Invocation = Invocation(name: string, inlinePath: Path)

  /** What the scan of one file finds; `anyIncludes` counts literal and computed includes. */
  datatype Source =
    | Unreadable
    | Readable(declarations: seq<Declaration>, invocations: seq<Invocation>, includes: seq<string>, anyIncludes: nat)

  datatype Reason =
    | MissingOrIgnoredTargetRoot
    | SourceUnreadable
    | AmbiguousModulePath
    | UnresolvedModule(name: string)
    | UnresolvedLiteralInclude(relative: string)
    | DynamicInclude
    | OutsideModuleScope
    | OfManifest(text: string)

  datatype Exclusion = Exclusion(path: Path, reason: Reason)

  /** The repository as the scan sees it. */
  datatype Repository = Repository(
    candidates: set<Path>,
    regular: Path -> Option<Path>,
    resolve: (Path, string) -> Path,
    read: Path -> Source)
  {
    /** The files a declaration may stand for when it is expanded in `dir`. */
    function Choices(dir: Path, d: Declaration): seq<Path> {
      var base := dir + d.inlinePath;
      match d.explicit
      case Some(path) => if path != "" then [resolve(base, path)] else [resolve(base, d.name + ".rs"), resolve(base, d.name + "/mod.rs")]
      case None => [resolve(base, d.name + ".rs"), resolve(base, d.name + "/mod.rs")]
    }

    function Existing(dirs: set<Path>, d: Declaration): set<Path> {
      set dir, path | dir in dirs && path in Choices(dir, d) && path in candidates :: path
    }
  }

  function Parent(path: Path): Path {
    if path == [] then [] else path[..|path| - 1]
  }

  /** The name of a file without its last suffix. */
  function Stem(name: string): string {
    var dot := LastDot(name, |name|);
    if dot == 0 then name else name[..dot]
  }

  function LastDot(name: string, end: nat): (i: nat)
    requires end <= |name|
    ensures i <= end
  {
    if end == 0 then 0 else if name[end - 1] == '.' then end - 1 else LastDot(name, end - 1)
  }

  function ChildModuleDir(path: Path): Path {
    if path == [] || path[|path| - 1] in {"lib.rs", "main.rs", "mod.rs"} then Parent(path)
    else Parent(path) + [Stem(path[|path| - 1])]
  }

  lemma StemOf(name: string)
    requires name != ""
    ensures Stem(name + ".rs") == name
  {
    var full := name + ".rs";
    assert LastDot(full, |full|) == LastDot(full, |full| - 1) == LastDot(full, |full| - 2) == |name|;
    assert full[..|name|] == name;
  }

  /** Both files that `mod name;` may stand for in `dir` have their own modules in
      `dir/name`, and those of a crate root or of mod.rs are beside it. */
  lemma ModuleDirs(dir: Path, name: string)
    requires name !in {"", "lib", "main", "mod"}
    ensures ChildModuleDir(dir + [name + ".rs"]) == dir + [name]
    ensures ChildModuleDir(dir + [name, "mod.rs"]) == dir + [name]
    ensures ChildModuleDir(dir + ["lib.rs"]) == ChildModuleDir(dir + ["main.rs"]) == ChildModuleDir(dir + ["mod.rs"]) == dir
  {
    StemOf(name);
    assert forall last: string :: Parent(dir + [last]) == dir;
    assert dir + [name, "mod.rs"] == (dir + [name]) + ["mod.rs"];
    assert (name + ".rs")[..|name|] == name;
    assert "lib.rs"[..3] == "lib" && "main.rs"[..4] == "main" && "mod.rs"[..3] == "mod";
  }

  /** A repository whose paths are joined part by part, with `/` between two. */
  ghost predicate Joining(repo: Repository) {
    forall dir: Path, name: string | '/' !in name ::
      && repo.resolve(dir, name + ".rs") == dir + [name + ".rs"]
      && repo.resolve(dir, name + "/mod.rs") == dir + [name, "mod.rs"]
  }

  /** A module declaration without a path names the two files whose own modules
      are in the directory of that name below the inline modules around it. */
  lemma ChoicesBelow(repo: Repository, dir: Path, d: Declaration)
    requires Joining(repo) && d.name !in {"", "lib", "main", "mod"} && '/' !in d.name && d.explicit.None?
    ensures |repo.Choices(dir, d)| == 2 && repo.Choices(dir, d)[0] != repo.Choices(dir, d)[1]
    ensures forall b | b in repo.Choices(dir, d) :: ChildModuleDir(b) == dir + d.inlinePath + [d.name]
  {
    ModuleDirs(dir + d.inlinePath, d.name);
    var base := dir + d.inlinePath;
    assert |base + [d.name + ".rs"]| != |base + [d.name, "mod.rs"]|;
  }

  /** A path attribute leaves one choice; an empty one counts as none. */
  lemma ChoicesAt(repo: Repository, dir: Path, d: Declaration, path: string)
    ensures d.explicit == Some(path) && path != "" ==> repo.Choices(dir, d) == [repo.resolve(dir + d.inlinePath, path)]
    ensures d.explicit == Some("") ==> repo.Choices(dir, d) == repo.Choices(dir, d.(explicit := None))
  {
  }

  // ---------- What the closure means ----------

  /** The repository, the target roots, and the files taken so far. */
  datatype Closure = Closure(repo: Repository, roots: set<Path>, files: set<Path>) {
    function ModuleDir(path: Path): Path {
      if path in roots then Parent(path) else ChildModuleDir(path)
    }

    /** A file invokes a macro in `dir`. */
    ghost predicate InvokedIn(macroName: string, dir: Path) {
      exists file, call | file in files && repo.read(file).Readable? && call in repo.read(file).invocations ::
        call.name == macroName && dir == ModuleDir(file) + call.inlinePath
    }

    ghost predicate Declares(a: Path, b: Path, d: Declaration, dir: Path) {
      && repo.read(a).Readable? && d in repo.read(a).declarations && b in repo.Choices(dir, d)
      && match d.macroName
         case None => dir == ModuleDir(a)
         case Some(m) => InvokedIn(m, dir)
    }

    ghost predicate Includes(a: Path, b: Path, relative: string) {
      repo.read(a).Readable? && relative in repo.read(a).includes && b == repo.resolve(Parent(a), relative)
    }

    /** `a` brings `b` in: by a module declaration or by a literal include. */
    ghost predicate Brings(a: Path, b: Path) {
      || (exists d, dir :: Declares(a, b, d, dir))
      || (exists relative :: Includes(a, b, relative))
    }

    ghost predicate Chain(chain: seq<Path>, to: Path) {
      && chain != [] && chain[0] in roots && chain[|chain| - 1] == to
      && (forall i | 0 <= i < |chain| :: chain[i] in files)
      && (forall i | 0 <= i < |chain| - 1 :: Brings(chain[i], chain[i + 1]))
    }
  }

  lemma BringsMore(c: Closure, c': Closure, a: Path, b: Path)
    requires c'.repo == c.repo && c'.roots == c.roots && c.files <= c'.files && c.Brings(a, b)
    ensures c'.Brings(a, b)
  {
    if d, dir :| c.Declares(a, b, d, dir) {
      assert c'.Declares(a, b, d, dir) by {
        if d.macroName.Some? {
          assert c.InvokedIn(d.macroName.value, dir);
        }
      }
    } else {
      var relative :| c.Includes(a, b, relative);
      assert c'.Includes(a, b, relative);
    }
  }

  lemma ChainMore(c: Closure, c': Closure, chain: seq<Path>, to: Path)
    requires c'.repo == c.repo && c'.roots == c.roots && c.files <= c'.files && c.Chain(chain, to)
    ensures c'.Chain(chain, to)
  {
    forall i | 0 <= i < |chain| - 1
      ensures c'.Brings(chain[i], chain[i + 1])
    {
      BringsMore(c, c', chain[i], chain[i + 1]);
    }
  }

  // ---------- The work list ----------

  datatype Deferred = Deferred(source: Path, declaration: Declaration)

  /** The variables of _reachable_sources. */
  datatype Work = Work(
    reachable: set<Path>,
    pending: seq<Path>,
    deferred: seq<Deferred>,
    macroDirs: map<string, set<Path>>,
    exclusions: seq<Exclusion>,
    partial: bool)
  {
    ghost function Taken(): set<Path> {
      reachable + set p | p in pending
    }

    function DirsOf(macroName: string): set<Path> {
      if macroName in macroDirs then macroDirs[macroName] else {}
    }
  }

  /** Everything taken or put off is justified by what has been read. */
  ghost predicate Sound(c: Closure, w: Work) {
    && c.files == w.reachable <= c.repo.candidates
    && (forall p | p in w.pending :: p in c.repo.candidates && Justified(c, p))
    && (forall m, dir | m in w.macroDirs && dir in w.macroDirs[m] :: c.InvokedIn(m, dir))
    && (forall x | x in w.deferred ::
          && x.source in w.reachable && c.repo.read(x.source).Readable?
          && x.declaration in c.repo.read(x.source).declarations && x.declaration.macroName.Some?)
    && (w.partial <==> w.exclusions != []) && NoneOutside(w.exclusions)
  }

  /** Every file taken so far hangs on a chain from a target root. */
  ghost predicate Chained(c: Closure) {
    forall p | p in c.files :: Hangs(c, p)
  }

  ghost predicate Hangs(c: Closure, p: Path) {
    exists chain :: c.Chain(chain, p)
  }

  ghost predicate Justified(c: Closure, p: Path) {
    p in c.roots || exists a | a in c.files :: c.Brings(a, p)
  }

  /** What has become of a declaration of `a`: its one file was taken, or it is
      excluded, or, inside a macro, it still waits for an invocation. */
  ghost predicate Settled(c: Closure, w: Work, a: Path, d: Declaration) {
    match d.macroName
    case None => Resolved(c.repo, w, a, d, {c.ModuleDir(a)})
    case Some(m) => Deferred(a, d) in w.deferred || Expanded(c, w, a, d)
  }

  /** A declaration inside a macro was resolved in directories that invoke the macro. */
  ghost predicate Expanded(c: Closure, w: Work, a: Path, d: Declaration) {
    d.macroName.Some? && exists dirs: set<Path> :: InvokedInAll(c, d.macroName.value, dirs) && Resolved(c.repo, w, a, d, dirs)
  }

  ghost predicate InvokedInAll(c: Closure, macroName: string, dirs: set<Path>) {
    forall dir | dir in dirs :: c.InvokedIn(macroName, dir)
  }

  /** One existing choice means that it was taken, any other number an exclusion. */
  ghost predicate Resolved(repo: Repository, w: Work, a: Path, d: Declaration, dirs: set<Path>) {
    var existing := repo.Existing(dirs, d);
    if |existing| == 1 then existing <= w.Taken()
    else Exclusion(a, if |existing| > 1 then AmbiguousModulePath else UnresolvedModule(d.name)) in w.exclusions
  }

  ghost predicate IncludeSettled(repo: Repository, w: Work, a: Path, relative: string) {
    var included := repo.resolve(Parent(a), relative);
    if included in repo.candidates then included in w.Taken()
    else Exclusion(a, UnresolvedLiteralInclude(relative)) in w.exclusions
  }

  /** Nothing that a file says about other files has been lost. */
  ghost predicate FileSettled(c: Closure, w: Work, a: Path) {
    match c.repo.read(a)
    case Unreadable => Exclusion(a, SourceUnreadable) in w.exclusions
    case Readable(declarations, invocations, includes, anyIncludes) =>
      && (forall d | d in declarations :: Settled(c, w, a, d))
      && (forall relative | relative in includes :: IncludeSettled(c.repo, w, a, relative))
      && (anyIncludes > |includes| ==> Exclusion(a, DynamicInclude) in w.exclusions)
  }

  ghost predicate Extends(c: Closure, c': Closure) {
    c'.repo == c.repo && c'.roots == c.roots && c.files <= c'.files
  }

  /** Later work takes more and records more; what was put off is kept or expanded. */
  ghost predicate Grows(c': Closure, w: Work, w': Work) {
    && w.Taken() <= w'.Taken()
    && (forall x | x in w.exclusions :: x in w'.exclusions)
    && (forall x | x in w.deferred :: x in w'.deferred || Expanded(c', w', x.source, x.declaration))
  }

  // ---------- Why something is excluded ----------

  /** A declaration of `a` and the directories in which it is expanded. */
  ghost predicate DeclaredIn(c: Closure, a: Path, d: Declaration, dirs: set<Path>) {
    && a in c.files && c.repo.read(a).Readable? && d in c.repo.read(a).declarations && dirs != {}
    && match d.macroName
       case None => dirs == {c.ModuleDir(a)}
       case Some(m) => InvokedInAll(c, m, dirs)
  }

  /** The repository itself gives the reason. */
  ghost predicate Caused(c: Closure, x: Exclusion) {
    match x.reason
    case SourceUnreadable => x.path in c.files && c.repo.read(x.path).Unreadable?
    case AmbiguousModulePath => exists d, dirs: set<Path> :: DeclaredIn(c, x.path, d, dirs) && |c.repo.Existing(dirs, d)| > 1
    case UnresolvedModule(name) =>
      exists d, dirs: set<Path> :: DeclaredIn(c, x.path, d, dirs) && d.name == name && c.repo.Existing(dirs, d) == {}
    case UnresolvedLiteralInclude(relative) =>
      && x.path in c.files && c.repo.read(x.path).Readable? && relative in c.repo.read(x.path).includes
      && c.repo.resolve(Parent(x.path), relative) !in c.repo.candidates
    case DynamicInclude =>
      x.path in c.files && c.repo.read(x.path).Readable? && c.repo.read(x.path).anyIncludes > |c.repo.read(x.path).includes|
    case _ => false
  }

  /** A module declared inside a macro that nobody invokes. */
  ghost predicate Uninvoked(c: Closure, x: Exclusion) {
    exists d: Declaration :: x.reason == UnresolvedModule(d.name) && UninvokedDeclaration(c, x.path, d)
  }

  ghost predicate UninvokedDeclaration(c: Closure, a: Path, d: Declaration) {
    && a in c.files && c.repo.read(a).Readable? && d in c.repo.read(a).declarations && d.macroName.Some?
    && forall dir :: !c.InvokedIn(d.macroName.value, dir)
  }

  /** A target whose root is no candidate. */
  ghost predicate Rootless(repo: Repository, targets: seq<Path>, x: Exclusion) {
    && x.reason == MissingOrIgnoredTargetRoot && x.path in targets
    && (repo.regular(x.path).None? || repo.regular(x.path).value !in repo.candidates)
  }

  /** What later work excludes has a cause. */
  ghost predicate Adds(c: Closure, w: Work, w': Work) {
    forall x | x in w'.exclusions :: x in w.exclusions || Caused(c, x)
  }

  ghost predicate AllCaused(c: Closure, targets: seq<Path>, w: Work) {
    forall x | x in w.exclusions :: Caused(c, x) || Rootless(c.repo, targets, x)
  }

  /** At the end a macro that nobody invokes is a reason, too. */
  ghost predicate AllExplained(c: Closure, targets: seq<Path>, w: Work) {
    forall x | x in w.exclusions :: Explained(c, targets, x)
  }

  ghost predicate Explained(c: Closure, targets: seq<Path>, x: Exclusion) {
    Caused(c, x) || Rootless(c.repo, targets, x) || Uninvoked(c, x)
  }

  lemma AllCausedMore(c: Closure, c': Closure, targets: seq<Path>, w: Work, w': Work)
    requires Extends(c, c') && AllCaused(c, targets, w) && Adds(c', w, w')
    ensures AllCaused(c', targets, w')
  {
    forall x | x in w'.exclusions
      ensures Caused(c', x) || Rootless(c'.repo, targets, x)
    {
      if x in w.exclusions && Caused(c, x) {
        CausedMore(c, c', x);
      }
    }
  }

  lemma CausedMore(c: Closure, c': Closure, x: Exclusion)
    requires Extends(c, c') && Caused(c, x)
    ensures Caused(c', x)
  {
    if x.reason.AmbiguousModulePath? {
      var d, dirs: set<Path> :| DeclaredIn(c, x.path, d, dirs) && |c.repo.Existing(dirs, d)| > 1;
      DeclaredMore(c, c', x.path, d, dirs);
    } else if x.reason.UnresolvedModule? {
      var d, dirs: set<Path> :| DeclaredIn(c, x.path, d, dirs) && d.name == x.reason.name && c.repo.Existing(dirs, d) == {};
      DeclaredMore(c, c', x.path, d, dirs);
    }
  }

  lemma DeclaredMore(c: Closure, c': Closure, a: Path, d: Declaration, dirs: set<Path>)
    requires Extends(c, c') && DeclaredIn(c, a, d, dirs)
    ensures DeclaredIn(c', a, d, dirs)
  {
    if d.macroName.Some? {
      InvokedMore(c, c', d.macroName.value, dirs);
    }
  }

  lemma InvokedMore(c: Closure, c': Closure, macroName: string, dirs: set<Path>)
    requires Extends(c, c') && InvokedInAll(c, macroName, dirs)
    ensures InvokedInAll(c', macroName, dirs)
  {
    forall dir | dir in dirs
      ensures c'.InvokedIn(macroName, dir)
    {
      assert c.InvokedIn(macroName, dir);
    }
  }

  lemma ExpandedGrows(c: Closure, c': Closure, w: Work, w': Work, a: Path, d: Declaration)
    requires Extends(c, c') && Expanded(c, w, a, d)
    requires w.Taken() <= w'.Taken() && forall x | x in w.exclusions :: x in w'.exclusions
    ensures Expanded(c', w', a, d)
  {
    var dirs: set<Path> :| InvokedInAll(c, d.macroName.value, dirs) && Resolved(c.repo, w, a, d, dirs);
    InvokedMore(c, c', d.macroName.value, dirs);
    assert Resolved(c'.repo, w', a, d, dirs);
  }

  lemma GrowsTransitive(c': Closure, c'': Closure, w: Work, w': Work, w'': Work)
    requires Extends(c', c'') && Grows(c', w, w') && Grows(c'', w', w'')
    ensures Grows(c'', w, w'')
  {
    forall x | x in w.deferred
      ensures x in w''.deferred || Expanded(c'', w'', x.source, x.declaration)
    {
      if x !in w'.deferred {
        ExpandedGrows(c', c'', w', w'', x.source, x.declaration);
      }
    }
  }

  lemma FileSettledGrows(c: Closure, c': Closure, w: Work, w': Work, a: Path)
    requires Extends(c, c') && Grows(c', w, w') && FileSettled(c, w, a)
    ensures FileSettled(c', w', a)
  {
    if c.repo.read(a).Readable? {
      forall d | d in c.repo.read(a).declarations
        ensures Settled(c', w', a, d)
      {
        assert Settled(c, w, a, d);
        if d.macroName.Some? && Deferred(a, d) !in w.deferred {
          ExpandedGrows(c, c', w, w', a, d);
        }
      }
      forall relative | relative in c.repo.read(a).includes
        ensures IncludeSettled(c'.repo, w', a, relative)
      {
        assert IncludeSettled(c.repo, w, a, relative);
      }
    }
  }

  /** enqueue_module: the one existing choice joins the queue, anything else is excluded. */
  method EnqueueModule(repo: Repository, ghost c: Closure, w: Work, source: Path, d: Declaration, dirs: set<Path>)
    returns (w': Work)
    requires c.repo == repo && Sound(c, w) && source in w.reachable && DeclaredIn(c, source, d, dirs)
    ensures Sound(c, w') && Grows(c, w, w') && Resolved(repo, w', source, d, dirs) && Adds(c, w, w')
    ensures w'.reachable == w.reachable && w'.deferred == w.deferred && w'.macroDirs == w.macroDirs
  {
    var existing := repo.Existing(dirs, d);
    if |existing| == 1 {
      var path :| path in existing;
      OnlyElement(existing, path);
      var dir :| dir in dirs && path in repo.Choices(dir, d);
      assert c.Declares(source, path, d, dir);
      assert c.Brings(source, path);
      w' := Push(w, path);
      PushSound(c, w, path);
    } else {
      var x := Exclusion(source, if |existing| > 1 then AmbiguousModulePath else UnresolvedModule(d.name));
      assert DeclaredIn(c, source, d, dirs) && (|existing| == 0 ==> existing == {});
      w' := Exclude(w, x);
      ExcludeSound(c, w, x);
    }
  }

  function Push(w: Work, path: Path): Work {
    w.(pending := w.pending + [path])
  }

  function Exclude(w: Work, x: Exclusion): Work {
    w.(exclusions := w.exclusions + [x], partial := true)
  }

  lemma PushSound(c: Closure, w: Work, path: Path)
    requires Sound(c, w) && path in c.repo.candidates && Justified(c, path)
    ensures Sound(c, Push(w, path)) && Grows(c, w, Push(w, path)) && path in Push(w, path).Taken()
  {
    assert Push(w, path).pending[|w.pending|] == path;
    assert forall p :: p in Push(w, path).pending <==> p in w.pending || p == path;
  }

  lemma ExcludeSound(c: Closure, w: Work, x: Exclusion)
    requires Sound(c, w) && x.reason != OutsideModuleScope
    ensures Sound(c, Exclude(w, x)) && Grows(c, w, Exclude(w, x)) && x in Exclude(w, x).exclusions
    ensures Caused(c, x) ==> Adds(c, w, Exclude(w, x))
  {
    assert Exclude(w, x).exclusions[|w.exclusions|] == x;
  }

  lemma OnlyElement(s: set<Path>, x: Path)
    requires |s| == 1 && x in s
    ensures s == {x}
  {
    assert |s - {x}| == 0;
  }

  // ---------- One file ----------

  /** A file from the queue becomes reachable. */
  function Take(w: Work, source: Path): Work {
    w.(reachable := w.reachable + {source})
  }

  lemma TakeSound(c: Closure, c': Closure, w: Work, source: Path)
    requires Sound(c, w) && source in c.repo.candidates
    requires c' == c.(files := c.files + {source})
    ensures Sound(c', Take(w, source)) && Grows(c', w, Take(w, source)) && Extends(c, c')
  {
    forall p | p in w.pending
      ensures p in c'.repo.candidates && Justified(c', p)
    {
      JustifiedMore(c, c', p);
    }
    forall m, dir | m in w.macroDirs && dir in w.macroDirs[m]
      ensures c'.InvokedIn(m, dir)
    {
      assert c.InvokedIn(m, dir);
    }
  }

  lemma JustifiedMore(c: Closure, c': Closure, p: Path)
    requires Extends(c, c') && Justified(c, p)
    ensures Justified(c', p)
  {
    if p !in c.roots {
      var a :| a in c.files && c.Brings(a, p);
      BringsMore(c, c', a, p);
    }
  }

  lemma TakeChained(c: Closure, c': Closure, source: Path)
    requires Chained(c) && Justified(c, source) && c' == c.(files := c.files + {source})
    ensures Chained(c')
  {
    forall p | p in c'.files
      ensures Hangs(c', p)
    {
      if p in c.files {
        assert Hangs(c, p);
        var chain :| c.Chain(chain, p);
        ChainMore(c, c', chain, p);
      } else if p in c.roots {
        assert c'.Chain([p], p);
      } else {
        var a :| a in c.files && c.Brings(a, p);
        assert Hangs(c, a);
        var chain :| c.Chain(chain, a);
        ChainMore(c, c', chain, a);
        BringsMore(c, c', a, p);
        ChainNext(c', chain, a, p);
      }
    }
  }

  lemma ChainNext(c: Closure, chain: seq<Path>, a: Path, p: Path)
    requires c.Chain(chain, a) && c.Brings(a, p) && p in c.files
    ensures c.Chain(chain + [p], p)
  {
  }

  ghost predicate MoreDirs(w: Work, w': Work) {
    forall m, dir | dir in w.DirsOf(m) :: dir in w'.DirsOf(m)
  }

  lemma SameDirs(w: Work, w': Work)
    requires w.macroDirs == w'.macroDirs
    ensures forall m :: w.DirsOf(m) == w'.DirsOf(m)
  {
  }

  /** Every macro call of `a` is on record. */
  ghost predicate Registered(c: Closure, w: Work, a: Path) {
    c.repo.read(a).Readable? ==>
      forall call | call in c.repo.read(a).invocations :: c.ModuleDir(a) + call.inlinePath in w.DirsOf(call.name)
  }

  /** The macro calls of a file add its directories. */
  method RegisterInvocations(ghost c: Closure, w: Work, source: Path, invocations: seq<Invocation>, moduleDir: Path)
    returns (w': Work)
    requires Sound(c, w) && source in c.files && c.repo.read(source).Readable?
    requires c.repo.read(source).invocations == invocations && moduleDir == c.ModuleDir(source)
    ensures Sound(c, w') && w' == w.(macroDirs := w'.macroDirs) && MoreDirs(w, w') && Registered(c, w', source)
  {
    w' := w;
    for i := 0 to |invocations|
      invariant Sound(c, w') && w' == w.(macroDirs := w'.macroDirs) && MoreDirs(w, w')
      invariant forall k | 0 <= k < i :: moduleDir + invocations[k].inlinePath in w'.DirsOf(invocations[k].name)
    {
      var call := invocations[i];
      var dir := moduleDir + call.inlinePath;
      assert c.InvokedIn(call.name, dir);
      w' := w'.(macroDirs := w'.macroDirs[call.name := w'.DirsOf(call.name) + {dir}]);
    }
  }

  method SettleDeclarations(repo: Repository, ghost c: Closure, w: Work, source: Path, declarations: seq<Declaration>, moduleDir: Path)
    returns (w': Work)
    requires c.repo == repo && Sound(c, w) && source in w.reachable && repo.read(source).Readable?
    requires repo.read(source).declarations == declarations && moduleDir == c.ModuleDir(source)
    ensures Sound(c, w') && Grows(c, w, w') && w'.reachable == w.reachable && w'.macroDirs == w.macroDirs && Adds(c, w, w')
    ensures forall d | d in declarations :: Settled(c, w', source, d)
  {
    w' := w;
    for i := 0 to |declarations|
      invariant Sound(c, w') && Grows(c, w, w') && w'.reachable == w.reachable && w'.macroDirs == w.macroDirs && Adds(c, w, w')
      invariant forall k | 0 <= k < i :: Settled(c, w', source, declarations[k])
    {
      ghost var was := w';
      var d := declarations[i];
      w' := SettleDeclaration(repo, c, w', source, d, moduleDir);
      forall k | 0 <= k < i
        ensures Settled(c, w', source, declarations[k])
      {
        SettledGrows(c, was, w', source, declarations[k]);
      }
      GrowsTransitive(c, c, w, was, w');
    }
  }

  lemma SettledGrows(c: Closure, w: Work, w': Work, a: Path, d: Declaration)
    requires Grows(c, w, w') && Settled(c, w, a, d)
    ensures Settled(c, w', a, d)
  {
    if d.macroName.Some? && Deferred(a, d) !in w.deferred {
      ExpandedGrows(c, c, w, w', a, d);
    }
  }

  /** A declaration is put off only while nobody invokes its macro. */
  method SettleDeclaration(repo: Repository, ghost c: Closure, w: Work, source: Path, d: Declaration, moduleDir: Path)
    returns (w': Work)
    requires c.repo == repo && Sound(c, w) && source in w.reachable && repo.read(source).Readable?
    requires d in repo.read(source).declarations && moduleDir == c.ModuleDir(source)
    ensures Sound(c, w') && Grows(c, w, w') && w'.reachable == w.reachable && w'.macroDirs == w.macroDirs && Adds(c, w, w')
    ensures Settled(c, w', source, d)
  {
    if d.macroName.Some? && w.DirsOf(d.macroName.value) == {} {
      w' := w.(deferred := w.deferred + [Deferred(source, d)]);
      assert w'.deferred[|w.deferred|] == Deferred(source, d);
    } else {
      var dirs := if d.macroName.Some? then w.DirsOf(d.macroName.value) else {moduleDir};
      w' := EnqueueModule(repo, c, w, source, d, dirs);
      if d.macroName.Some? {
        assert InvokedInAll(c, d.macroName.value, dirs);
      }
    }
  }

  method SettleIncludes(repo: Repository, ghost c: Closure, w: Work, source: Path, includes: seq<string>) returns (w': Work)
    requires c.repo == repo && Sound(c, w) && source in w.reachable && repo.read(source).Readable?
    requires repo.read(source).includes == includes
    ensures Sound(c, w') && Grows(c, w, w') && w'.reachable == w.reachable && w'.macroDirs == w.macroDirs && Adds(c, w, w')
    ensures forall relative | relative in includes :: IncludeSettled(repo, w', source, relative)
  {
    w' := w;
    for i := 0 to |includes|
      invariant Sound(c, w') && Grows(c, w, w') && w'.reachable == w.reachable && w'.macroDirs == w.macroDirs && Adds(c, w, w')
      invariant forall k | 0 <= k < i :: IncludeSettled(repo, w', source, includes[k])
    {
      ghost var was := w';
      var included := repo.resolve(Parent(source), includes[i]);
      if included in repo.candidates {
        assert c.Includes(source, included, includes[i]);
        assert c.Brings(source, included);
        PushSound(c, w', included);
        w' := Push(w', included);
      } else {
        var x := Exclusion(source, UnresolvedLiteralInclude(includes[i]));
        ExcludeSound(c, w', x);
        w' := Exclude(w', x);
      }
      assert forall k | 0 <= k < i :: IncludeSettled(repo, was, source, includes[k]);
      GrowsTransitive(c, c, w, was, w');
    }
  }

  /** One turn of the loop: a file becomes reachable and everything it says is settled. */
  method Visit(repo: Repository, roots: set<Path>, ghost c: Closure, w: Work, source: Path) returns (ghost c': Closure, w': Work)
    requires c.repo == repo && c.roots == roots && Sound(c, w) && source in repo.candidates
    ensures c' == c.(files := c.files + {source}) && Sound(c', w') && w'.reachable == w.reachable + {source}
    ensures Grows(c', w, w') && FileSettled(c', w', source)
    ensures MoreDirs(w, w') && Registered(c', w', source) && Adds(c', w, w')
  {
    c' := c.(files := c.files + {source});
    TakeSound(c, c', w, source);
    w' := Take(w, source);
    var text := repo.read(source);
    if text.Unreadable? {
      ExcludeSound(c', w', Exclusion(source, SourceUnreadable));
      w' := Exclude(w', Exclusion(source, SourceUnreadable));
    } else {
      var moduleDir := if source in roots then Parent(source) else ChildModuleDir(source);
      w' := RegisterInvocations(c', w', source, text.invocations, moduleDir);
      ghost var registered := w';
      w' := Contents(repo, c', w', source, moduleDir);
      SameDirs(registered, w');
      assert Registered(c', registered, source);
    }
  }

  /** The declarations and includes of a readable file. */
  method Contents(repo: Repository, ghost c: Closure, w: Work, source: Path, moduleDir: Path) returns (w': Work)
    requires c.repo == repo && Sound(c, w) && source in w.reachable && repo.read(source).Readable?
    requires moduleDir == c.ModuleDir(source)
    ensures Sound(c, w') && Grows(c, w, w') && w'.reachable == w.reachable && w'.macroDirs == w.macroDirs && Adds(c, w, w')
    ensures FileSettled(c, w', source)
  {
    var text := repo.read(source);
    var declared := SettleDeclarations(repo, c, w, source, text.declarations, moduleDir);
    var included := SettleIncludes(repo, c, declared, source, text.includes);
    GrowsTransitive(c, c, w, declared, included);
    w' := included;
    if text.anyIncludes > |text.includes| {
      ExcludeSound(c, included, Exclusion(source, DynamicInclude));
      w' := Exclude(included, Exclusion(source, DynamicInclude));
      GrowsTransitive(c, c, w, included, w');
    }
    ContentsSettled(c, declared, included, w', source);
  }

  lemma ContentsSettled(c: Closure, declared: Work, included: Work, w: Work, source: Path)
    requires c.repo.read(source).Readable? && Grows(c, declared, included)
    requires w == included || w == Exclude(included, Exclusion(source, DynamicInclude))
    requires forall d | d in c.repo.read(source).declarations :: Settled(c, declared, source, d)
    requires forall relative | relative in c.repo.read(source).includes :: IncludeSettled(c.repo, included, source, relative)
    requires c.repo.read(source).anyIncludes > |c.repo.read(source).includes| ==> w == Exclude(included, Exclusion(source, DynamicInclude))
    ensures FileSettled(c, w, source)
  {
    var x := Exclusion(source, DynamicInclude);
    assert Exclude(included, x).exclusions[|included.exclusions|] == x;
    GrowsTransitive(c, c, declared, included, w);
    forall d | d in c.repo.read(source).declarations
      ensures Settled(c, w, source, d)
    {
      SettledGrows(c, declared, w, source, d);
    }
    forall relative | relative in c.repo.read(source).includes
      ensures IncludeSettled(c.repo, w, source, relative)
    {
      assert IncludeSettled(c.repo, included, source, relative);
    }
  }

  // ---------- The loop ----------

  /** A target root was taken or is excluded. */
  ghost predicate RootSettled(repo: Repository, roots: set<Path>, exclusions: seq<Exclusion>, target: Path) {
    var safe := repo.regular(target);
    if safe.Some? && safe.value in repo.candidates then safe.value in roots
    else Exclusion(target, MissingOrIgnoredTargetRoot) in exclusions
  }

  method TakeRoots(repo: Repository, targets: seq<Path>) returns (roots: set<Path>, w: Work)
    ensures Sound(Closure(repo, roots, {}), w) && w.reachable == {} && w.deferred == [] && w.macroDirs == map[]
    ensures roots == set p | p in w.pending
    ensures forall t | t in targets :: RootSettled(repo, roots, w.exclusions, t)
    ensures forall x | x in w.exclusions :: Rootless(repo, targets, x)
  {
    roots, w := {}, Work({}, [], [], map[], [], false);
    for i := 0 to |targets|
      invariant Sound(Closure(repo, roots, {}), w) && w.reachable == {} && w.deferred == [] && w.macroDirs == map[]
      invariant roots == set p | p in w.pending
      invariant forall k | 0 <= k < i :: RootSettled(repo, roots, w.exclusions, targets[k])
      invariant forall x | x in w.exclusions :: Rootless(repo, targets, x)
    {
      var safe := repo.regular(targets[i]);
      if safe.Some? && safe.value in repo.candidates {
        w := Push(w, safe.value);
        roots := roots + {safe.value};
        assert w.pending[|w.pending| - 1] == safe.value;
      } else {
        w := Exclude(w, Exclusion(targets[i], MissingOrIgnoredTargetRoot));
        assert w.exclusions[|w.exclusions| - 1] == Exclusion(targets[i], MissingOrIgnoredTargetRoot);
      }
    }
  }

  /** Declarations put off are expanded once somebody invokes their macro. */
  method ExpandDeferred(repo: Repository, ghost c: Closure, w: Work) returns (w': Work)
    requires c.repo == repo && Sound(c, w) && w.pending == []
    ensures Sound(c, w') && Grows(c, w, w') && w'.reachable == w.reachable && w'.macroDirs == w.macroDirs && Adds(c, w, w')
    ensures |w'.deferred| < |w.deferred| || w'.pending == []
    ensures |w'.deferred| <= |w.deferred|
    ensures forall x | x in w'.deferred :: x in w.deferred && w.DirsOf(x.declaration.macroName.value) == {}
  {
    w' := w;
    var remaining: seq<Deferred> := [];
    for i := 0 to |w.deferred|
      invariant Sound(c, w') && Grows(c, w, w') && w'.reachable == w.reachable && w'.macroDirs == w.macroDirs && Adds(c, w, w')
      invariant w'.deferred == w.deferred && |remaining| <= i && (|remaining| < i || w'.pending == [])
      invariant forall x | x in remaining :: x in w.deferred && w.DirsOf(x.declaration.macroName.value) == {}
      invariant forall k | 0 <= k < i :: w.deferred[k] in remaining || Expanded(c, w', w.deferred[k].source, w.deferred[k].declaration)
    {
      var x := w.deferred[i];
      assert x in w.deferred;
      var dirs := w.DirsOf(x.declaration.macroName.value);
      if dirs != {} {
        ghost var was := w';
        assert InvokedInAll(c, x.declaration.macroName.value, dirs);
        w' := EnqueueModule(repo, c, w', x.source, x.declaration, dirs);
        KeepExpanded(c, w, was, w', remaining, i);
        GrowsTransitive(c, c, w, was, w');
      } else {
        remaining := remaining + [x];
        assert remaining[|remaining| - 1] == x;
      }
    }
    ghost var was := w';
    w' := w'.(deferred := remaining);
    forall x | x in w.deferred
      ensures x in w'.deferred || Expanded(c, w', x.source, x.declaration)
    {
      if x !in remaining {
        ExpandedGrows(c, c, was, w', x.source, x.declaration);
      }
    }
  }

  lemma KeepExpanded(c: Closure, w: Work, was: Work, w': Work, remaining: seq<Deferred>, n: nat)
    requires n <= |w.deferred| && Grows(c, was, w')
    requires forall k | 0 <= k < n :: w.deferred[k] in remaining || Expanded(c, was, w.deferred[k].source, w.deferred[k].declaration)
    ensures forall k | 0 <= k < n :: w.deferred[k] in remaining || Expanded(c, w', w.deferred[k].source, w.deferred[k].declaration)
  {
    forall k | 0 <= k < n
      ensures w.deferred[k] in remaining || Expanded(c, w', w.deferred[k].source, w.deferred[k].declaration)
    {
      if w.deferred[k] !in remaining {
        ExpandedGrows(c, c, was, w', w.deferred[k].source, w.deferred[k].declaration);
      }
    }
  }

  /** Everything the reachable files say has been followed, recorded, or waits. */
  ghost predicate Followed(c: Closure, w: Work) {
    && (forall a | a in c.files :: FileSettled(c, w, a))
    && (forall a | a in c.files :: Registered(c, w, a))
  }

  lemma FollowedGrows(c: Closure, c': Closure, w: Work, w': Work)
    requires Followed(c, w) && Extends(c, c') && Grows(c', w, w') && MoreDirs(w, w')
    requires forall a | a in c'.files && a !in c.files :: FileSettled(c', w', a) && Registered(c', w', a)
    ensures Followed(c', w')
  {
    forall a | a in c'.files
      ensures FileSettled(c', w', a) && Registered(c', w', a)
    {
      if a in c.files {
        FileSettledGrows(c, c', w, w', a);
        assert Registered(c, w, a);
      }
    }
  }

  /** The last file of the queue leaves it. */
  function Pop(w: Work): Work
    requires w.pending != []
  {
    w.(pending := w.pending[..|w.pending| - 1])
  }

  lemma PopTaken(w: Work)
    requires w.pending != []
    ensures w.Taken() == Pop(w).Taken() + {w.pending[|w.pending| - 1]}
  {
    assert w.pending == Pop(w).pending + [w.pending[|w.pending| - 1]];
    forall p
      ensures p in w.pending <==> p in Pop(w).pending || p == w.pending[|w.pending| - 1]
    {
    }
  }

  method Step(repo: Repository, roots: set<Path>, ghost c: Closure, w: Work) returns (ghost c': Closure, w': Work)
    requires c.repo == repo && c.roots == roots && w.pending != []
    requires Sound(c, w) && Chained(c) && Followed(c, w)
    ensures Extends(c, c') && Sound(c', w') && Chained(c') && Followed(c', w') && w.Taken() <= w'.Taken()
    ensures Adds(c', w, w') && forall x | x in w.exclusions :: x in w'.exclusions
    ensures if w.pending[|w.pending| - 1] in w.reachable then w' == Pop(w)
            else w'.reachable == w.reachable + {w.pending[|w.pending| - 1]}
  {
    var source := w.pending[|w.pending| - 1];
    assert source in w.pending;
    PopTaken(w);
    c', w' := c, Pop(w);
    if source in w.reachable {
      FollowedGrows(c, c, w, w');
    } else {
      c', w' := Admit(repo, roots, c, w, w', source);
    }
  }

  lemma PoppedGrows(c': Closure, w: Work, popped: Work, w': Work, source: Path)
    requires popped == w.(pending := popped.pending) && w.Taken() == popped.Taken() + {source}
    requires Grows(c', popped, w') && source in w'.Taken() && MoreDirs(popped, w') && Adds(c', popped, w')
    ensures Grows(c', w, w') && MoreDirs(w, w') && Adds(c', w, w')
  {
  }

  /** Visits a source that has been taken from the worklist. */
  method Admit(repo: Repository, roots: set<Path>, ghost c: Closure, ghost w: Work, popped: Work, source: Path)
    returns (ghost c': Closure, w': Work)
    requires c.repo == repo && c.roots == roots && source in repo.candidates && Justified(c, source)
    requires Sound(c, popped) && Chained(c) && Followed(c, w)
    requires popped == w.(pending := popped.pending) && w.Taken() == popped.Taken() + {source}
    ensures c' == c.(files := c.files + {source}) && Sound(c', w') && Chained(c') && Followed(c', w')
    ensures w.Taken() <= w'.Taken() && w'.reachable == w.reachable + {source} && Adds(c', w, w')
    ensures forall x | x in w.exclusions :: x in w'.exclusions
  {
    c', w' := Visit(repo, roots, c, popped, source);
    TakeChained(c, c', source);
    PoppedGrows(c', w, popped, w', source);
    FollowedGrows(c, c', w, w');
  }

  ghost predicate RootsSettled(repo: Repository, targets: seq<Path>, roots: set<Path>, w: Work) {
    forall t | t in targets :: RootSettled(repo, roots, w.exclusions, t)
  }

  /** A declaration still waiting at the end: nobody invokes its macro, and it is excluded. */
  ghost predicate Unresolved(c: Closure, w: Work, x: Deferred) {
    && x.declaration.macroName.Some?
    && (forall dir :: !c.InvokedIn(x.declaration.macroName.value, dir))
    && Exclusion(x.source, UnresolvedModule(x.declaration.name)) in w.exclusions
  }

  /** No target root and no declaration is lost, and `partial` says whether
      anything had to be excluded. */
  ghost predicate Complete(repo: Repository, targets: seq<Path>, roots: set<Path>, w: Work) {
    var c := Closure(repo, roots, w.reachable);
    && Followed(c, w) && w.pending == [] && RootsSettled(repo, targets, roots, w)
    && (forall x | x in w.deferred :: Unresolved(c, w, x))
    && (w.partial <==> w.exclusions != []) && NoneOutside(w.exclusions)
  }

  ghost predicate Underway(c: Closure, targets: seq<Path>, w: Work) {
    && c.files == w.reachable && c.roots <= w.Taken()
    && Sound(c, w) && Chained(c) && Followed(c, w)
    && RootsSettled(c.repo, targets, c.roots, w)
  }

  ghost predicate LeftOver(w: Work, x: Exclusion) {
    exists y | y in w.deferred :: x == Exclusion(y.source, UnresolvedModule(y.declaration.name))
  }

  lemma LeftOverExplained(c: Closure, targets: seq<Path>, w: Work, w': Work)
    requires AllCaused(c, targets, w) && Sound(c, w)
    requires forall x | x in w'.exclusions :: x in w.exclusions || LeftOver(w, x)
    requires forall y | y in w.deferred :: Unresolved(c, w', y)
    ensures AllExplained(c, targets, w')
  {
    forall x | x in w'.exclusions
      ensures Explained(c, targets, x)
    {
      if x !in w.exclusions {
        var y :| y in w.deferred && x == Exclusion(y.source, UnresolvedModule(y.declaration.name));
        assert Unresolved(c, w', y);
        assert UninvokedDeclaration(c, x.path, y.declaration);
      }
    }
  }

  /** What nobody invokes stays unresolved. */
  method ExcludeDeferred(ghost c: Closure, w: Work) returns (w': Work)
    requires Sound(c, w)
    ensures w' == w.(exclusions := w'.exclusions, partial := w'.partial) && Sound(c, w') && Grows(c, w, w')
    ensures forall x | x in w.deferred :: Exclusion(x.source, UnresolvedModule(x.declaration.name)) in w'.exclusions
    ensures forall x | x in w'.exclusions :: x in w.exclusions || LeftOver(w, x)
  {
    w' := w;
    for i := 0 to |w.deferred|
      invariant w.exclusions <= w'.exclusions && (i > 0 ==> w'.exclusions != []) && NoneOutside(w'.exclusions)
      invariant w' == w.(exclusions := w'.exclusions) && (i == 0 ==> w' == w)
      invariant forall k | 0 <= k < i :: Exclusion(w.deferred[k].source, UnresolvedModule(w.deferred[k].declaration.name)) in w'.exclusions
      invariant forall x | x in w'.exclusions :: x in w.exclusions || LeftOver(w, x)
    {
      var x := Exclusion(w.deferred[i].source, UnresolvedModule(w.deferred[i].declaration.name));
      w' := w'.(exclusions := w'.exclusions + [x]);
      assert w'.exclusions[|w'.exclusions| - 1] == x;
      assert w.deferred[i] in w.deferred;
    }
    w' := w'.(partial := w.partial || w.deferred != []);
    forall x | x in w.exclusions
      ensures x in w'.exclusions
    {
      var k :| 0 <= k < |w.exclusions| && w.exclusions[k] == x;
      assert w'.exclusions[k] == x;
    }
  }

  lemma InvocationRecorded(c: Closure, w: Work, macroName: string, dir: Path)
    requires Followed(c, w)
    ensures c.InvokedIn(macroName, dir) ==> dir in w.DirsOf(macroName)
  {
    if c.InvokedIn(macroName, dir) {
      var file, call :| file in c.files && c.repo.read(file).Readable? && call in c.repo.read(file).invocations
        && call.name == macroName && dir == c.ModuleDir(file) + call.inlinePath;
      assert Registered(c, w, file);
    }
  }

  /** An empty queue: expand what was put off, or give up on it. */
  method Refill(repo: Repository, ghost c: Closure, targets: seq<Path>, w: Work) returns (w': Work)
    requires c.repo == repo && Underway(c, targets, w) && w.pending == [] && AllCaused(c, targets, w)
    ensures Underway(c, targets, w') && w'.reachable == w.reachable
    ensures if w'.pending == [] then AllExplained(c, targets, w') else AllCaused(c, targets, w')
    ensures w'.pending == [] || |w'.deferred| < |w.deferred|
    ensures w'.pending == [] ==> forall x | x in w'.deferred :: Unresolved(c, w', x)
  {
    w' := ExpandDeferred(repo, c, w);
    SameDirs(w, w');
    FollowedGrows(c, c, w, w');
    assert RootsSettled(repo, targets, c.roots, w');
    AllCausedMore(c, c, targets, w, w');
    if w'.pending == [] {
      ghost var expanded := w';
      w' := ExcludeDeferred(c, w');
      SameDirs(w, w');
      FollowedGrows(c, c, expanded, w');
      forall x | x in w'.deferred
        ensures Unresolved(c, w', x)
      {
        forall dir
          ensures !c.InvokedIn(x.declaration.macroName.value, dir)
        {
          InvocationRecorded(c, w', x.declaration.macroName.value, dir);
        }
      }
      assert RootsSettled(repo, targets, c.roots, w');
      LeftOverExplained(c, targets, expanded, w');
    }
  }

  lemma StepShrinks(candidates: set<Path>, before: set<Path>, after: set<Path>, source: Path)
    requires source in candidates && source !in before && after == before + {source}
    ensures candidates - after < candidates - before
  {
    assert source in candidates - before;
  }

  /** One turn of the loop shrinks (candidates left, declarations put off, queue). */
  method Turn(repo: Repository, targets: seq<Path>, roots: set<Path>, ghost c: Closure, w: Work)
    returns (ghost c': Closure, w': Work, done: bool)
    requires c == Closure(repo, roots, w.reachable) && Underway(c, targets, w) && (w.pending != [] || w.deferred != [])
    requires AllCaused(c, targets, w)
    ensures c' == Closure(repo, roots, w'.reachable) && Underway(c', targets, w')
    ensures done ==> w'.pending == [] && forall x | x in w'.deferred :: Unresolved(c', w', x)
    ensures done || Smaller(repo.candidates, w, w')
    ensures if done then AllExplained(c', targets, w') else AllCaused(c', targets, w')
  {
    c', w', done := c, w, false;
    if w.pending == [] {
      w' := Refill(repo, c, targets, w);
      if w'.pending == [] {
        done := true;
        return;
      }
    }
    ghost var start := w';
    var source := w'.pending[|w'.pending| - 1];
    assert source in w'.pending;
    c', w' := Step(repo, roots, c, w');
    AllCausedMore(c, c', targets, start, w');
    if source !in start.reachable {
      StepShrinks(repo.candidates, start.reachable, w'.reachable, source);
    }
    assert RootsSettled(repo, targets, roots, w');
  }

  ghost predicate Smaller(candidates: set<Path>, w: Work, w': Work) {
    || candidates - w'.reachable < candidates - w.reachable
    || (w'.reachable == w.reachable && |w'.deferred| < |w.deferred|)
    || (w'.reachable == w.reachable && |w'.deferred| == |w.deferred| && |w'.pending| < |w.pending|)
  }

  /** _reachable_sources: a closed set of candidates, each on a chain from a root. */
  method Reachable(repo: Repository, targets: seq<Path>) returns (roots: set<Path>, w: Work)
    ensures roots <= w.reachable <= repo.candidates
    ensures Chained(Closure(repo, roots, w.reachable))
    ensures Complete(repo, targets, roots, w)
    ensures AllExplained(Closure(repo, roots, w.reachable), targets, w)
  {
    roots, w := TakeRoots(repo, targets);
    ghost var c := Closure(repo, roots, {});
    var done := false;
    while !done && (w.pending != [] || w.deferred != [])
      invariant c == Closure(repo, roots, w.reachable) && Underway(c, targets, w)
      invariant done ==> w.pending == [] && forall x | x in w.deferred :: Unresolved(c, w, x)
      invariant if done then AllExplained(c, targets, w) else AllCaused(c, targets, w)
      decreases !done, repo.candidates - w.reachable, |w.deferred|, |w.pending|
    {
      c, w, done := Turn(repo, targets, roots, c, w);
    }
    assert w.Taken() == w.reachable;
  }

  // ---------- The scope ----------

  /** What "complete_exact" promises: every target root and every file that a
      source declares or includes is itself a source, each found without doubt. */
  ghost predicate Exact(c: Closure, targets: seq<Path>) {
    && (forall t | t in targets :: c.repo.regular(t).Some? && c.repo.regular(t).value in c.files)
    && (forall a | a in c.files :: ExactFile(c, a))
  }

  ghost predicate ExactFile(c: Closure, a: Path) {
    && c.repo.read(a).Readable? && c.repo.read(a).anyIncludes <= |c.repo.read(a).includes|
    && (forall d | d in c.repo.read(a).declarations :: ExactDeclaration(c, a, d))
    && (forall relative | relative in c.repo.read(a).includes :: c.repo.resolve(Parent(a), relative) in c.files)
  }

  ghost predicate ExactDeclaration(c: Closure, a: Path, d: Declaration) {
    match d.macroName
    case None => Single(c, {c.ModuleDir(a)}, d)
    case Some(m) => exists dirs: set<Path> :: InvokedInAll(c, m, dirs) && Single(c, dirs, d)
  }

  ghost predicate Single(c: Closure, dirs: set<Path>, d: Declaration) {
    |c.repo.Existing(dirs, d)| == 1 && c.repo.Existing(dirs, d) <= c.files
  }

  lemma NothingExcluded(repo: Repository, targets: seq<Path>, roots: set<Path>, w: Work)
    requires Complete(repo, targets, roots, w) && !w.partial && roots <= w.reachable
    ensures Exact(Closure(repo, roots, w.reachable), targets)
  {
    var c := Closure(repo, roots, w.reachable);
    assert w.Taken() == c.files && w.exclusions == [];
    NoMembers(w.deferred);
    assert forall x :: x in w.deferred ==> Unresolved(c, w, x);
    forall t | t in targets
      ensures repo.regular(t).Some? && repo.regular(t).value in c.files
    {
      assert RootSettled(repo, roots, w.exclusions, t);
    }
    forall a | a in c.files
      ensures ExactFile(c, a)
    {
      NothingExcludedIn(c, w, a);
    }
  }

  /** No source declares a module inside a macro. */
  ghost predicate NoMacroModules(c: Closure) {
    forall a | a in c.files :: PlainDeclarations(c.repo.read(a))
  }

  ghost predicate PlainDeclarations(text: Source) {
    text.Readable? ==> forall d | d in text.declarations :: d.macroName.None?
  }

  /** An exact scope has no reason to exclude anything. */
  lemma ExactHasNoReason(c: Closure, targets: seq<Path>, x: Exclusion)
    requires Exact(c, targets) && NoMacroModules(c) && c.files <= c.repo.candidates
    ensures !Explained(c, targets, x)
  {
    if x.path in c.files {
      assert ExactFile(c, x.path) && PlainDeclarations(c.repo.read(x.path));
      forall d, dirs: set<Path> | DeclaredIn(c, x.path, d, dirs)
        ensures |c.repo.Existing(dirs, d)| == 1
      {
        assert ExactDeclaration(c, x.path, d);
      }
    }
  }

  lemma NoMembers<T>(s: seq<T>)
    ensures (exists x :: x in s) || s == []
  {
    if s != [] {
      assert s[0] in s;
    }
  }

  lemma NothingExcludedIn(c: Closure, w: Work, a: Path)
    requires FileSettled(c, w, a) && w.exclusions == [] && w.deferred == [] && w.Taken() == c.files
    ensures ExactFile(c, a)
  {
    forall d | d in c.repo.read(a).declarations
      ensures ExactDeclaration(c, a, d)
    {
      assert Settled(c, w, a, d);
      if d.macroName.Some? {
        var dirs: set<Path> :| InvokedInAll(c, d.macroName.value, dirs) && Resolved(c.repo, w, a, d, dirs);
        assert Single(c, dirs, d);
      }
    }
    forall relative | relative in c.repo.read(a).includes
      ensures c.repo.resolve(Parent(a), relative) in c.files
    {
      assert IncludeSettled(c.repo, w, a, relative);
    }
  }

  /** Every candidate is a source or listed as outside the scope, never both. */
  ghost predicate Accounted(candidates: set<Path>, sources: set<Path>, exclusions: seq<Exclusion>) {
    && sources <= candidates
    && forall p | p in candidates :: p in sources <==> Exclusion(p, OutsideModuleScope) !in exclusions
  }

  /** Reasons found before the candidates are told apart. */
  ghost predicate NoneOutside(exclusions: seq<Exclusion>) {
    forall x | x in exclusions :: x.reason != OutsideModuleScope
  }

  /** The end of build_rust_source_scope, from the target list on. */
  method BuildScope(repo: Repository, packages: nat, targets: seq<Path>, manifests: seq<Exclusion>)
    returns (ghost roots: set<Path>, sources: set<Path>, exclusions: seq<Exclusion>, partial: bool)
    requires NoneOutside(manifests)
    ensures Chained(Closure(repo, roots, sources)) && roots <= sources
    ensures Accounted(repo.candidates, sources, exclusions)
    ensures !partial ==> Exact(Closure(repo, roots, sources), targets) && packages > 0 && targets != [] && manifests == []
    ensures NoMacroModules(Closure(repo, roots, sources)) ==>
      (partial <==> manifests != [] || packages == 0 || targets == [] || !Exact(Closure(repo, roots, sources), targets))
    ensures forall x | x in exclusions ::
      x in manifests || x.reason == OutsideModuleScope || Explained(Closure(repo, roots, sources), targets, x)
    ensures partial <==> packages == 0 || targets == [] || exists x | x in exclusions :: x.reason != OutsideModuleScope
  {
    var r, w := Reachable(repo, targets);
    roots, sources := r, w.reachable;
    partial := manifests != [] || w.partial || packages == 0 || targets == [];
    exclusions := ListOutside(repo.candidates, sources, manifests + w.exclusions);
    if !partial {
      NothingExcluded(repo, targets, roots, w);
    }
    ghost var c := Closure(repo, roots, sources);
    if NoMacroModules(c) && Exact(c, targets) {
      forall x
        ensures !Explained(c, targets, x)
      {
        ExactHasNoReason(c, targets, x);
      }
      NoMembers(w.exclusions);
    }
    SomeReason(manifests, w.exclusions, exclusions);
  }

  lemma SomeReason(a: seq<Exclusion>, b: seq<Exclusion>, exclusions: seq<Exclusion>)
    requires NoneOutside(a) && NoneOutside(b) && forall x | x in a + b :: x in exclusions
    requires forall x | x in exclusions :: x in a + b || x.reason == OutsideModuleScope
    ensures a != [] || b != [] <==> exists x | x in exclusions :: x.reason != OutsideModuleScope
  {
    if a != [] || b != [] {
      assert (a + b)[0] in a + b;
      assert (a + b)[0] in exclusions && (a + b)[0].reason != OutsideModuleScope;
    }
  }

  /** The candidates outside the scope join the exclusions. */
  method ListOutside(candidates: set<Path>, sources: set<Path>, found: seq<Exclusion>) returns (exclusions: seq<Exclusion>)
    requires NoneOutside(found) && sources <= candidates
    ensures Accounted(candidates, sources, exclusions)
    ensures forall x | x in exclusions :: x in found || x.reason == OutsideModuleScope
    ensures forall x | x in found :: x in exclusions
  {
    exclusions := found;
    var outside := candidates - sources;
    while outside != {}
      invariant outside <= candidates - sources
      invariant forall x {:trigger Excluded(candidates, sources, found, outside, x)} ::
                  x in exclusions <==> Excluded(candidates, sources, found, outside, x)
      decreases |outside|
    {
      var path :| path in outside;
      ghost var left, listed := outside, exclusions;
      outside := outside - {path};
      exclusions := exclusions + [Exclusion(path, OutsideModuleScope)];
      forall x
        ensures x in exclusions <==> Excluded(candidates, sources, found, outside, x)
      {
        assert x in listed <==> Excluded(candidates, sources, found, left, x);
      }
    }
    forall x
      ensures x in exclusions <==> Excluded(candidates, sources, found, {}, x)
    {
    }
  }

  /** What is excluded while these candidates are still to be listed. */
  ghost predicate Excluded(candidates: set<Path>, sources: set<Path>, found: seq<Exclusion>, outside: set<Path>, x: Exclusion) {
    x in found || (x.reason == OutsideModuleScope && x.path in candidates - sources - outside)
  }
}
