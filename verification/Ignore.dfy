/** Ignore rules and the pruned directory walk (cbmignore.py, python_inventory.py). */
module Ignore {
  import opened Ordering

  /** A repository-relative path by its components. */
  type Path = seq<string>

  datatype Pattern = Pattern(value: string, negated: bool, directoryOnly: bool, rooted: bool)

  /** The answers of _glob_matches, a fixed function of pattern and value. */
  type Glob = (string, string) -> bool

  const EXCLUDED_PARTS: set<string> :=
    {".git", ".atlas", ".agent-token-manager", ".venv", "venv", "node_modules", "build", "dist", "__pycache__"}

  // ---------- Specification ----------

  function Join(parts: Path): string {
    if parts == [] then [] else if |parts| == 1 then parts[0] else parts[0] + "/" + Join(parts[1..])
  }

  /** A rooted pattern is tried on the whole path, any other one on every suffix. */
  ghost predicate Applies(glob: Glob, pattern: Pattern, path: Path, isDir: bool) {
    && (pattern.directoryOnly ==> isDir)
    && if pattern.rooted then glob(pattern.value, Join(path))
       else exists start | 0 <= start < |path| :: glob(pattern.value, Join(path[start..]))
  }

  /** The last pattern that applies decides: 1 ignores, -1 re-includes, 0 says nothing. */
  ghost function Verdict(glob: Glob, patterns: seq<Pattern>, path: Path, isDir: bool): int {
    if patterns == [] then 0
    else
      var last := patterns[|patterns| - 1];
      if Applies(glob, last, path, isDir) then (if last.negated then -1 else 1)
      else Verdict(glob, patterns[..|patterns| - 1], path, isDir)
  }

  /** The directories on the way to a path, the path itself included when it is one. */
  ghost predicate Ignored(glob: Glob, patterns: seq<Pattern>, path: Path, isDir: bool) {
    || Verdict(glob, patterns, path, isDir) > 0
    || exists count | 1 <= count <= (if isDir then |path| else |path| - 1) :: Verdict(glob, patterns, path[..count], true) > 0
  }

  /** An ignored directory makes everything below it ignored, whatever the
      patterns say about what is below. */
  lemma IgnoredBelow(glob: Glob, patterns: seq<Pattern>, directory: Path, path: Path, isDir: bool)
    requires directory != [] && |directory| < |path| && path[..|directory|] == directory
    requires Ignored(glob, patterns, directory, true)
    ensures Ignored(glob, patterns, path, isDir)
  {
    if Verdict(glob, patterns, directory, true) > 0 {
      assert Verdict(glob, patterns, path[..|directory|], true) > 0;
    } else {
      var count :| 1 <= count <= |directory| && Verdict(glob, patterns, directory[..count], true) > 0;
      assert path[..count] == directory[..count];
    }
  }

  // ---------- CbmIgnore ----------

  class CbmIgnore {
    const glob: Glob
    const patterns: seq<Pattern>

    constructor (glob: Glob, patterns: seq<Pattern>)
      ensures this.glob == glob && this.patterns == patterns
    {
      this.glob, this.patterns := glob, patterns;
    }

    method AnyCandidate(pattern: Pattern, path: Path) returns (found: bool)
      ensures found <==> if pattern.rooted then glob(pattern.value, Join(path))
                         else exists start | 0 <= start < |path| :: glob(pattern.value, Join(path[start..]))
    {
      if pattern.rooted {
        return glob(pattern.value, Join(path));
      }
      for start := 0 to |path|
        invariant forall k | 0 <= k < start :: !glob(pattern.value, Join(path[k..]))
      {
        if glob(pattern.value, Join(path[start..])) {
          return true;
        }
      }
      found := false;
    }

    method MatchResult(path: Path, isDir: bool) returns (matched: int)
      ensures matched == Verdict(glob, patterns, path, isDir)
    {
      matched := 0;
      for i := 0 to |patterns|
        invariant matched == Verdict(glob, patterns[..i], path, isDir)
      {
        assert patterns[..i + 1][..i] == patterns[..i];
        var pattern := patterns[i];
        if !(pattern.directoryOnly && !isDir) {
          var found := AnyCandidate(pattern, path);
          if found {
            matched := if pattern.negated then -1 else 1;
          }
        }
      }
      assert patterns[..|patterns|] == patterns;
    }

    method Ignores(path: Path, isDir: bool) returns (ignored: bool)
      requires path != []
      ensures ignored <==> Ignored(glob, patterns, path, isDir)
    {
      var parts := if isDir then path else path[..|path| - 1];
      for count := 1 to |parts| + 1
        invariant forall k | 1 <= k < count :: !(Verdict(glob, patterns, path[..k], true) > 0)
      {
        assert parts[..count] == path[..count];
        var matched := MatchResult(parts[..count], true);
        if matched > 0 {
          return true;
        }
      }
      var matched := MatchResult(path, isDir);
      ignored := matched > 0;
    }
  }

  // ---------- The walk ----------

  datatype Tree = File | Link | Directory(entries: seq<Entry>)
  datatype Entry = Entry(name: string, tree: Tree)

  predicate EntryLe(a: Entry, b: Entry) {
    StringLe(a.name, b.name)
  }

  /** A regular file at `path` below a directory, reached without following links. */
  ghost predicate HasFile(entries: seq<Entry>, path: Path)
    decreases |path|, 1
  {
    exists e | e in entries :: EntryHas(e, path)
  }

  ghost predicate EntryHas(e: Entry, path: Path)
    decreases |path|, 0
  {
    && path != [] && e.name == path[0]
    && if |path| == 1 then e.tree.File? else e.tree.Directory? && HasFile(e.tree.entries, path[1..])
  }

  /** Plain filtering: the right kind of file, in no excluded directory, not ignored. */
  ghost predicate Wanted(glob: Glob, patterns: seq<Pattern>, source: string -> bool, path: Path) {
    && path != [] && source(path[|path| - 1])
    && (forall i | 0 <= i < |path| - 1 :: path[i] !in EXCLUDED_PARTS)
    && !Ignored(glob, patterns, path, false)
  }

  /** A directory that the walk does not enter holds no wanted file. */
  lemma PrunedBelow(glob: Glob, patterns: seq<Pattern>, source: string -> bool, directory: Path, name: string, path: Path)
    requires name in EXCLUDED_PARTS || Ignored(glob, patterns, directory + [name], true)
    requires |path| > |directory| + 1 && path[..|directory| + 1] == directory + [name]
    ensures !Wanted(glob, patterns, source, path)
  {
    if name in EXCLUDED_PARTS {
      assert path[|directory|] == path[..|directory| + 1][|directory|] == name;
    } else {
      IgnoredBelow(glob, patterns, directory + [name], path, false);
    }
  }

  /** What the walk of one directory must list. */
  ghost predicate Lists(rules: CbmIgnore, source: string -> bool, directory: Path, entries: seq<Entry>, files: seq<Path>) {
    forall path: Path :: path in files <==> Due(rules, source, directory, entries, path)
  }

  ghost predicate Due(rules: CbmIgnore, source: string -> bool, directory: Path, entries: seq<Entry>, path: Path) {
    && |path| > |directory| && path[..|directory|] == directory
    && HasFile(entries, path[|directory|..])
    && Wanted(rules.glob, rules.patterns, source, path)
  }

  /** No component is the name of an excluded directory. */
  ghost predicate Clear(directory: Path) {
    forall i | 0 <= i < |directory| :: directory[i] !in EXCLUDED_PARTS
  }

  lemma ListsMore(rules: CbmIgnore, source: string -> bool, directory: Path, entries: seq<Entry>, e: Entry,
                  files: seq<Path>, more: seq<Path>)
    requires Lists(rules, source, directory, entries, files) && Lists(rules, source, directory, [e], more)
    ensures Lists(rules, source, directory, entries + [e], files + more)
  {
    forall path: Path
      ensures path in files + more <==> Due(rules, source, directory, entries + [e], path)
    {
      assert path in files <==> Due(rules, source, directory, entries, path);
      assert path in more <==> Due(rules, source, directory, [e], path);
      if |path| > |directory| {
        HasFileMore(entries, e, path[|directory|..]);
      }
    }
  }

  lemma HasFileMore(entries: seq<Entry>, e: Entry, path: Path)
    ensures HasFile(entries + [e], path) <==> HasFile(entries, path) || HasFile([e], path)
    ensures HasFile([e], path) <==> EntryHas(e, path)
  {
    assert e in [e] && forall x :: x in entries + [e] <==> x in entries || x == e;
  }

  /** Links hold no files, and the order of entries does not matter. */
  lemma ListsSame(rules: CbmIgnore, source: string -> bool, directory: Path, walked: seq<Entry>, entries: seq<Entry>,
                  files: seq<Path>)
    requires Lists(rules, source, directory, walked, files)
    requires forall e :: e in walked <==> e in entries && !e.tree.Link?
    ensures Lists(rules, source, directory, entries, files)
  {
    forall path: Path
      ensures path in files <==> Due(rules, source, directory, entries, path)
    {
      assert path in files <==> Due(rules, source, directory, walked, path);
      if |path| > |directory| {
        HasFileSame(walked, entries, path[|directory|..]);
      }
    }
  }

  lemma HasFileSame(walked: seq<Entry>, entries: seq<Entry>, path: Path)
    requires forall e :: e in walked <==> e in entries && !e.tree.Link?
    ensures HasFile(walked, path) <==> HasFile(entries, path)
  {
    if e :| e in entries && EntryHas(e, path) {
      assert e in walked;
    }
  }

  /** The files of a directory, or its subdirectories. */
  function Select(entries: seq<Entry>, directories: bool): (r: seq<Entry>)
    ensures forall e :: e in r <==> e in entries && if directories then e.tree.Directory? else e.tree.File?
  {
    if entries == [] then []
    else
      assert entries == [entries[0]] + entries[1..];
      var first := entries[0];
      (if (if directories then first.tree.Directory? else first.tree.File?) then [first] else [])
      + Select(entries[1..], directories)
  }

  /** _fallback_source_files: pruning ignored and excluded directories on the way
      lists exactly the files that filtering all files would keep. */
  method Walk(rules: CbmIgnore, source: string -> bool, directory: Path, entries: seq<Entry>) returns (files: seq<Path>)
    requires Clear(directory)
    ensures Lists(rules, source, directory, entries, files)
    decreases entries, 1
  {
    files := [];
    var sorted := Sort(entries, EntryLe);
    MultisetMembers(sorted, entries);
    var walked := Select(sorted, false) + Select(sorted, true);
    for i := 0 to |walked|
      invariant Lists(rules, source, directory, walked[..i], files)
    {
      var e := walked[i];
      assert e in walked && e in entries;
      var more := WalkEntry(rules, source, directory, entries, e);
      ListsMore(rules, source, directory, walked[..i], e, files, more);
      assert walked[..i + 1] == walked[..i] + [e];
      files := files + more;
    }
    assert walked[..|walked|] == walked;
    ListsSame(rules, source, directory, walked, entries, files);
  }

  method WalkEntry(rules: CbmIgnore, source: string -> bool, directory: Path, entries: seq<Entry>, e: Entry)
    returns (files: seq<Path>)
    requires e in entries && !e.tree.Link? && Clear(directory)
    ensures Lists(rules, source, directory, [e], files)
    decreases entries, 0
  {
    var path := directory + [e.name];
    files := [];
    if e.tree.File? {
      var wanted := source(e.name);
      if wanted {
        var ignored := rules.Ignores(path, false);
        wanted := !ignored;
      }
      if wanted {
        files := [path];
      }
      FileLists(rules, source, directory, e, wanted, files);
    } else {
      var entered := e.name !in EXCLUDED_PARTS;
      if entered {
        var ignored := rules.Ignores(path, true);
        entered := !ignored;
      }
      if entered {
        files := Walk(rules, source, path, e.tree.entries);
      }
      DirectoryLists(rules, source, directory, e, entered, files);
    }
  }

  lemma FileLists(rules: CbmIgnore, source: string -> bool, directory: Path, e: Entry, wanted: bool, files: seq<Path>)
    requires e.tree.File? && Clear(directory)
    requires wanted <==> source(e.name) && !Ignored(rules.glob, rules.patterns, directory + [e.name], false)
    requires files == if wanted then [directory + [e.name]] else []
    ensures Lists(rules, source, directory, [e], files)
  {
    var only := directory + [e.name];
    assert only[|directory|..] == [e.name] && only[..|directory|] == directory;
    forall path: Path
      ensures path in files <==> Due(rules, source, directory, [e], path)
    {
      if |path| > |directory| && path[..|directory|] == directory {
        var below := path[|directory|..];
        assert path == directory + below;
        HasFileMore([], e, below);
        if EntryHas(e, below) {
          assert below == [e.name];
          assert path == only;
        }
      }
    }
  }

  lemma DirectoryLists(rules: CbmIgnore, source: string -> bool, directory: Path, e: Entry, entered: bool, files: seq<Path>)
    requires e.tree.Directory?
    requires entered <==> e.name !in EXCLUDED_PARTS && !Ignored(rules.glob, rules.patterns, directory + [e.name], true)
    requires if entered then Lists(rules, source, directory + [e.name], e.tree.entries, files) else files == []
    ensures Lists(rules, source, directory, [e], files)
  {
    forall path: Path
      ensures path in files <==> Due(rules, source, directory, [e], path)
    {
      DueInside(rules, source, directory, e, path);
      if entered {
        assert path in files <==> Due(rules, source, directory + [e.name], e.tree.entries, path);
      } else if Due(rules, source, directory + [e.name], e.tree.entries, path) {
        PrunedBelow(rules.glob, rules.patterns, source, directory, e.name, path);
      }
    }
  }

  lemma DueInside(rules: CbmIgnore, source: string -> bool, directory: Path, e: Entry, path: Path)
    requires e.tree.Directory?
    ensures Due(rules, source, directory, [e], path) <==> Due(rules, source, directory + [e.name], e.tree.entries, path)
    ensures Due(rules, source, directory, [e], path) ==> |path| > |directory| + 1
  {
    var inside := directory + [e.name];
    if |path| > |directory| && path[..|directory|] == directory {
      var below := path[|directory|..];
      HasFileMore([], e, below);
      if |path| > |inside| {
        assert below[1..] == path[|inside|..];
        assert path[..|inside|] == directory + [below[0]];
      }
    }
  }
}
