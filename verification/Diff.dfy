/** The file diff of a refresh plan (refresh_planner.py). */
module Diff {
  import opened Basics
  import opened Ordering

  datatype Entry = Entry(hash: string, size: nat)

  /** A manifest's files by path. */
  type Files = map<string, Entry>

  datatype Rename = Rename(source: string, target: string, hash: string)

  datatype Changes = Changes(added: seq<string>, modified: seq<string>, deleted: seq<string>, renamed: seq<Rename>,
                             dirty: seq<string>)

  // ---------- Specification ----------

  ghost predicate Differs(base: Files, current: Files, path: string) {
    (path in base) != (path in current) || (path in base && path in current && base[path] != current[path])
  }

  /** The paths whose content has this hash, in the given order. */
  function WithHash(paths: seq<string>, files: Files, hash: string): (r: seq<string>)
    ensures forall p | p in r :: p in paths && p in files && files[p].hash == hash
  {
    if paths == [] then []
    else
      var last := paths[|paths| - 1];
      WithHash(paths[..|paths| - 1], files, hash) + if last in files && files[last].hash == hash then [last] else []
  }

  function Sources(renames: seq<Rename>, hash: string): seq<string> {
    if renames == [] then []
    else
      var last := renames[|renames| - 1];
      Sources(renames[..|renames| - 1], hash) + if last.hash == hash then [last.source] else []
  }

  function Targets(renames: seq<Rename>, hash: string): seq<string> {
    if renames == [] then []
    else
      var last := renames[|renames| - 1];
      Targets(renames[..|renames| - 1], hash) + if last.hash == hash then [last.target] else []
  }

  /** The k-th deleted file of a hash is paired with its k-th added file, as long as there are both. */
  ghost predicate PairedInOrder(renames: seq<Rename>, deleted: seq<string>, base: Files, added: seq<string>, current: Files, hash: string) {
    var ds, adds := WithHash(deleted, base, hash), WithHash(added, current, hash);
    var k := Min(|ds|, |adds|);
    Sources(renames, hash) == ds[..k] && Targets(renames, hash) == adds[..k]
  }

  /** Applying a diff: what is deleted goes, what is added or modified comes from the new files. */
  ghost function Applied(base: Files, c: Changes, current: Files): Files {
    (base - set p | p in c.deleted) + (map p | p in current && (p in c.added || p in c.modified) :: current[p])
  }

  // ---------- The diff ----------

  /** The diff of plan_refresh. */
  method Compare(base: Files, current: Files) returns (c: Changes)
    ensures Lists(c.added, current.Keys - base.Keys)
    ensures Lists(c.deleted, base.Keys - current.Keys)
    ensures Lists(c.modified, set p | p in base.Keys * current.Keys && base[p] != current[p])
    ensures Unique(c.dirty) && SortedBy(c.dirty, StringLe) && forall p :: p in c.dirty <==> Differs(base, current, p)
    ensures Applied(base, c, current) == current
    ensures forall hash :: PairedInOrder(c.renamed, c.deleted, base, c.added, current, hash)
    ensures RenamesSound(c.renamed, c.deleted, base, c.added, current)
  {
    var added := SortedSet(current.Keys - base.Keys);
    var deleted := SortedSet(base.Keys - current.Keys);
    var modified := SortedSet(set p | p in base.Keys * current.Keys && (base[p].hash != current[p].hash || base[p].size != current[p].size));
    assert forall p | p in base.Keys * current.Keys ::
      base[p] != current[p] <==> (base[p].hash != current[p].hash || base[p].size != current[p].size);
    var renamed := Pair(deleted, base, added, current);
    AppliedIsNew(base, current, added, modified, deleted);
    DirtyDiffers(base, current, added, modified, deleted);
    var dirty := SortedSet((set p | p in added) + (set p | p in modified) + (set p | p in deleted));
    c := Changes(added, modified, deleted, renamed, dirty);
  }

  lemma AppliedIsNew(base: Files, current: Files, added: seq<string>, modified: seq<string>, deleted: seq<string>)
    requires Lists(added, current.Keys - base.Keys) && Lists(deleted, base.Keys - current.Keys)
    requires Lists(modified, set p | p in base.Keys * current.Keys && base[p] != current[p])
    ensures forall renamed, dirty :: Applied(base, Changes(added, modified, deleted, renamed, dirty), current) == current
  {
    forall renamed, dirty
      ensures Applied(base, Changes(added, modified, deleted, renamed, dirty), current) == current
    {
      var r := Applied(base, Changes(added, modified, deleted, renamed, dirty), current);
      assert forall p :: p in r <==> p in current;
      assert forall p | p in current :: r[p] == current[p];
    }
  }

  lemma DirtyDiffers(base: Files, current: Files, added: seq<string>, modified: seq<string>, deleted: seq<string>)
    requires Lists(added, current.Keys - base.Keys) && Lists(deleted, base.Keys - current.Keys)
    requires Lists(modified, set p | p in base.Keys * current.Keys && base[p] != current[p])
    ensures forall p :: p in (set q | q in added) + (set q | q in modified) + (set q | q in deleted) <==> Differs(base, current, p)
  {
  }

  // ---------- Renames ----------

  /** Renames join a deleted to an added path of equal content, each at most once. */
  ghost predicate RenamesSound(renames: seq<Rename>, deleted: seq<string>, base: Files, added: seq<string>, current: Files) {
    && (forall i | 0 <= i < |renames| :: RenameSound(renames[i], deleted, base, added, current))
    && (forall i, j | 0 <= i < j < |renames| :: renames[i].source != renames[j].source && renames[i].target != renames[j].target)
  }

  ghost predicate RenameSound(r: Rename, deleted: seq<string>, base: Files, added: seq<string>, current: Files) {
    && r.source in deleted && r.target in added
    && r.source in base && r.target in current && base[r.source].hash == current[r.target].hash == r.hash
  }

  function Matches(byHash: map<string, seq<string>>, hash: string): seq<string> {
    if hash in byHash then byHash[hash] else []
  }

  /** What the table still offers for a hash. */
  ghost predicate Offers(byHash: map<string, seq<string>>, renames: seq<Rename>, deleted: seq<string>, base: Files,
                         added: seq<string>, current: Files, hash: string) {
    Offered(Sources(renames, hash), Targets(renames, hash), Matches(byHash, hash),
            WithHash(deleted, base, hash), WithHash(added, current, hash))
  }

  ghost predicate Offered(sources: seq<string>, targets: seq<string>, matches: seq<string>, ds: seq<string>, adds: seq<string>) {
    var k := Min(|ds|, |adds|);
    sources == ds[..k] && targets == adds[..k] && matches == adds[k..]
  }

  lemma {:induction false} WithHashUnique(paths: seq<string>, files: Files, hash: string)
    requires Unique(paths)
    ensures Unique(WithHash(paths, files, hash))
  {
    if paths != [] {
      var front, last := paths[..|paths| - 1], paths[|paths| - 1];
      WithHashUnique(front, files, hash);
      assert last !in front;
    }
  }

  ghost predicate Grouped(byHash: map<string, seq<string>>, paths: seq<string>, current: Files, hash: string) {
    Matches(byHash, hash) == WithHash(paths, current, hash)
  }

  method Group(added: seq<string>, current: Files) returns (byHash: map<string, seq<string>>)
    requires forall p | p in added :: p in current
    ensures forall hash {:trigger Grouped(byHash, added, current, hash)} :: Grouped(byHash, added, current, hash)
  {
    byHash := map[];
    for i := 0 to |added|
      invariant forall hash {:trigger Grouped(byHash, added[..i], current, hash)} :: Grouped(byHash, added[..i], current, hash)
    {
      var path := added[i];
      assert path in added;
      ghost var before, next := byHash, added[..i + 1];
      byHash := byHash[current[path].hash := Matches(byHash, current[path].hash) + [path]];
      forall hash
        ensures Grouped(byHash, next, current, hash)
      {
        WithHashNext(added, i, current, hash);
        assert Grouped(before, added[..i], current, hash);
      }
    }
    assert added[..|added|] == added;
  }

  /** The next deleted path takes the first file still on offer, if there is one. */
  ghost predicate Steps(before: map<string, seq<string>>, was: seq<Rename>, after: map<string, seq<string>>, renames: seq<Rename>,
                        path: string, hash: string) {
    var matches := Matches(before, hash);
    if matches == [] then after == before && renames == was
    else renames == was + [Rename(path, matches[0], hash)] && after == before[hash := matches[1..]]
  }

  lemma OffersStep(before: map<string, seq<string>>, was: seq<Rename>, after: map<string, seq<string>>, renames: seq<Rename>,
                   deleted: seq<string>, i: nat, base: Files, added: seq<string>, current: Files, hash: string)
    requires i < |deleted| && deleted[i] in base && Steps(before, was, after, renames, deleted[i], base[deleted[i]].hash)
    requires Offers(before, was, deleted[..i], base, added, current, hash)
    ensures Offers(after, renames, deleted[..i + 1], base, added, current, hash)
  {
    WithHashNext(deleted, i, base, hash);
    var ds, adds := WithHash(deleted[..i], base, hash), WithHash(added, current, hash);
    if hash == base[deleted[i]].hash {
      OffersSame(before, was, after, renames, deleted[i], hash, ds, adds);
    } else {
      OffersOther(before, was, after, renames, deleted[i], base[deleted[i]].hash, hash);
    }
  }

  lemma OffersOther(before: map<string, seq<string>>, was: seq<Rename>, after: map<string, seq<string>>, renames: seq<Rename>,
                    path: string, taken: string, hash: string)
    requires Steps(before, was, after, renames, path, taken) && hash != taken
    ensures Sources(renames, hash) == Sources(was, hash) && Targets(renames, hash) == Targets(was, hash)
    ensures Matches(after, hash) == Matches(before, hash)
  {
    if renames != was {
      RenamesNext(was, renames[|was|], hash);
    }
  }

  lemma OffersSame(before: map<string, seq<string>>, was: seq<Rename>, after: map<string, seq<string>>, renames: seq<Rename>,
                   path: string, hash: string, ds: seq<string>, adds: seq<string>)
    requires Steps(before, was, after, renames, path, hash)
    requires Offered(Sources(was, hash), Targets(was, hash), Matches(before, hash), ds, adds)
    ensures Offered(Sources(renames, hash), Targets(renames, hash), Matches(after, hash), ds + [path], adds)
  {
    TakeNext(ds, adds, path);
    if |ds| < |adds| {
      RenamesNext(was, Rename(path, adds[|ds|], hash), hash);
    }
  }

  lemma WithHashNext(paths: seq<string>, i: nat, files: Files, hash: string)
    requires i < |paths| && paths[i] in files
    ensures WithHash(paths[..i + 1], files, hash) ==
            WithHash(paths[..i], files, hash) + if files[paths[i]].hash == hash then [paths[i]] else []
  {
    assert paths[..i + 1][..i] == paths[..i];
  }

  lemma RenamesNext(was: seq<Rename>, r: Rename, hash: string)
    ensures Sources(was + [r], hash) == Sources(was, hash) + if r.hash == hash then [r.source] else []
    ensures Targets(was + [r], hash) == Targets(was, hash) + if r.hash == hash then [r.target] else []
  {
    assert (was + [r])[..|was|] == was;
  }

  /** One more deleted path takes one more added path, while there is one. */
  lemma TakeNext(ds: seq<string>, adds: seq<string>, path: string)
    ensures |ds| < |adds| ==>
      && (ds + [path])[..|ds| + 1] == ds[..|ds|] + [path]
      && adds[..|ds| + 1] == adds[..|ds|] + [adds[|ds|]] && adds[|ds|..][1..] == adds[|ds| + 1..]
    ensures |adds| <= |ds| ==> (ds + [path])[..|adds|] == ds[..|adds|]
  {
  }

  lemma {:induction false} TargetListed(renames: seq<Rename>, j: nat)
    requires j < |renames|
    ensures renames[j].target in Targets(renames, renames[j].hash)
  {
    var front := renames[..|renames| - 1];
    if j < |front| {
      TargetListed(front, j);
    }
  }

  /** The next added file of a hash has not been taken. */
  lemma NotTaken(was: seq<Rename>, deleted: seq<string>, base: Files, added: seq<string>, current: Files, hash: string, k: nat)
    requires RenamesSound(was, deleted, base, added, current) && Unique(added) && k < |WithHash(added, current, hash)|
    requires Targets(was, hash) == WithHash(added, current, hash)[..k]
    ensures forall j | 0 <= j < |was| :: was[j].target != WithHash(added, current, hash)[k]
  {
    var adds := WithHash(added, current, hash);
    WithHashUnique(added, current, hash);
    assert adds[k] in adds;
    forall j | 0 <= j < |was|
      ensures was[j].target != adds[k]
    {
      assert RenameSound(was[j], deleted, base, added, current);
      TargetListed(was, j);
    }
  }

  lemma RenamesMore(was: seq<Rename>, deleted: seq<string>, more: seq<string>, base: Files, added: seq<string>, current: Files)
    requires RenamesSound(was, deleted, base, added, current) && forall p | p in deleted :: p in more
    ensures RenamesSound(was, more, base, added, current)
  {
    forall i | 0 <= i < |was|
      ensures RenameSound(was[i], more, base, added, current)
    {
      assert RenameSound(was[i], deleted, base, added, current);
    }
  }

  lemma RenamesStep(before: map<string, seq<string>>, was: seq<Rename>, after: map<string, seq<string>>, renames: seq<Rename>,
                    deleted: seq<string>, path: string, base: Files, added: seq<string>, current: Files)
    requires path in base && path !in deleted && Unique(added)
    requires Steps(before, was, after, renames, path, base[path].hash)
    requires Offers(before, was, deleted, base, added, current, base[path].hash)
    requires RenamesSound(was, deleted, base, added, current)
    ensures RenamesSound(renames, deleted + [path], base, added, current)
  {
    RenamesMore(was, deleted, deleted + [path], base, added, current);
    var hash := base[path].hash;
    if Matches(before, hash) != [] {
      NextOffered(before, was, deleted, base, added, current, hash);
      RenamesAdd(was, Rename(path, Matches(before, hash)[0], hash), deleted, deleted + [path], base, added, current);
    }
  }

  lemma NextOffered(byHash: map<string, seq<string>>, was: seq<Rename>, deleted: seq<string>, base: Files, added: seq<string>,
                    current: Files, hash: string)
    requires Offers(byHash, was, deleted, base, added, current, hash) && Matches(byHash, hash) != [] && Unique(added)
    requires RenamesSound(was, deleted, base, added, current)
    ensures var next := Matches(byHash, hash)[0];
      && next in added && next in current && current[next].hash == hash
      && forall j | 0 <= j < |was| :: was[j].target != next
  {
    var adds := WithHash(added, current, hash);
    var k := Min(|WithHash(deleted, base, hash)|, |adds|);
    assert Matches(byHash, hash)[0] == adds[k] && adds[k] in adds;
    NotTaken(was, deleted, base, added, current, hash, k);
  }

  lemma RenamesAdd(was: seq<Rename>, r: Rename, deleted: seq<string>, more: seq<string>, base: Files, added: seq<string>, current: Files)
    requires RenamesSound(was, deleted, base, added, current) && RenamesSound(was, more, base, added, current)
    requires RenameSound(r, more, base, added, current) && r.source !in deleted && forall j | 0 <= j < |was| :: was[j].target != r.target
    ensures RenamesSound(was + [r], more, base, added, current)
  {
    forall j | 0 <= j < |was|
      ensures was[j].source != r.source
    {
      assert RenameSound(was[j], deleted, base, added, current);
    }
  }

  method Pair(deleted: seq<string>, base: Files, added: seq<string>, current: Files) returns (renames: seq<Rename>)
    requires Unique(deleted) && Unique(added)
    requires (forall p | p in deleted :: p in base) && (forall p | p in added :: p in current)
    ensures forall hash :: PairedInOrder(renames, deleted, base, added, current, hash)
    ensures RenamesSound(renames, deleted, base, added, current)
  {
    var byHash := Group(added, current);
    renames := [];
    forall hash
      ensures Offers(byHash, renames, deleted[..0], base, added, current, hash)
    {
      assert Grouped(byHash, added, current, hash);
    }
    for i := 0 to |deleted|
      invariant forall hash {:trigger Offers(byHash, renames, deleted[..i], base, added, current, hash)} ::
                  Offers(byHash, renames, deleted[..i], base, added, current, hash)
      invariant RenamesSound(renames, deleted[..i], base, added, current)
    {
      var path := deleted[i];
      assert path in deleted;
      var hash := base[path].hash;
      var matches := Matches(byHash, hash);
      ghost var before, was := byHash, renames;
      if matches != [] {
        renames := renames + [Rename(path, matches[0], hash)];
        byHash := byHash[hash := matches[1..]];
      }
      assert Steps(before, was, byHash, renames, path, hash);
      assert Offers(before, was, deleted[..i], base, added, current, hash);
      assert deleted[..i + 1] == deleted[..i] + [path] && path !in deleted[..i];
      RenamesStep(before, was, byHash, renames, deleted[..i], path, base, added, current);
      ghost var upTo := deleted[..i + 1];
      forall h
        ensures Offers(byHash, renames, upTo, base, added, current, h)
      {
        assert Offers(before, was, deleted[..i], base, added, current, h);
        OffersStep(before, was, byHash, renames, deleted, i, base, added, current, h);
      }
    }
    assert deleted[..|deleted|] == deleted;
    forall hash
      ensures PairedInOrder(renames, deleted, base, added, current, hash)
    {
      assert Offers(byHash, renames, deleted[..|deleted|], base, added, current, hash);
    }
  }
}
