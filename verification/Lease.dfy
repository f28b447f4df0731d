/**
 Readers and writers of one project (lifecycle.py, refresh_coordinator.py).

 Every process holds the project lease shared while a query runs and exclusively
 while it refreshes or recovers.  The processes are interleaved step by step; a
 process can die at any moment, which drops its lease and its memory.
 */
module Lease {
  import opened Basics

  type Process = nat
  type Identity = nat    // (st_ino, st_mtime_ns, st_size) of the manifest
  type Generation = string

  datatype ManifestFile = ManifestFile(identity: Identity, generation: Generation)

  /** The published artifacts: the manifest, and everything else under one value. */
  datatype Published = Published(manifest: Option<ManifestFile>, others: nat)

  datatype Disk = Disk(published: Published, journal: bool)

  /** Where a process stands in query_snapshot or refresh. */
  datatype Stage =
    | Idle
    | Writing
    | Acquired
    | Checked
    | Stated(identity: Option<Identity>)
    | Observed
    | Body(snapshot: Option<Generation>, entered: Published)

  /** The memory of one coordinator: index_status["generation_id"] and the
      manifest it last looked into. */
  datatype Local = Local(stage: Stage, status: Option<Generation>, identity: Option<Identity>, generation: Option<Generation>)

  /** `issued` remembers which generation every manifest identity has stood for. */
  datatype State = State(
    owner: Option<Process>,
    readers: set<Process>,
    disk: Disk,
    locals: map<Process, Local>,
    issued: map<Identity, Generation>)

  function IdentityOf(disk: Disk): Option<Identity> {
    match disk.published.manifest
    case None => None
    case Some(m) => Some(m.identity)
  }

  function GenerationOf(disk: Disk): Option<Generation> {
    match disk.published.manifest
    case None => None
    case Some(m) => Some(m.generation)
  }

  predicate Reading(stage: Stage) {
    !stage.Idle? && !stage.Writing?
  }

  // ---------- Steps ----------

  /** Only process `p` moves. */
  ghost predicate Moves(s: State, s': State, p: Process, l': Local) {
    p in s.locals && s'.locals == s.locals[p := l']
  }

  ghost predicate DiskSame(s: State, s': State) {
    s'.disk == s.disk && s'.issued == s.issued
  }

  /** flock(LOCK_EX | LOCK_NB) */
  ghost predicate AcquireExclusive(s: State, s': State, p: Process) {
    && p in s.locals && s.locals[p].stage.Idle?
    && s.owner == None && s.readers == {}
    && s'.owner == Some(p) && s'.readers == s.readers && DiskSame(s, s')
    && Moves(s, s', p, s.locals[p].(stage := Writing))
  }

  /** One step of a refresh or a recovery: the writer may change any published
      artifact, the journal and its own status.  A manifest identity is never
      given to a second generation. */
  ghost predicate Write(s: State, s': State, p: Process) {
    && p in s.locals && s.locals[p].stage.Writing?
    && s'.owner == s.owner && s'.readers == s.readers
    && p in s'.locals && Moves(s, s', p, s.locals[p].(status := s'.locals[p].status))
    && (match s'.disk.published.manifest
        case None => s'.issued == s.issued
        case Some(m) =>
          && (m.identity in s.issued ==> s.issued[m.identity] == m.generation)
          && s'.issued == s.issued[m.identity := m.generation])
  }

  ghost predicate ReleaseExclusive(s: State, s': State, p: Process) {
    && p in s.locals && s.locals[p].stage.Writing?
    && s'.owner == None && s'.readers == s.readers && DiskSame(s, s')
    && Moves(s, s', p, s.locals[p].(stage := Idle))
  }

  /** flock(LOCK_SH | LOCK_NB) */
  ghost predicate AcquireShared(s: State, s': State, p: Process) {
    && p in s.locals && s.locals[p].stage.Idle?
    && s.owner == None
    && s'.owner == s.owner && s'.readers == s.readers + {p} && DiskSame(s, s')
    && Moves(s, s', p, s.locals[p].(stage := Acquired))
  }

  /** A query whose checks raise, or whose body ends, releases the lease. */
  ghost predicate ReleaseShared(s: State, s': State, p: Process) {
    && p in s.locals && Reading(s.locals[p].stage)
    && s'.owner == s.owner && s'.readers == s.readers - {p} && DiskSame(s, s')
    && Moves(s, s', p, s.locals[p].(stage := Idle))
  }

  /** A reader moves without touching leases or disk. */
  ghost predicate Reads(s: State, s': State, p: Process, l': Local) {
    s'.owner == s.owner && s'.readers == s.readers && DiskSame(s, s') && Moves(s, s', p, l')
  }

  ghost predicate CheckJournal(s: State, s': State, p: Process) {
    && p in s.locals && s.locals[p].stage.Acquired?
    && !s.disk.journal
    && Reads(s, s', p, s.locals[p].(stage := Checked))
  }

  ghost predicate StatManifest(s: State, s': State, p: Process) {
    && p in s.locals && s.locals[p].stage.Checked?
    && Reads(s, s', p, s.locals[p].(stage := Stated(IdentityOf(s.disk))))
  }

  /** The manifest is loaded only when its identity is not the one last seen. */
  ghost predicate Observe(s: State, s': State, p: Process) {
    && p in s.locals && s.locals[p].stage.Stated?
    && var l := s.locals[p];
       Reads(s, s', p, if l.stage.identity != l.identity
                       then l.(stage := Observed, identity := l.stage.identity, generation := GenerationOf(s.disk))
                       else l.(stage := Observed))
  }

  /** The status takes over an observed generation that it does not have yet. */
  ghost predicate Bind(s: State, s': State, p: Process) {
    && p in s.locals && s.locals[p].stage.Observed?
    && var l := s.locals[p];
       var status := if l.generation.Some? && l.generation != l.status then l.generation else l.status;
       Reads(s, s', p, l.(stage := Body(status, s.disk.published), status := status))
  }

  /** The process dies and may come back with nothing in memory. */
  ghost predicate Die(s: State, s': State, p: Process) {
    && p in s.locals
    && s'.owner == (if s.owner == Some(p) then None else s.owner)
    && s'.readers == s.readers - {p} && DiskSame(s, s')
    && Moves(s, s', p, Local(Idle, None, None, None))
  }

  ghost predicate StepOf(s: State, s': State, p: Process) {
    || AcquireExclusive(s, s', p) || Write(s, s', p) || ReleaseExclusive(s, s', p)
    || AcquireShared(s, s', p) || ReleaseShared(s, s', p)
    || CheckJournal(s, s', p) || StatManifest(s, s', p) || Observe(s, s', p) || Bind(s, s', p)
    || Die(s, s', p)
  }

  ghost predicate Next(s: State, s': State) {
    exists p :: StepOf(s, s', p)
  }

  /** Any disk and any number of freshly started processes. */
  ghost predicate Init(s: State) {
    && s.owner == None && s.readers == {}
    && (forall p | p in s.locals :: s.locals[p] == Local(Idle, s.locals[p].status, None, None))
    && s.issued == (match s.disk.published.manifest case None => map[] case Some(m) => map[m.identity := m.generation])
  }

  ghost predicate Run(run: seq<State>) {
    && |run| > 0 && Init(run[0])
    && forall i | 0 <= i < |run| - 1 :: Next(run[i], run[i + 1])
  }

  // ---------- The invariant ----------

  /** The lease excludes: readers are exactly the processes inside a query, and a
      writer is alone. */
  ghost predicate Exclusion(s: State) {
    && s.readers <= s.locals.Keys
    && (forall p | p in s.locals :: p in s.readers <==> Reading(s.locals[p].stage))
    && (forall p | p in s.locals :: s.owner == Some(p) <==> s.locals[p].stage.Writing?)
    && (s.owner.Some? ==> s.owner.value in s.locals && s.readers == {})
  }

  /** A cached manifest identity leads to the generation it was issued for. */
  ghost predicate Cached(s: State, l: Local) {
    match l.identity
    case None => l.generation == None
    case Some(i) => i in s.issued && l.generation == Some(s.issued[i])
  }

  /** What a query has established at each of its stages. */
  ghost predicate Established(s: State, l: Local) {
    match l.stage
    case Checked => !s.disk.journal
    case Stated(identity) => !s.disk.journal && identity == IdentityOf(s.disk)
    case Observed => !s.disk.journal && l.identity == IdentityOf(s.disk)
    case Body(snapshot, entered) =>
      && !s.disk.journal && s.disk.published == entered
      && (s.disk.published.manifest.Some? ==> snapshot == Some(s.disk.published.manifest.value.generation))
    case _ => true
  }

  ghost predicate Inv(s: State) {
    && Exclusion(s)
    && (s.disk.published.manifest.Some? ==>
          var m := s.disk.published.manifest.value;
          m.identity in s.issued && s.issued[m.identity] == m.generation)
    && (forall p | p in s.locals :: Cached(s, s.locals[p]) && Established(s, s.locals[p]))
  }

  lemma InitInv(s: State)
    requires Init(s)
    ensures Inv(s)
  {
  }

  lemma NextInv(s: State, s': State)
    requires Inv(s) && Next(s, s')
    ensures Inv(s')
  {
    var p :| StepOf(s, s', p);
    if Write(s, s', p) {
      WriteInv(s, s', p);
    } else if CheckJournal(s, s', p) || StatManifest(s, s', p) || Observe(s, s', p) || Bind(s, s', p) {
      ReadInv(s, s', p);
    } else {
      LeaseInv(s, s', p);
    }
  }

  /** Taking or dropping a lease keeps what the other processes established. */
  lemma LeaseInv(s: State, s': State, p: Process)
    requires Inv(s)
    requires AcquireExclusive(s, s', p) || ReleaseExclusive(s, s', p) || AcquireShared(s, s', p)
          || ReleaseShared(s, s', p) || Die(s, s', p)
    ensures Inv(s')
  {
    assert DiskSame(s, s');
    forall q | q in s'.locals
      ensures Cached(s', s'.locals[q]) && Established(s', s'.locals[q])
    {
      assert Cached(s, s.locals[q]) && Established(s, s.locals[q]);
    }
  }

  /** Each stage of a query establishes what the next one relies on. */
  lemma ReadInv(s: State, s': State, p: Process)
    requires Inv(s)
    requires CheckJournal(s, s', p) || StatManifest(s, s', p) || Observe(s, s', p) || Bind(s, s', p)
    ensures Inv(s')
  {
    assert DiskSame(s, s') && Exclusion(s');
    forall q | q in s'.locals
      ensures Cached(s', s'.locals[q]) && Established(s', s'.locals[q])
    {
      assert Cached(s, s.locals[q]) && Established(s, s.locals[q]);
    }
  }

  /** A writer is alone, so its step cannot invalidate what a query established. */
  lemma WriteInv(s: State, s': State, p: Process)
    requires Inv(s) && Write(s, s', p)
    ensures Inv(s')
  {
    forall q | q in s'.locals
      ensures Cached(s', s'.locals[q]) && Established(s', s'.locals[q])
    {
      assert Cached(s, s.locals[q]) && Established(s, s.locals[q]);
      if q != p {
        assert q !in s.readers;
      }
    }
  }

  // ---------- Main results ----------

  lemma {:induction false} RunInv(run: seq<State>, i: nat)
    requires Run(run) && i < |run|
    ensures Inv(run[i])
  {
    if i == 0 {
      InitInv(run[0]);
    } else {
      RunInv(run, i - 1);
      assert Next(run[i - 1], run[i - 1 + 1]);
      NextInv(run[i - 1], run[i]);
    }
  }

  ghost predicate InBody(s: State, p: Process) {
    p in s.locals && s.locals[p].stage.Body?
  }

  /** In every interleaving, while a query body runs there is no journal, no
      writer, and the generation id it was given is that of the manifest on disk
      whenever there is one. */
  lemma SnapshotIsPublished(run: seq<State>, i: nat, p: Process)
    requires Run(run) && i < |run| && InBody(run[i], p)
    ensures !run[i].disk.journal && run[i].owner == None
    ensures run[i].disk.published.manifest.Some? ==>
              run[i].locals[p].stage.snapshot == Some(run[i].disk.published.manifest.value.generation)
  {
    RunInv(run, i);
  }

  /** No published artifact changes from the entry of a query body to its end. */
  lemma {:induction false} SnapshotIsStable(run: seq<State>, i: nat, j: nat, p: Process)
    requires Run(run) && i <= j < |run|
    requires forall k | i <= k <= j :: InBody(run[k], p)
    ensures run[j].disk == run[i].disk
    ensures InBody(run[i], p) && InBody(run[j], p) && run[j].locals[p].stage == run[i].locals[p].stage
    decreases j - i
  {
    if i < j {
      SnapshotIsStable(run, i, j - 1, p);
      BodyStep(run, j - 1, p);
    }
  }

  lemma BodyStep(run: seq<State>, i: nat, p: Process)
    requires Run(run) && i + 1 < |run| && InBody(run[i], p) && InBody(run[i + 1], p)
    ensures run[i + 1].disk == run[i].disk
    ensures run[i + 1].locals[p].stage == run[i].locals[p].stage
  {
    RunInv(run, i);
    assert Next(run[i], run[i + 1]);
    var q :| StepOf(run[i], run[i + 1], q);
    assert p in run[i].readers;
  }

  /** Two bodies that overlap were given the same generation. */
  lemma OverlappingSnapshotsAgree(run: seq<State>, i: nat, p: Process, q: Process)
    requires Run(run) && i < |run| && InBody(run[i], p) && InBody(run[i], q)
    requires run[i].disk.published.manifest.Some?
    ensures run[i].locals[p].stage.snapshot == run[i].locals[q].stage.snapshot
    ensures run[i].locals[p].stage.entered == run[i].locals[q].stage.entered
  {
    RunInv(run, i);
  }

  // ---------- What can happen ----------

  /** The lease is denied exactly to a query behind a writer and to a writer behind anybody. */
  lemma LeaseGranted(s: State, p: Process)
    requires p in s.locals && s.locals[p].stage.Idle?
    ensures (exists s' :: AcquireShared(s, s', p)) <==> s.owner == None
    ensures (exists s' :: AcquireExclusive(s, s', p)) <==> s.owner == None && s.readers == {}
  {
    if s.owner == None {
      assert AcquireShared(s, s.(readers := s.readers + {p}, locals := s.locals[p := s.locals[p].(stage := Acquired)]), p);
      if s.readers == {} {
        assert AcquireExclusive(s, s.(owner := Some(p), locals := s.locals[p := s.locals[p].(stage := Writing)]), p);
      }
    }
  }

  /** A process may die wherever it stands; its lease and its memory go, the disk stays. */
  lemma AnyoneMayDie(s: State, p: Process) returns (s': State)
    requires p in s.locals
    ensures StepOf(s, s', p) && s'.owner != Some(p) && p !in s'.readers && s'.disk == s.disk
    ensures s'.locals == s.locals[p := Local(Idle, None, None, None)]
  {
    s' := s.(owner := if s.owner == Some(p) then None else s.owner, readers := s.readers - {p},
             locals := s.locals[p := Local(Idle, None, None, None)]);
    assert Die(s, s', p);
  }

  ghost function Moved(s: State, p: Process, l: Local): State {
    s.(locals := s.locals[p := l])
  }

  /** Without a writer and a journal an idle process gets its snapshot in five steps
      of its own, and it is the generation of the manifest. */
  lemma QueryRuns(s: State, p: Process) returns (run: seq<State>)
    requires Inv(s) && p in s.locals && s.locals[p].stage.Idle? && s.owner == None && !s.disk.journal
    ensures |run| == 6 && run[0] == s && forall i | 0 <= i < 5 :: StepOf(run[i], run[i + 1], p)
    ensures InBody(run[5], p) && run[5].disk == s.disk
    ensures s.disk.published.manifest.Some? ==>
      run[5].locals[p].stage.snapshot == Some(s.disk.published.manifest.value.generation)
  {
    var l := s.locals[p];
    assert Cached(s, l);
    var s1 := Moved(s, p, l.(stage := Acquired)).(readers := s.readers + {p});
    assert AcquireShared(s, s1, p);
    var s2 := Moved(s1, p, l.(stage := Checked));
    assert CheckJournal(s1, s2, p);
    var seen := IdentityOf(s.disk);
    var s3 := Moved(s2, p, l.(stage := Stated(seen)));
    assert StatManifest(s2, s3, p);
    var l4 := if seen != l.identity then l.(stage := Observed, identity := seen, generation := GenerationOf(s.disk))
              else l.(stage := Observed);
    var s4 := Moved(s3, p, l4);
    assert Observe(s3, s4, p);
    var status := if l4.generation.Some? && l4.generation != l4.status then l4.generation else l4.status;
    var s5 := Moved(s4, p, l4.(stage := Body(status, s.disk.published), status := status));
    assert Bind(s4, s5, p);
    run := [s, s1, s2, s3, s4, s5];
  }

  /** An idle process that is alone gets the lease, publishes under a new identity and
      gives the lease back in three steps of its own. */
  lemma RefreshRuns(s: State, p: Process, next: Disk, status: Option<Generation>) returns (run: seq<State>)
    requires p in s.locals && s.locals[p].stage.Idle? && s.owner == None && s.readers == {}
    requires next.published.manifest.Some? ==> next.published.manifest.value.identity !in s.issued
    ensures |run| == 4 && run[0] == s && forall i | 0 <= i < 3 :: StepOf(run[i], run[i + 1], p)
    ensures run[3].disk == next && run[3].owner == None && run[3].readers == {}
    ensures run[3].locals == s.locals[p := s.locals[p].(status := status)]
  {
    var l := s.locals[p];
    var s1 := Moved(s, p, l.(stage := Writing)).(owner := Some(p));
    assert AcquireExclusive(s, s1, p);
    var issued := match next.published.manifest case None => s.issued case Some(m) => s.issued[m.identity := m.generation];
    var s2 := Moved(s1, p, l.(stage := Writing, status := status)).(disk := next, issued := issued);
    assert Write(s1, s2, p);
    var s3 := Moved(s2, p, l.(status := status)).(owner := None);
    assert ReleaseExclusive(s2, s3, p);
    run := [s, s1, s2, s3];
  }
}
