/** The two places where the disk cache needs more of its callers than it checks: locking
    a resource that gets evicted, and a second writer of a stream. */
module DiskCacheHazards {
  import opened Sizes
  import opened DiskCacheSpec
  import opened DiskCacheInvariants
  import opened DiskCacheRuns
  import opened DiskCacheVictims
  import opened DiskCacheEvictions

  // ---------- Runs, step by step ----------

  lemma RunStep(c: Cache, c': Cache, op: Op, pick: Choice, rest: seq<(Op, Choice)>)
    requires Legal(pick, c, op) && Perform(pick, c, op) == c' && LegalRun(c', rest)
    ensures LegalRun(c, [(op, pick)] + rest) && RunOf(c, [(op, pick)] + rest) == RunOf(c', rest)
    ensures !SecondWriter(c, op) && NoSecondWriter(c', rest) ==> NoSecondWriter(c, [(op, pick)] + rest)
  {
    var steps := [(op, pick)] + rest;
    assert steps[0] == (op, pick) && steps[1..] == rest;
  }

  lemma EmptyRun(c: Cache)
    ensures LegalRun(c, []) && RunOf(c, []) == c && NoSecondWriter(c, [])
  {
  }

  // ---------- Locking a resource that gets evicted ----------

  /** Room must be made, the resource is nobody's, and evicting idle resources is enough. */
  ghost predicate MayDangle(c: Cache, id: Id) {
    && c.totalSize > c.maxCache
    && (id in c.entries ==> c.entries[id].Idle())
    && Sum(c.entries, BusySizes) <= c.maxCache
  }

  lemma {:induction false} BusyAtMostAll(m: map<Id, Entry>)
    ensures Sum(m, BusySizes) <= Sum(m, Sizes)
    ensures (forall id :: id in m ==> !m[id].Idle()) ==> Sum(m, BusySizes) == Sum(m, Sizes)
    decreases |m|
  {
    if m != map[] {
      RemovalShrinks(m, AnyKey(m));
      BusyAtMostAll(m - {AnyKey(m)});
    }
  }

  lemma {:induction false} EvictionKeepsBusy(pick: Choice, c: Cache)
    ensures Sum(CheckLimit(pick, c).0.entries, BusySizes) == Sum(c.entries, BusySizes)
    decreases |c.entries|
  {
    if c.totalSize > c.maxCache && c.SomeIdle() {
      var victim := pick(c);
      if c.entries[victim].Idle() {
        SumWithout(c.entries, victim, BusySizes);
      }
      if Delete(c, victim).1 {
        RemovalShrinks(c.entries, victim);
        EvictionKeepsBusy(pick, Delete(c, victim).0);
      }
    }
  }

  /** A choice that evicts `id` as soon as it can, and otherwise any idle resource. */
  ghost function Greedy(id: Id, c: Cache): (victim: Id)
    ensures c.entries != map[] ==> victim in c.entries
    ensures c.SomeIdle() ==> victim in c.entries && c.entries[victim].Idle()
    ensures id in c.entries && c.entries[id].Idle() ==> victim == id
  {
    if id in c.entries && c.entries[id].Idle() then id
    else if c.SomeIdle() then
      var idle :| idle in c.entries && c.entries[idle].Idle(); idle
    else AnyEntry(c)
  }

  lemma SomeoneIsIdle(c: Cache)
    requires Books(c) && Sum(c.entries, BusySizes) <= c.maxCache < c.totalSize
    ensures c.SomeIdle()
  {
    BusyAtMostAll(c.entries);
  }

  lemma IdleEvicted(c: Cache, victim: Id)
    requires Exclusion(c) && Books(c) && victim in c.entries && c.entries[victim].Idle()
    ensures Delete(c, victim).1 && Delete(c, victim).0.entries == c.entries - {victim}
    ensures Delete(c, victim).0.maxCache == c.maxCache
    ensures Exclusion(Delete(c, victim).0) && Books(Delete(c, victim).0)
    ensures Sum(Delete(c, victim).0.entries, BusySizes) == Sum(c.entries, BusySizes)
  {
    DeleteKeepsBooks(c, victim);
    EvictionKeepsExclusion(c, Delete(c, victim).0);
    SumWithout(c.entries, victim, BusySizes);
    hide Exclusion, Books, Sum;
  }

  lemma {:induction false} GreedySucceeds(pick: Choice, id: Id, c: Cache)
    requires forall s :: pick(s) == Greedy(id, s)
    requires Exclusion(c) && Books(c) && Sum(c.entries, BusySizes) <= c.maxCache
    ensures CheckLimit(pick, c).1
    ensures c.totalSize > c.maxCache && id in c.entries && c.entries[id].Idle() ==>
      id !in CheckLimit(pick, c).0.entries
    decreases |c.entries|
  {
    if c.totalSize > c.maxCache {
      SomeoneIsIdle(c);
      var victim := pick(c);
      assert victim == Greedy(id, c);
      IdleEvicted(c, victim);
      var c' := Delete(c, victim).0;
      RemovalShrinks(c.entries, victim);
      hide Exclusion, Books, Sum, Greedy, Delete;
      GreedySucceeds(pick, id, c');
      CheckLimitEvictsIdle(pick, c');
    }
  }

  /** `LockResource` keeps a pointer to an entry across `CheckLimit`. Some choice of
      victims erases that entry and still succeeds if and only if `MayDangle`; so with the
      choice that the source makes it must hold as well, but is not enough. */
  lemma LockDanglesIff(c: Cache, id: Id)
    requires Exclusion(c) && Books(c)
    ensures (exists pick: Choice :: Lock(pick, c, id).1 == Dangling) <==> MayDangle(c, id)
  {
    if MayDangle(c, id) {
      var pick: Choice := s => Greedy(id, s);
      GreedyLockDangles(pick, c, id);
    }
    forall pick: Choice | Lock(pick, c, id).1 == Dangling ensures MayDangle(c, id) {
      DanglingNeedsRoom(pick, c, id);
    }
  }

  lemma GreedyLockDangles(pick: Choice, c: Cache, id: Id)
    requires forall s :: pick(s) == Greedy(id, s)
    requires Exclusion(c) && Books(c) && MayDangle(c, id)
    ensures Lock(pick, c, id).1 == Dangling
  {
    hide Books, Exclusion, CheckLimit, Greedy, Sum;
    if id in c.entries {
      GreedySucceeds(pick, id, c);
    } else {
      NewEntryKeepsExclusion(c, id);
      NewEntryKeepsBooks(c, id);
      SumNew(c.entries, id, BusySizes);
      GreedySucceeds(pick, id, c.(entries := c.entries[id := NEW_ENTRY]));
    }
  }

  lemma DanglingNeedsRoom(pick: Choice, c: Cache, id: Id)
    requires Exclusion(c) && Books(c) && Lock(pick, c, id).1 == Dangling
    ensures MayDangle(c, id)
  {
    var c0 := GetOrCreate(c, id);
    if id !in c.entries {
      NewEntryKeepsExclusion(c, id);
      NewEntryKeepsBooks(c, id);
      SumNew(c.entries, id, BusySizes);
    }
    CheckLimitEvictsIdle(pick, c0);
    CheckLimitKeepsBooks(pick, c0);
    EvictionKeepsBusy(pick, c0);
    BusyAtMostAll(CheckLimit(pick, c0).0.entries);
  }

  // ---------- A run that gets there ----------

  lemma {:induction false} RunsJoined(c: Cache, a: seq<(Op, Choice)>, b: seq<(Op, Choice)>)
    requires LegalRun(c, a) && LegalRun(RunOf(c, a), b)
    ensures LegalRun(c, a + b) && RunOf(c, a + b) == RunOf(RunOf(c, a), b)
    decreases |a|
  {
    hide Legal, Perform;
    if a == [] {
      assert a + b == b;
    } else {
      RunsJoined(Perform(a[0].1, c, a[0].0), a[1..], b);
      assert (a + b)[1..] == a[1..] + b;
    }
  }

  /** A new resource is locked, and one stream of it written. */
  function StoreSteps(pick: Choice, id: Id, n: nat): seq<(Op, Choice)> {
    [(LockResource(id), pick)] + ([(WriteResource(id, 0, true), pick)]
      + ([(FillFile(0, n), pick)] + ([(ReleaseResource(0), pick)] + [])))
  }

  function Stored(c: Cache, id: Id, n: nat): Cache {
    c.(totalSize := c.totalSize + n,
       entries := c.entries[id := Entry(Locked, 0, n, 1)],
       files := c.files[(id, 0) := n])
  }

  predicate RoomToStore(c: Cache, id: Id) {
    id !in c.entries && (id, 0) !in c.files && c.open == [] && c.totalSize <= c.maxCache
  }

  lemma UpdatedTwice<K, V>(m: map<K, V>, k: K, v: V, v': V)
    ensures m[k := v][k := v'] == m[k := v']
  {
  }

  /** The resource while its stream is open, with a file of `size` bytes. */
  function Writing(c: Cache, id: Id, size: nat): Cache {
    c.(entries := c.entries[id := Entry(Locked, 1, 0, 1)], files := c.files[(id, 0) := size],
       totalAccessors := c.totalAccessors + 1, open := [Stream(id, 0, true)])
  }

  lemma NewLocked(pick: Choice, c: Cache, id: Id)
    requires RoomToStore(c, id)
    ensures Lock(pick, c, id) == (c.(entries := c.entries[id := Entry(Locked, 0, 0, 0)]), Granted)
  {
    UpdatedTwice(c.entries, id, NEW_ENTRY, Entry(Locked, 0, 0, 0));
    hide CheckLimit;
  }

  lemma NewOpened(c: Cache, id: Id)
    requires RoomToStore(c, id)
    ensures Write(c.(entries := c.entries[id := Entry(Locked, 0, 0, 0)]), id, 0, true).0 == Writing(c, id, 0)
  {
    UpdatedTwice(c.entries, id, Entry(Locked, 0, 0, 0), Entry(Locked, 1, 0, 1));
  }

  lemma NewFilled(c: Cache, id: Id, n: nat)
    ensures Fill(Writing(c, id, 0), 0, n) == Writing(c, id, n)
  {
    UpdatedTwice(c.files, (id, 0), 0, n);
  }

  lemma NewClosed(pick: Choice, c: Cache, id: Id, n: nat)
    requires RoomToStore(c, id)
    ensures Release(pick, Writing(c, id, n), 0) == Stored(c, id, n)
  {
    UpdatedTwice(c.entries, id, Entry(Locked, 1, 0, 1), Entry(Locked, 0, n, 1));
    assert Without([Stream(id, 0, true)], 0) == [];
    hide CheckLimit, Without;
  }

  lemma StoreRuns(pick: Choice, c: Cache, id: Id, n: nat)
    requires RoomToStore(c, id)
    ensures LegalRun(c, StoreSteps(pick, id, n)) && RunOf(c, StoreSteps(pick, id, n)) == Stored(c, id, n)
  {
    var c1 := c.(entries := c.entries[id := Entry(Locked, 0, 0, 0)]);
    var c2, c3, c4 := Writing(c, id, 0), Writing(c, id, n), Stored(c, id, n);
    assert id in c1.entries && c2.open == c3.open == [Stream(id, 0, true)];
    hide Lock, Write, Fill, Release, LegalRun, RunOf, RoomToStore, Writing, Stored;
    NewLocked(pick, c, id);
    NewOpened(c, id);
    NewFilled(c, id, n);
    NewClosed(pick, c, id, n);
    EmptyRun(c4);
    RunStep(c3, c4, ReleaseResource(0), pick, []);
    var s3 := [(ReleaseResource(0), pick)] + [];
    RunStep(c2, c3, FillFile(0, n), pick, s3);
    var s2 := [(FillFile(0, n), pick)] + s3;
    RunStep(c1, c2, WriteResource(id, 0, true), pick, s2);
    RunStep(c, c1, LockResource(id), pick, [(WriteResource(id, 0, true), pick)] + s2);
  }

  /** Two resources of `n` bytes in a cache for `n`: "a" idle, "b" still locked. */
  function Crowded(n: nat): Cache {
    Cache(n, 2 * n, 0, map["a" := Entry(Unlocked, 0, n, 1), "b" := Entry(Locked, 0, n, 1)],
          map[("a", 0) := n, ("b", 0) := n], {}, [])
  }

  function CrowdingSteps(pick: Choice, n: nat): seq<(Op, Choice)> {
    StoreSteps(pick, "a", n) + ([(UnlockResource("a"), pick)] + StoreSteps(pick, "b", n))
  }

  lemma CrowdingRuns(pick: Choice, n: nat)
    ensures var c := Cache(n, 0, 0, map[], map[], {}, []);
      LegalRun(c, CrowdingSteps(pick, n)) && RunOf(c, CrowdingSteps(pick, n)) == Crowded(n)
  {
    hide LegalRun, RunOf, StoreSteps;
    var c := Cache(n, 0, 0, map[], map[], {}, []);
    StoreRuns(pick, c, "a", n);
    var c1 := Stored(c, "a", n);
    var c2 := c1.(entries := map["a" := Entry(Unlocked, 0, n, 1)]);
    assert c1.entries == map["a" := Entry(Locked, 0, n, 1)] && c1.files == map[("a", 0) := n];
    assert Unlock(pick, c1, "a").0 == c2;
    StoreRuns(pick, c2, "b", n);
    assert Stored(c2, "b", n) == Crowded(n);
    hide Unlock, Stored, Crowded;
    RunStep(c1, c2, UnlockResource("a"), pick, StoreSteps(pick, "b", n));
    RunsJoined(c, StoreSteps(pick, "a", n), [(UnlockResource("a"), pick)] + StoreSteps(pick, "b", n));
  }

  lemma CrowdedOrder(n: nat)
    ensures InOrder(Crowded(n).entries.Keys) == ["a", "b"]
  {
    var keys := Crowded(n).entries.Keys;
    assert keys == {"a", "b"} && keys - {"a"} == {"b"} && {"b"} - {"b"} == {};
    assert Before("a", "b") && Least("a", keys) && Least("b", {"b"});
    LeastExists(keys);
    LeastExists({"b"});
    assert InOrder(keys) == ["a"] + InOrder({"b"});
    assert InOrder({"b"}) == ["b"] + InOrder({});
  }

  lemma CrowdedVictim(n: nat, modified: map<Id, nat>)
    requires "a" in modified && "b" in modified
    ensures Stamped(["a", "b"], Crowded(n), modified)
    ensures SourceVictim(["a", "b"], Crowded(n), modified) == Picked(if modified["a"] < modified["b"] then 0 else 1)
  {
    var order, c := ["a", "b"], Crowded(n);
    assert order[0] == "a" && order[1] == "b";
    assert c.entries["a"].Idle() && FirstIdle(order, c, 0) == 0;
    var it := if modified["a"] < modified["b"] then 0 else 1;
    assert Oldest(order, modified, 0, 1) == Oldest(order, modified, 1, it) == Oldest(order, modified, 2, it) == it;
  }

  lemma CrowdedAEvicted(n: nat)
    ensures var c := Crowded(n);
      c.entries["a"].Idle() && Delete(c, "a").1 && Delete(c, "a").0.totalSize == n && "a" !in Delete(c, "a").0.entries
  {
  }

  lemma CrowdedLockDangles(modified: map<Id, nat>, n: nat)
    requires n > 0 && "a" in modified && "b" in modified && modified["a"] < modified["b"]
    ensures Lock(SourceChoice(modified), Crowded(n), "a").1 == Dangling
  {
    var c, pick := Crowded(n), SourceChoice(modified);
    CrowdedOrder(n);
    CrowdedVictim(n, modified);
    CrowdedAEvicted(n);
    assert pick(c) == "a";
    assert CheckLimit(pick, c) == (Delete(c, "a").0, true);
    hide CheckLimit, Delete, SourceVictim, InOrder;
  }

  /** The failure is reached from the empty cache, with the victims that the source picks:
      when "b" was made in a later second than that in which "a" was unlocked, locking "a"
      goes on with an entry that has been erased. */
  lemma LockDanglesInARun(n: nat, modified: map<Id, nat>)
    requires n > 0 && "a" in modified && "b" in modified && modified["a"] < modified["b"]
    ensures var c, steps := Cache(n, 0, 0, map[], map[], {}, []), CrowdingSteps(SourceChoice(modified), n);
      && Exclusion(c) && Books(c) && LegalRun(c, steps) && RunOf(c, steps) == Crowded(n)
    ensures Lock(SourceChoice(modified), Crowded(n), "a").1 == Dangling
  {
    hide LegalRun, RunOf, CrowdingSteps, Crowded, Exclusion, Books, Lock, SourceChoice;
    CrowdingRuns(SourceChoice(modified), n);
    EmptyIsSound(n);
    CrowdedLockDangles(modified, n);
  }

  // ---------- Scans that find no victim ----------

  /** In the very same state, had "b" been made in the same second, the scan settles on "b",
      which is locked, and eviction fails, although "a" is idle and evicting it would do. */
  lemma BusyVictimInARun(n: nat, modified: map<Id, nat>)
    requires n > 0 && "a" in modified && "b" in modified && modified["a"] == modified["b"]
    ensures var c, steps := Cache(n, 0, 0, map[], map[], {}, []), CrowdingSteps(SourceChoice(modified), n);
      LegalRun(c, steps) && RunOf(c, steps) == Crowded(n)
    ensures var c := Crowded(n);
      && c.entries.Keys <= modified.Keys && SourceCheckLimit(modified, c) == (c, CannotDelete)
      && c.SomeIdle() && Delete(c, "a").1 && Delete(c, "a").0.totalSize <= c.maxCache
  {
    CrowdingRuns(SourceChoice(modified), n);
    CrowdedAEvicted(n);
    CrowdedScan(n, modified);
    hide LegalRun, RunOf, CrowdingSteps, SourceChoice, SourceCheckLimit, Delete;
  }

  lemma CrowdedScan(n: nat, modified: map<Id, nat>)
    requires n > 0 && "a" in modified && "b" in modified && modified["a"] == modified["b"]
    ensures Crowded(n).entries.Keys <= modified.Keys
    ensures SourceCheckLimit(modified, Crowded(n)) == (Crowded(n), CannotDelete)
  {
    CrowdedOrder(n);
    CrowdedVictim(n, modified);
    hide InOrder, SourceVictim;
  }

  lemma SoleOrder(id: Id)
    ensures InOrder({id}) == [id]
  {
    assert Least(id, {id}) && {id} - {id} == {};
    LeastExists({id});
    assert InOrder({id}) == [id] + InOrder({});
  }

  /** A resource of `n + 1` bytes in a cache for `n`, once it is unlocked. */
  function Sole(id: Id, n: nat): Cache {
    Cache(n, n + 1, 0, map[id := Entry(Unlocked, 0, n + 1, 1)], map[(id, 0) := n + 1], {}, [])
  }

  lemma SoleScan(id: Id, n: nat, modified: map<Id, nat>)
    requires id in modified
    ensures Sole(id, n).entries.Keys <= modified.Keys
    ensures SourceCheckLimit(modified, Sole(id, n)) == (Sole(id, n), ReadsPastEnd)
  {
    var c := Sole(id, n);
    SoleOrder(id);
    assert c.entries.Keys == {id} && c.entries[id].Idle();
    assert FirstIdle([id], c, 0) == 0;
    hide InOrder;
  }

  lemma SoleMayDangle(id: Id, n: nat)
    ensures MayDangle(Sole(id, n), id)
  {
    var c := Sole(id, n);
    SumWithout(c.entries, id, BusySizes);
    assert c.entries - {id} == map[];
  }

  /** The other failure is reached as well: a resource is written that is too large for the
      cache, and when it is unlocked, as the only one, the scan reads past the end. There
      `MayDangle` holds and yet the source need not get as far as evicting the entry. */
  lemma ReadsPastEndInARun(pick: Choice, id: Id, n: nat, modified: map<Id, nat>)
    requires id in modified
    ensures var c, steps := Cache(n, 0, 0, map[], map[], {}, []), StoreSteps(pick, id, n + 1);
      && LegalRun(c, steps)
      && var c1 := RunOf(c, steps);
      && id in c1.entries && c1.entries[id].lockState == Locked && c1.entries[id].accessors == 0
      && c1.(entries := c1.entries[id := c1.entries[id].(lockState := Unlocked)]) == Sole(id, n)
    ensures Sole(id, n).entries.Keys <= modified.Keys && SourceCheckLimit(modified, Sole(id, n)).1 == ReadsPastEnd
    ensures MayDangle(Sole(id, n), id)
  {
    var c := Cache(n, 0, 0, map[], map[], {}, []);
    StoreRuns(pick, c, id, n + 1);
    SoleScan(id, n, modified);
    SoleMayDangle(id, n);
    var none: map<Id, Entry> := map[];
    var last, sole := Entry(Locked, 0, n + 1, 1), Entry(Unlocked, 0, n + 1, 1);
    assert none[id := last] == map[id := last] && map[id := last][id := sole] == map[id := sole];
    hide LegalRun, RunOf, StoreSteps, SourceCheckLimit, MayDangle;
  }

  // ---------- A second writer ----------

  function Holding(maxCache: nat, id: Id, e: Entry, bytes: nat, writers: nat): Cache
    requires writers <= 2
  {
    var writer := Stream(id, 0, true);
    Cache(maxCache, e.size, e.accessors, map[id := e], if e.streams == 0 then map[] else map[(id, 0) := bytes], {},
          if writers == 0 then [] else if writers == 1 then [writer] else [writer, writer])
  }

  lemma LockEmpty(pick: Choice, id: Id, maxCache: nat)
    ensures Lock(pick, Cache(maxCache, 0, 0, map[], map[], {}, []), id)
      == (Holding(maxCache, id, Entry(Locked, 0, 0, 0), 0, 0), Granted)
  {
    var none: map<Id, Entry> := map[];
    assert none[id := NEW_ENTRY][id := Entry(Locked, 0, 0, 0)] == map[id := Entry(Locked, 0, 0, 0)];
  }

  lemma WriteTwice(id: Id, maxCache: nat, writers: nat)
    requires writers <= 1
    ensures Write(Holding(maxCache, id, Entry(Locked, writers, 0, writers), 0, writers), id, 0, true).0
      == Holding(maxCache, id, Entry(Locked, writers + 1, 0, 1), 0, writers + 1)
  {
  }

  lemma ReleaseTwice(pick: Choice, id: Id, n: nat, maxCache: nat, writers: nat)
    requires 1 <= writers <= 2
    ensures Release(pick, Holding(maxCache, id, Entry(Locked, writers, (2 - writers) * n, 1), n, writers), 0)
      == Holding(maxCache, id, Entry(Locked, writers - 1, (3 - writers) * n, 1), n, writers - 1)
  {
  }

  lemma FillAndUnlock(pick: Choice, id: Id, n: nat, maxCache: nat)
    requires 2 * n <= maxCache
    ensures var c := Holding(maxCache, id, Entry(Locked, 2, 0, 1), 0, 2);
      && 0 < |c.open| && c.open[0].writing
      && Fill(c, 0, n) == Holding(maxCache, id, Entry(Locked, 2, 0, 1), n, 2)
    ensures var c := Holding(maxCache, id, Entry(Locked, 0, 2 * n, 1), n, 0);
      && id in c.entries
      && Unlock(pick, c, id).0 == Holding(maxCache, id, Entry(Unlocked, 0, 2 * n, 1), n, 0)
  {
  }

  lemma EmptyIsSound(maxCache: nat)
    ensures Exclusion(Cache(maxCache, 0, 0, map[], map[], {}, [])) && Books(Cache(maxCache, 0, 0, map[], map[], {}, []))
  {
  }

  /** Two writers of one stream: once both have left, and the resource is unlocked, its
      file of `n` bytes is counted twice. */
  lemma SecondWriterCountsTwice(pick: Choice, id: Id, n: nat, maxCache: nat)
    requires 0 < 2 * n <= maxCache
    ensures var c := Cache(maxCache, 0, 0, map[], map[], {}, []);
      var write := (WriteResource(id, 0, true), pick);
      var release := (ReleaseResource(0), pick);
      var steps := [(LockResource(id), pick)] + ([write] + ([write] + ([(FillFile(0, n), pick)]
        + ([release] + ([release] + ([(UnlockResource(id), pick)] + []))))));
      && Exclusion(c) && Books(c) && LegalRun(c, steps)
      && RunOf(c, steps).files == map[(id, 0) := n]
      && RunOf(c, steps).open == []
      && RunOf(c, steps).totalSize == 2 * n
  {
    var c := Cache(maxCache, 0, 0, map[], map[], {}, []);
    var c1 := Holding(maxCache, id, Entry(Locked, 0, 0, 0), 0, 0);
    var c2 := Holding(maxCache, id, Entry(Locked, 1, 0, 1), 0, 1);
    var c3 := Holding(maxCache, id, Entry(Locked, 2, 0, 1), 0, 2);
    var c4 := Holding(maxCache, id, Entry(Locked, 2, 0, 1), n, 2);
    var c5 := Holding(maxCache, id, Entry(Locked, 1, n, 1), n, 1);
    var c6 := Holding(maxCache, id, Entry(Locked, 0, 2 * n, 1), n, 0);
    var c7 := Holding(maxCache, id, Entry(Unlocked, 0, 2 * n, 1), n, 0);
    hide Lock, Write, Fill, Release, Unlock, LegalRun, RunOf, Holding, CheckLimit, Exclusion, Books;
    EmptyIsSound(maxCache);
    FillAndUnlock(pick, id, n, maxCache);
    LockEmpty(pick, id, maxCache);
    WriteTwice(id, maxCache, 0);
    WriteTwice(id, maxCache, 1);
    ReleaseTwice(pick, id, n, maxCache, 2);
    ReleaseTwice(pick, id, n, maxCache, 1);
    EmptyRun(c7);
    RunStep(c6, c7, UnlockResource(id), pick, []);
    var s6 := [(UnlockResource(id), pick)] + [];
    RunStep(c5, c6, ReleaseResource(0), pick, s6);
    var s5 := [(ReleaseResource(0), pick)] + s6;
    RunStep(c4, c5, ReleaseResource(0), pick, s5);
    var s4 := [(ReleaseResource(0), pick)] + s5;
    RunStep(c3, c4, FillFile(0, n), pick, s4);
    var s3 := [(FillFile(0, n), pick)] + s4;
    RunStep(c2, c3, WriteResource(id, 0, true), pick, s3);
    var s2 := [(WriteResource(id, 0, true), pick)] + s3;
    RunStep(c1, c2, WriteResource(id, 0, true), pick, s2);
    RunStep(c, c1, LockResource(id), pick, [(WriteResource(id, 0, true), pick)] + s2);
  }

  /** The sizes agree with the files, as far as these are not being written. */
  ghost predicate SizesRight(c: Cache) {
    forall id :: id in c.entries ==> c.entries[id].size == FileSum(c, id, c.entries[id].streams)
  }

  /** What the four calls do to the entry, the file and the streams. */
  lemma BothClosed(pick: Choice, c: Cache, k: nat)
    requires Exclusion(c) && Books(c) && k < |c.open| && c.open[k].writing
    requires c.open[k].id in c.entries && c.entries[c.open[k].id].lockState == Locked
    ensures var (id, index) := (c.open[k].id, c.open[k].index);
      var e := c.entries[id];
      var previous := Min(c.FileSize(id, index), e.size);
      var c1 := Write(c, id, index, true).0;
      && k < |c1.open| && c1.open[k].writing
      && var c2 := Fill(c1, k, previous + 1);
      && |c.open| < |c2.open|
      && var c3 := Release(pick, c2, |c.open|);
      && k < |c3.open|
      && var c4 := Release(pick, c3, k);
      && c4.open == Without(c.open, k)
      && c4.files == c.files[(id, index) := previous + 1]
      && c4.entries.Keys == c.entries.Keys
      && c4.entries[id].streams == e.streams
      && c4.entries[id].size == e.size - previous + 2 * (previous + 1)
  {
    var id, index := c.open[k].id, c.open[k].index;
    assert StreamHeld(c, c.open[k]);
    CountPositive(c.open, k);
    hide Exclusion, Books, CheckLimit, Count;
  }

  /** When the one writer of a stream has left, its file counts. */
  lemma LeftAlone(c: Cache, c': Cache, k: nat, size: nat)
    requires Exclusion(c) && Books(c) && k < |c.open| && c.open[k].writing && c.open[k].id in c.entries
    requires c'.open == Without(c.open, k) && c'.files == c.files[(c.open[k].id, c.open[k].index) := size]
    ensures var id := c.open[k].id;
      FileSum(c', id, c.entries[id].streams) == c.entries[id].size + size
    ensures OneWriter(c'.open)
  {
    var id, index := c.open[k].id, c.open[k].index;
    assert StreamHeld(c, c.open[k]);
    forall i: nat
      ensures c'.WriterOpen(id, i) == (c.WriterOpen(id, i) && c.open[k] != Stream(id, i, true))
    {
      WriterWithout(c.open, k, Stream(id, i, true));
    }
    FileSumDiffers(c, c', id, index, c.entries[id].streams);
  }

  /** A run without another second writer that leaves these streams open, no two of them
      writers of one file, and yet a size that is wrong. */
  ghost predicate GoesWrong(c: Cache, steps: seq<(Op, Choice)>, open: seq<Stream>) {
    && LegalRun(c, steps) && NoSecondWriter(c, steps)
    && RunOf(c, steps).open == open && OneWriter(open)
    && !SizesRight(RunOf(c, steps))
  }

  /** Fill the file with one byte more than it had, and close both its writers. */
  function FillAndClose(pick: Choice, c: Cache, k: nat): seq<(Op, Choice)>
    requires k < |c.open| && c.open[k].id in c.entries
  {
    var size := Min(c.FileSize(c.open[k].id, c.open[k].index), c.entries[c.open[k].id].size) + 1;
    [(FillFile(k, size), pick)] + ([(ReleaseResource(|c.open|), pick)] + ([(ReleaseResource(k), pick)] + []))
  }

  /** From any state in which the books are right, a second writer of a stream can be
      followed by calls that are no longer at fault, but that make a size wrong. */
  lemma SecondWriterBreaksSizes(pick: Choice, c: Cache, k: nat)
    requires Exclusion(c) && Books(c) && k < |c.open| && c.open[k].writing
    requires c.open[k].id in c.entries && c.entries[c.open[k].id].lockState == Locked
    ensures GoesWrong(Write(c, c.open[k].id, c.open[k].index, true).0, FillAndClose(pick, c, k), Without(c.open, k))
  {
    hide Write, Fill, Release, LegalRun, RunOf, NoSecondWriter, Exclusion, Books, FileSum, Without, OneWriter;
    var id, index := c.open[k].id, c.open[k].index;
    var size := Min(c.FileSize(id, index), c.entries[id].size) + 1;
    BothClosed(pick, c, k);
    var c1 := Write(c, id, index, true).0;
    var c3 := Release(pick, Fill(c1, k, size), |c.open|);
    LeftAlone(c, Release(pick, c3, k), k, size);
    ThreeSteps(pick, c1, FillFile(k, size), ReleaseResource(|c.open|), ReleaseResource(k));
  }

  lemma ThreeSteps(pick: Choice, c: Cache, a: Op, b: Op, d: Op)
    requires Legal(pick, c, a) && !SecondWriter(c, a)
    requires var c1 := Perform(pick, c, a); Legal(pick, c1, b) && !SecondWriter(c1, b)
    requires var c2 := Perform(pick, Perform(pick, c, a), b); Legal(pick, c2, d) && !SecondWriter(c2, d)
    ensures var steps := [(a, pick)] + ([(b, pick)] + ([(d, pick)] + []));
      LegalRun(c, steps) && NoSecondWriter(c, steps)
      && RunOf(c, steps) == Perform(pick, Perform(pick, Perform(pick, c, a), b), d)
  {
    hide Legal, Perform, SecondWriter, LegalRun, RunOf, NoSecondWriter;
    var c1 := Perform(pick, c, a);
    var c2 := Perform(pick, c1, b);
    var c3 := Perform(pick, c2, d);
    EmptyRun(c3);
    RunStep(c2, c3, d, pick, []);
    RunStep(c1, c2, b, pick, [(d, pick)] + []);
    RunStep(c, c1, a, pick, [(b, pick)] + ([(d, pick)] + []));
  }

  /** Whatever is done next, short of another second writer, the sizes are right again
      once no file has two writers. */
  ghost predicate SizesStayRight(c: Cache) {
    forall steps: seq<(Op, Choice)> :: LegalRun(c, steps) && NoSecondWriter(c, steps) && OneWriter(RunOf(c, steps).open)
      ==> SizesRight(RunOf(c, steps))
  }

  /** So the condition on writers is exact: opening a stream of a locked resource for
      writing leaves the sizes right for good if and only if no one is writing it. */
  lemma SecondWriterIff(c: Cache, id: Id, index: nat)
    requires Exclusion(c) && Books(c) && id in c.entries && c.entries[id].lockState == Locked
    ensures SizesStayRight(Write(c, id, index, true).0) <==> !c.WriterOpen(id, index)
  {
    var c1 := Write(c, id, index, true).0;
    if c.WriterOpen(id, index) {
      var k :| 0 <= k < |c.open| && c.open[k] == Stream(id, index, true);
      SecondWriterBreaksSizes(AnyEntry, c, k);
    } else {
      WriteKeepsExclusion(c, id, index, true);
      WriteKeepsBooks(c, id, index, true);
      forall steps | LegalRun(c1, steps) && NoSecondWriter(c1, steps) ensures SizesRight(RunOf(c1, steps)) {
        EveryRunBalances(c1, steps);
      }
    }
  }
}
