/** The disk cache itself, updated in place. Each method is held to its operation, and says
    what that means for its caller. */
module DiskCaching {
  import opened Sizes
  import opened DiskCacheSpec
  import opened DiskCacheInvariants
  import opened DiskCacheRuns
  import opened DiskCacheHazards
  import opened DiskCacheVictims
  import opened DiskCacheEvictions
  import Spec = DiskCacheSpec

  lemma NewEntryKeeps(c: Cache, id: Id)
    ensures Kept(c, GetOrCreate(c, id))
  {
    if id !in c.entries && Exclusion(c) {
      NewEntryKeepsExclusion(c, id);
      if Totals(c) {
        TotalsUpdated(c, GetOrCreate(c, id), id, NEW_ENTRY);
      }
      if Books(c) {
        NewEntryKeepsBooks(c, id);
      }
    }
    hide Exclusion, Totals, Books;
  }

  /** Readers do not keep it from being locked, nor writers from being unlocked. */
  predicate MayTurn(e: Entry, state: LockState) {
    match state
    case Locked => e.lockState == Unlocked ==> e.accessors == 0
    case Unlocked => e.accessors == 0
    case Unlocking => e.lockState != Unlocked && e.accessors > 0
  }

  function Turned(c: Cache, id: Id, state: LockState): Cache
    requires id in c.entries
  {
    c.(entries := c.entries[id := c.entries[id].(lockState := state)])
  }

  lemma TurnKeeps(c: Cache, id: Id, state: LockState)
    requires id in c.entries && MayTurn(c.entries[id], state)
    ensures Kept(c, Turned(c, id, state))
  {
    var e := c.entries[id].(lockState := state);
    var c' := Turned(c, id, state);
    if Exclusion(c) {
      forall k | 0 <= k < |c'.open| ensures StreamHeld(c', c'.open[k]) {
        assert StreamHeld(c, c.open[k]);
        CountPositive(c.open, k);
      }
      if Totals(c) {
        TotalsUpdated(c, c', id, e);
      }
      if Books(c) {
        RelockedKeepsBooks(c, id, state);
      }
    }
    hide Totals, Books;
  }

  /** `LockResource` with the source's victims, and whether the scan for one has gone astray. */
  function SourceLock(modified: map<Id, nat>, c: Cache, id: Id): (r: (Cache, Grant, bool))
    requires GetOrCreate(c, id).entries.Keys <= modified.Keys
  {
    var c0 := GetOrCreate(c, id);
    if !MayTurn(c0.entries[id], Locked) || c0.entries[id].lockState == Locked then (c0, Refused, false)
    else
      var (c1, outcome) := if c0.totalSize > c0.maxCache then SourceCheckLimit(modified, c0) else (c0, Fits);
      if outcome != Fits then (c1, Refused, outcome == ReadsPastEnd)
      else if id !in c1.entries then (c1, Dangling, false)
      else (Turned(c1, id, Locked), Granted, false)
  }

  lemma SourceLockIsLock(modified: map<Id, nat>, c: Cache, id: Id)
    requires GetOrCreate(c, id).entries.Keys <= modified.Keys
    ensures var (c', grant, astray) := SourceLock(modified, c, id);
      !astray ==> Spec.Lock(SourceChoice(modified), c, id) == (c', grant)
  {
    var c0 := GetOrCreate(c, id);
    SourceEvictsIdle(modified, c0);
    SourceIsAChoice(modified, c0);
    hide Spec.CheckLimit, SourceCheckLimit, SourceChoice;
  }

  lemma SourceLockKeeps(modified: map<Id, nat>, c: Cache, id: Id)
    requires GetOrCreate(c, id).entries.Keys <= modified.Keys
    ensures var (c', grant, astray) := SourceLock(modified, c, id);
      && Kept(c, c')
      && (grant == Granted ==>
            && id in c'.entries && c'.entries[id].lockState == Locked && c'.totalSize <= c'.maxCache
            && (id in c.entries ==> c.entries[id].lockState == Unlocking || c.entries[id].Idle()))
  {
    var c0 := GetOrCreate(c, id);
    NewEntryKeeps(c, id);
    KeptTwice(c, c, c);
    SourceEvictsIdle(modified, c0);
    var c1 := if c0.totalSize > c0.maxCache then SourceCheckLimit(modified, c0).0 else c0;
    KeptTwice(c, c0, c1);
    if SourceLock(modified, c, id).1 == Granted {
      TurnKeeps(c1, id, Locked);
      KeptTwice(c, c1, Turned(c1, id, Locked));
    }
    hide Kept, SourceCheckLimit;
  }

  /** When a lock is given: exactly to a resource that no one reads and no one else holds, if
      there is room, or if room can be made without evicting the resource itself; and then
      nothing changes but its lock, beyond what is evicted. */
  predicate LockGives(modified: map<Id, nat>, c: Cache, id: Id, c': Cache, grant: Grant, astray: bool)
    requires GetOrCreate(c, id).entries.Keys <= modified.Keys
  {
    var was := if id in c.entries then c.entries[id] else Entry(Unlocked, 0, 0, 0);
    var free := was.lockState == Unlocking || (was.lockState == Unlocked && was.accessors == 0);
    if !free then grant == Refused && !astray && c' == c
    else if c.totalSize <= c.maxCache then
      grant == Granted && !astray && c' == c.(entries := c.entries[id := was.(lockState := Locked)])
    else
      var (c1, outcome) := SourceCheckLimit(modified, c.(entries := c.entries[id := was]));
      && (grant == Granted <==> outcome == Fits && id in c1.entries)
      && (grant == Dangling <==> outcome == Fits && id !in c1.entries)
      && (astray <==> outcome == ReadsPastEnd)
      && c' == if grant == Granted then c1.(entries := c1.entries[id := was.(lockState := Locked)]) else c1
  }

  lemma SourceLockGives(modified: map<Id, nat>, c: Cache, id: Id)
    requires GetOrCreate(c, id).entries.Keys <= modified.Keys
    ensures var (c', grant, astray) := SourceLock(modified, c, id); LockGives(modified, c, id, c', grant, astray)
  {
    hide SourceCheckLimit, Kept, OnlyIdleGone;
    var c0 := GetOrCreate(c, id);
    assert c0 == c.(entries := c.entries[id := c0.entries[id]]);
    if c.totalSize > c.maxCache {
      EntryStays(modified, c0, id);
    }
  }

  lemma EntryStays(modified: map<Id, nat>, c: Cache, id: Id)
    requires c.entries.Keys <= modified.Keys && id in c.entries
    ensures var c' := SourceCheckLimit(modified, c).0; id in c'.entries ==> c'.entries[id] == c.entries[id]
  {
    SourceEvictsIdle(modified, c);
    hide SourceCheckLimit, Kept;
  }

  lemma SourceLockDangles(modified: map<Id, nat>, c: Cache, id: Id)
    requires GetOrCreate(c, id).entries.Keys <= modified.Keys
    ensures Exclusion(c) && Books(c) && !MayDangle(c, id) ==> SourceLock(modified, c, id).1 != Dangling
  {
    SourceLockIsLock(modified, c, id);
    if Exclusion(c) && Books(c) && SourceLock(modified, c, id).1 == Dangling {
      DanglingNeedsRoom(SourceChoice(modified), c, id);
    }
    hide Exclusion, Books, MayDangle, Spec.Lock, SourceChoice, SourceCheckLimit;
  }

  lemma KeptTwice(c: Cache, c1: Cache, c2: Cache)
    ensures Kept(c, c)
    ensures Kept(c, c1) && Kept(c1, c2) ==> Kept(c, c2)
  {
    hide Exclusion, Totals, Books;
    BooksHaveTotals(c);
  }

  /** Eviction, and whether it goes astray. */
  function AfterCheck(modified: map<Id, nat>, c: Cache): (Cache, bool)
    requires c.entries.Keys <= modified.Keys
  {
    var (c', outcome) := SourceCheckLimit(modified, c);
    (c', outcome == ReadsPastEnd)
  }

  lemma WriteKeeps(c: Cache, id: Id, index: nat, canOpen: bool)
    requires id in c.entries
    ensures !c.WriterOpen(id, index) ==> Kept(c, Spec.Write(c, id, index, canOpen).0)
    ensures Exclusion(c) ==> Exclusion(Spec.Write(c, id, index, canOpen).0)
    ensures Exclusion(c) && Totals(c) ==> Totals(Spec.Write(c, id, index, canOpen).0)
    ensures Exclusion(c) && Books(c) && !c.WriterOpen(id, index) ==>
      c.FileSize(id, index) <= c.entries[id].size <= c.totalSize
  {
    if Exclusion(c) {
      WriteKeepsExclusion(c, id, index, canOpen);
      if Totals(c) {
        WriteKeepsTotals(c, id, index, canOpen);
        NoUnderflow(c, id, index, 0);
      }
      if Books(c) && !c.WriterOpen(id, index) {
        WriteKeepsBooks(c, id, index, canOpen);
        PreviousSizeCounted(c, id, index);
      }
    }
    BooksHaveTotals(c);
    hide Spec.Write, Exclusion, Totals, Books;
  }

  lemma BooksHaveTotals(c: Cache)
    ensures Books(c) ==> Totals(c)
  {
    hide Totals;
  }

  lemma ReadKeeps(c: Cache, id: Id, index: nat, canOpen: bool)
    requires id in c.entries
    ensures Kept(c, Spec.Read(c, id, index, canOpen).0)
  {
    if Exclusion(c) {
      ReadKeepsExclusion(c, id, index, canOpen);
      if Totals(c) {
        ReadKeepsTotals(c, id, index, canOpen);
      }
      if Books(c) {
        ReadKeepsBooks(c, id, index, canOpen);
      }
    }
    hide Spec.Read, Exclusion, Totals, Books;
  }

  /** What it means that the `k`-th stream was closed: its entry was there, and has one
      accessor less and, if the stream was a writer, the size of its file more; the last
      writer out unlocks an entry that waited for that, and then there may be evictions;
      otherwise nothing else has changed. */
  ghost predicate Left(c: Cache, k: nat, c': Cache)
    requires k < |c.open|
  {
    var s := c.open[k];
    s.id in c.entries
    && var e := c.entries[s.id];
    var freed := e.lockState == Unlocking && e.accessors == 1;
    var added := if s.writing then c.FileSize(s.id, s.index) else 0;
    && e.accessors > 0
    && var c1 := c.(open := Without(c.open, k), totalSize := c.totalSize + added,
                    totalAccessors := Minus(c.totalAccessors, 1),
                    entries := c.entries[s.id := Entry(if freed then Unlocked else e.lockState, e.accessors - 1,
                                                       e.size + added, e.streams)]);
       if freed && c1.totalSize > c1.maxCache then OnlyIdleGone(c1, c') else c' == c1
  }

  predicate Frees(c: Cache, k: nat)
    requires k < |c.open| && c.open[k].id in c.entries
  {
    var e := c.entries[c.open[k].id];
    e.lockState == Unlocking && Minus(e.accessors, 1) == 0
  }

  /** The last writer may have left an entry that was then evicted. */
  lemma LeftBehind(c: Cache, k: nat, c': Cache)
    requires Exclusion(c) && k < |c.open|
    requires c.open[k].id in c.entries
    requires if Frees(c, k) && Released(c, k).totalSize > c.maxCache then OnlyIdleGone(Released(c, k), c')
             else c' == Released(c, k)
    ensures Left(c, k, c')
  {
    assert StreamHeld(c, c.open[k]);
    ReleasedKeepsExclusion(c, k);
    hide Exclusion, Without, OnlyIdleGone;
  }

  lemma ReleasedKeeps(c: Cache, k: nat)
    requires k < |c.open|
    ensures Exclusion(c) ==> c.open[k].id in c.entries && c.entries[c.open[k].id].accessors > 0
    ensures c.open[k].id in c.entries ==> Kept(c, Released(c, k))
  {
    if Exclusion(c) {
      ReleasedKeepsExclusion(c, k);
      assert c.open[k].id in c.entries && c.entries[c.open[k].id].accessors > 0;
      if Totals(c) {
        ReleasedKeepsTotals(c, k);
      }
      if Books(c) {
        ReleasedKeepsBooks(c, k);
      }
    }
    hide Exclusion, Totals, Books, Released;
  }

  class DiskCache {
    const maxCache: nat
    var totalSize: nat
    var totalAccessors: nat
    var entries: map<Id, Entry>
    /** When an entry was made or last unlocked, `last_modified`. */
    var modified: map<Id, nat>
    // The disk, and the adapters that are alive.
    var files: map<File, nat>
    const stuck: set<File>
    var open: seq<Stream>

    constructor (maxCache: nat, stuck: set<File>)
      ensures Abs() == Cache(maxCache, 0, 0, map[], map[], stuck, []) && AllStamped()
    {
      this.maxCache := maxCache;
      this.stuck := stuck;
      totalSize, totalAccessors, entries, modified, files, open := 0, 0, map[], map[], map[], [];
    }

    predicate AllStamped()
      reads this
    {
      entries.Keys <= modified.Keys
    }

    function Abs(): Cache
      reads this
    {
      Cache(maxCache, totalSize, totalAccessors, entries, files, stuck, open)
    }

    method GetOrCreateEntry(id: Id, create: bool, now: nat) returns (found: bool)
      requires AllStamped()
      modifies this`entries, this`modified
      ensures AllStamped() && (found <==> id in entries)
      ensures Abs() == if create then GetOrCreate(old(Abs()), id) else old(Abs())
      ensures modified == if create && id !in old(entries) then old(modified)[id := now] else old(modified)
    {
      if id in entries {
        return true;
      }
      if !create {
        return false;
      }
      entries, modified := entries[id := NEW_ENTRY], modified[id := now];
      return true;
    }

    method DeleteResource(id: Id) returns (success: bool)
      modifies this`entries, this`files, this`totalSize
      ensures (Abs(), success) == Spec.Delete(old(Abs()), id)
      ensures Kept(old(Abs()), Abs()) && (old(AllStamped()) ==> AllStamped())
      ensures stuck == {} ==> (success <==> id !in old(entries) || old(entries)[id].Idle())
      ensures success ==> id !in entries
      // an entry that may go goes with all its files that can
      ensures if id in old(entries) && old(entries)[id].Idle() then
                && entries == old(entries) - {id} && totalSize == Minus(old(totalSize), old(entries)[id].size)
                && (forall f :: f in files ==> f in old(files) && files[f] == old(files)[f])
                && (forall f :: f in old(files) ==>
                      (f !in files <==> f.0 == id && f.1 < old(entries)[id].streams && f !in stuck))
              else Abs() == old(Abs())
    {
      ghost var c := Abs();
      DeleteKeeps(c, id);
      hide Kept;
      if id !in entries {
        return true;
      }
      var entry := entries[id];
      if entry.lockState != Unlocked || entry.accessors > 0 {
        return false;
      }
      success := true;
      var index := 0;
      while index < entry.streams
        invariant index <= entry.streams
        invariant Abs() == c.(files := files)
        invariant forall f :: f in files <==> f in c.files && (f.0 == id && f.1 < index ==> f in stuck)
        invariant forall f :: f in files ==> files[f] == c.files[f]
        invariant success <==> forall i :: 0 <= i < index && (id, i) in c.files ==> (id, i) !in stuck
      {
        var file := (id, index);
        if file in files {
          if file in stuck {
            success := false;
          } else {
            files := files - {file};
          }
        }
        index := index + 1;
      }
      assert files == c.files - (FilesOf(c, id) - c.stuck);
      totalSize := Minus(totalSize, entry.size);
      entries := entries - {id};
    }

    method CheckLimit() returns (outcome: CheckOutcome)
      requires AllStamped()
      modifies this`entries, this`files, this`totalSize
      ensures AllStamped() && (Abs(), outcome) == SourceCheckLimit(modified, old(Abs()))
      // it does nothing that is not done for some choice of victims, but for going astray
      ensures outcome != ReadsPastEnd ==>
        (Abs(), outcome == Fits) == Spec.CheckLimit(SourceChoice(modified), old(Abs()))
      ensures Kept(old(Abs()), Abs()) && OnlyIdleGone(old(Abs()), Abs())
      ensures outcome == Fits ==> totalSize <= maxCache
    {
      hide Kept, OnlyIdleGone, Spec.Delete, Spec.CheckLimit, SourceCheckLimit, SourceChoice, SourceVictim, InOrder,
        Stamped, Entry.Idle;
      ghost var c := Abs();
      SourceIsAChoice(modified, c);
      SourceEvictsIdle(modified, c);
      ghost var end := SourceCheckLimit(modified, c);
      while totalSize > maxCache
        invariant AllStamped() && Abs() == c
        invariant SourceCheckLimit(modified, c) == end
        decreases |c.entries|
      {
        OrderStamped(modified, c);
        var order := InOrder(entries.Keys);
        var victim := FindVictim(order, Abs(), modified);
        SourceStep(modified, c, order, victim);
        if victim == NoneIdle {
          return AllLocked;
        }
        if victim == PastTheEnd {
          return ReadsPastEnd;
        }
        var deleted := DeleteResource(order[victim.at]);
        c := Abs();
        if !deleted {
          return CannotDelete;
        }
      }
      RoomIsEnough(modified, c);
      return Fits;
    }

    /** `astray` when the scan for a victim has read past the end. */
    method LockResource(id: Id, now: nat) returns (grant: Grant, astray: bool)
      requires AllStamped()
      modifies this`entries, this`modified, this`files, this`totalSize
      ensures AllStamped() && modified == if id in old(entries) then old(modified) else old(modified)[id := now]
      ensures (Abs(), grant, astray) == SourceLock(modified, old(Abs()), id)
      ensures !astray ==> (Abs(), grant) == Spec.Lock(SourceChoice(modified), old(Abs()), id)
      ensures Kept(old(Abs()), Abs())
      ensures Exclusion(old(Abs())) && Books(old(Abs())) && !MayDangle(old(Abs()), id) ==> grant != Dangling
      ensures LockGives(modified, old(Abs()), id, Abs(), grant, astray)
      // a lock is given only where no one reads, no one else holds it, and there is room
      ensures grant == Granted ==>
        && id in entries && entries[id].lockState == Locked && totalSize <= maxCache
        && (id in old(entries) ==> old(entries)[id].lockState == Unlocking || old(entries)[id].Idle())
    {
      hide Kept, Exclusion, Books, MayDangle, Spec.Lock, Spec.CheckLimit, SourceCheckLimit, SourceChoice, OnlyIdleGone,
        LockGives;
      ghost var c := Abs();
      var _ := GetOrCreateEntry(id, true, now);
      SourceLockIsLock(modified, c, id);
      SourceLockKeeps(modified, c, id);
      SourceLockDangles(modified, c, id);
      SourceLockGives(modified, c, id);
      ghost var end := SourceLock(modified, c, id);
      hide GetOrCreate;
      if entries[id].lockState == Locked {
        return Refused, false;
      }
      if entries[id].lockState == Unlocked && entries[id].accessors > 0 {
        return Refused, false;
      }
      if totalSize > maxCache {
        var outcome := CheckLimit();
        if outcome != Fits {
          return Refused, outcome == ReadsPastEnd;
        }
        if id !in entries {
          return Dangling, false;
        }
      }
      entries := entries[id := entries[id].(lockState := Locked)];
      return Granted, false;
    }

    method WriteResource(id: Id, index: nat, canOpen: bool) returns (isOpen: bool)
      requires id in entries
      modifies this
      ensures (Abs(), isOpen) == Spec.Write(old(Abs()), id, index, canOpen)
      ensures isOpen <==> old(entries)[id].lockState == Locked && canOpen
      ensures !isOpen ==> Abs() == old(Abs())
      ensures isOpen ==> Abs().WriterOpen(id, index) && Abs().FileSize(id, index) == 0 && index < entries[id].streams
      ensures isOpen ==>
        var e := old(entries)[id];
        var counted := if old(Abs()).FileSize(id, index) < e.size then old(Abs()).FileSize(id, index) else e.size;
        var streams := if e.streams <= index then index + 1 else e.streams;
        && entries == old(entries)[id := Entry(Locked, e.accessors + 1, e.size - counted, streams)]
        && files == old(files)[(id, index) := 0] && open == old(open) + [Stream(id, index, true)]
        && totalSize == Minus(old(totalSize), counted) && totalAccessors == old(totalAccessors) + 1
      ensures Exclusion(old(Abs())) ==> Exclusion(Abs())
      ensures Exclusion(old(Abs())) && Totals(old(Abs())) ==> Totals(Abs())
      ensures !old(Abs()).WriterOpen(id, index) ==> Kept(old(Abs()), Abs())
      // the old contents of the file are counted no more, and nothing else is
      ensures isOpen && Exclusion(old(Abs())) && Books(old(Abs())) && !old(Abs()).WriterOpen(id, index) ==>
        && totalSize == old(totalSize) - old(Abs()).FileSize(id, index)
        && entries[id].size == old(entries)[id].size - old(Abs()).FileSize(id, index)
    {
      WriteKeeps(Abs(), id, index, canOpen);
      hide Kept, Exclusion, Books;
      var entry := entries[id];
      if entry.lockState != Locked {
        return false;
      }
      var previousSize := Abs().FileSize(id, index);
      if previousSize > entry.size {
        previousSize := entry.size;
      }
      if !canOpen {
        return false;
      }
      files := files[(id, index) := 0];
      entry := entry.(streams := Max(entry.streams, index + 1), size := entry.size - previousSize);
      totalSize := Minus(totalSize, previousSize);
      entry := entry.(accessors := entry.accessors + 1);
      entries := entries[id := entry];
      totalAccessors := totalAccessors + 1;
      open := open + [Stream(id, index, true)];
      assert open[|open| - 1] == Stream(id, index, true);
      return true;
    }

    method UnlockResource(id: Id, now: nat) returns (unlocked: bool, astray: bool)
      requires id in entries && AllStamped()
      modifies this`entries, this`modified, this`files, this`totalSize
      ensures AllStamped() && (astray ==> unlocked)
      ensures modified
        == if unlocked && old(entries)[id].accessors == 0 then old(modified)[id := now] else old(modified)
      ensures !astray ==> (Abs(), unlocked) == Spec.Unlock(SourceChoice(modified), old(Abs()), id)
      ensures Kept(old(Abs()), Abs())
      ensures unlocked <==> old(entries)[id].lockState == Locked
      ensures !unlocked ==> Abs() == old(Abs())
      // it waits for the writers; without any, it is unlocked, unless evicted for lack of room
      ensures unlocked && old(entries)[id].accessors > 0 ==>
        Abs() == old(Abs()).(entries := old(entries)[id := old(entries)[id].(lockState := Unlocking)])
      ensures unlocked && old(entries)[id].accessors == 0 && id in entries ==>
        entries[id] == old(entries)[id].(lockState := Unlocked)
      ensures unlocked && old(entries)[id].accessors == 0 ==>
        (Abs(), astray) == AfterCheck(modified, Turned(old(Abs()), id, Unlocked))
      ensures unlocked && old(entries)[id].accessors == 0 && old(totalSize) <= maxCache ==>
        Abs() == Turned(old(Abs()), id, Unlocked)
    {
      hide Kept;
      KeptTwice(Abs(), Abs(), Abs());
      if entries[id].lockState != Locked {
        return false, false;
      }
      if entries[id].accessors > 0 {
        TurnKeeps(Abs(), id, Unlocking);
        entries := entries[id := entries[id].(lockState := Unlocking)];
        return true, false;
      }
      TurnKeeps(Abs(), id, Unlocked);
      entries := entries[id := entries[id].(lockState := Unlocked)];
      modified := modified[id := now];
      ghost var c1 := Abs();
      var outcome := CheckLimit();
      KeptTwice(old(Abs()), c1, Abs());
      return true, outcome == ReadsPastEnd;
    }

    method ReadResource(id: Id, index: nat, canOpen: bool) returns (isOpen: bool)
      requires id in entries
      modifies this`entries, this`totalAccessors, this`open
      ensures (Abs(), isOpen) == Spec.Read(old(Abs()), id, index, canOpen)
      ensures Kept(old(Abs()), Abs())
      ensures isOpen <==> old(entries)[id].lockState == Unlocked && index < old(entries)[id].streams && canOpen
      ensures totalSize == old(totalSize) && files == old(files)
      ensures !isOpen ==> Abs() == old(Abs())
      // an open reader keeps the resource from being locked, deleted and evicted
      ensures isOpen ==> !entries[id].Idle() && open == old(open) + [Stream(id, index, false)]
      ensures isOpen ==>
        && entries == old(entries)[id := old(entries)[id].(accessors := old(entries)[id].accessors + 1)]
        && totalAccessors == old(totalAccessors) + 1
    {
      ReadKeeps(Abs(), id, index, canOpen);
      hide Kept;
      if entries[id].lockState != Unlocked {
        return false;
      }
      if index >= entries[id].streams {
        return false;
      }
      if !canOpen {
        return false;
      }
      entries := entries[id := entries[id].(accessors := entries[id].accessors + 1)];
      totalAccessors := totalAccessors + 1;
      open := open + [Stream(id, index, false)];
      return true;
    }

    /** The counters and sizes when the `k`-th open stream is closed; `freed` when its
        entry was waiting for that to be unlocked. */
    method Leave(k: nat) returns (freed: bool)
      requires k < |open| && open[k].id in entries
      modifies this`entries, this`totalSize, this`totalAccessors, this`open
      ensures Abs() == Released(old(Abs()), k) && freed == Frees(old(Abs()), k)
      ensures entries.Keys == old(entries).Keys
    {
      hide Without, Minus;
      var id, index := open[k].id, open[k].index;
      var entry := entries[id];
      open := Without(open, k);
      entry := entry.(accessors := Minus(entry.accessors, 1));
      totalAccessors := Minus(totalAccessors, 1);
      freed := false;
      if entry.lockState != Unlocked {
        var newSize := Abs().FileSize(id, index);
        entry := entry.(size := entry.size + newSize);
        totalSize := totalSize + newSize;
        if entry.lockState == Unlocking && entry.accessors == 0 {
          entry := entry.(lockState := Unlocked);
          freed := true;
        }
      }
      entries := entries[id := entry];
    }

    /** What the destructor of the `k`-th open stream does. */
    method ReleaseResource(k: nat, now: nat) returns (astray: bool)
      requires k < |open| && AllStamped()
      modifies this
      ensures AllStamped()
      ensures !astray ==> Abs() == Spec.Release(SourceChoice(modified), old(Abs()), k)
      ensures Exclusion(old(Abs())) ==> Kept(old(Abs()), Abs()) && Left(old(Abs()), k, Abs())
      ensures open == Without(old(open), k)
    {
      ReleasedKeeps(Abs(), k);
      hide Spec.CheckLimit, SourceCheckLimit, Kept, Left, Exclusion, Without, OnlyIdleGone;
      if open[k].id !in entries {
        open := Without(open, k);
        return false;
      }
      var id := open[k].id;
      var freed := Leave(k);
      ghost var c1 := Abs();
      if freed {
        modified := modified[id := now];
        var outcome := CheckLimit();
        KeptTwice(old(Abs()), c1, Abs());
        if c1.totalSize <= c1.maxCache {
          RoomIsEnough(modified, c1);
        }
        astray := outcome == ReadsPastEnd;
      } else {
        astray := false;
      }
      if Exclusion(old(Abs())) {
        LeftBehind(old(Abs()), k, Abs());
      }
    }
  }
}
