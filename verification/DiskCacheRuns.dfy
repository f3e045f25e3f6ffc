/** The invariants of the disk cache, operation by operation and over whole runs. */
module DiskCacheRuns {
  import opened Sizes
  import opened DiskCacheSpec
  import opened DiskCacheInvariants

  // ---------- Exclusion, operation by operation ----------

  lemma NewEntryKeepsExclusion(c: Cache, id: Id)
    requires Exclusion(c) && id !in c.entries
    ensures Exclusion(c.(entries := c.entries[id := NEW_ENTRY]))
  {
    NothingOpen(c.open, id);
  }

  lemma {:induction false} NothingOpen(open: seq<Stream>, id: Id)
    requires forall k :: 0 <= k < |open| ==> open[k].id != id
    ensures Count(open, id) == 0
  {
    if open != [] {
      NothingOpen(open[1..], id);
    }
  }

  lemma LockKeepsExclusion(pick: Choice, c: Cache, id: Id)
    requires Exclusion(c) && Lock(pick, c, id).1 != Dangling
    ensures Exclusion(Lock(pick, c, id).0)
  {
    var c0 := GetOrCreate(c, id);
    if id !in c.entries {
      NewEntryKeepsExclusion(c, id);
    }
    var c1 := if c0.totalSize > c0.maxCache then CheckLimit(pick, c0).0 else c0;
    CheckLimitEvictsIdle(pick, c0);
    EvictionKeepsExclusion(c0, c1);
    if Lock(pick, c, id).1 == Granted {
      LockedKeepsExclusion(c1, id);
    }
    hide Exclusion, OnlyIdleGone, CheckLimit;
  }

  lemma LockedKeepsExclusion(c: Cache, id: Id)
    requires Exclusion(c) && id in c.entries
    requires c.entries[id].lockState == Unlocked ==> c.entries[id].accessors == 0
    ensures Exclusion(c.(entries := c.entries[id := c.entries[id].(lockState := Locked)]))
  {
    var c' := c.(entries := c.entries[id := c.entries[id].(lockState := Locked)]);
    forall k | 0 <= k < |c'.open| ensures StreamHeld(c', c'.open[k]) {
      assert StreamHeld(c, c.open[k]);
      CountPositive(c.open, k);
    }
  }

  lemma WriteKeepsExclusion(c: Cache, id: Id, index: nat, canOpen: bool)
    requires Exclusion(c) && id in c.entries
    ensures Exclusion(Write(c, id, index, canOpen).0)
  {
    var c' := Write(c, id, index, canOpen).0;
    if c' != c {
      OpenedKeepsExclusion(c, c', Stream(id, index, true));
    }
  }

  lemma ReadKeepsExclusion(c: Cache, id: Id, index: nat, canOpen: bool)
    requires Exclusion(c) && id in c.entries
    ensures Exclusion(Read(c, id, index, canOpen).0)
  {
    var c' := Read(c, id, index, canOpen).0;
    if c' != c {
      OpenedKeepsExclusion(c, c', Stream(id, index, false));
    }
  }

  lemma OpenedKeepsExclusion(c: Cache, c': Cache, s: Stream)
    requires Exclusion(c) && c'.open == c.open + [s]
    requires s.id in c.entries && s.id in c'.entries
    requires c'.entries == c.entries[s.id := c'.entries[s.id]]
    requires c'.entries[s.id].lockState == c.entries[s.id].lockState != Unlocking
    requires c'.entries[s.id].accessors == c.entries[s.id].accessors + 1
    requires c'.entries[s.id].streams >= c.entries[s.id].streams
    requires StreamHeld(c', s)
    ensures Exclusion(c')
  {
    forall k | 0 <= k < |c'.open| ensures StreamHeld(c', c'.open[k]) {
      if k < |c.open| {
        assert StreamHeld(c, c.open[k]);
      }
    }
    forall other | other in c'.entries ensures c'.entries[other].accessors == Count(c'.open, other) {
      CountSnoc(c.open, s, other);
    }
  }

  lemma UnlockKeepsExclusion(pick: Choice, c: Cache, id: Id)
    requires Exclusion(c) && id in c.entries
    ensures Exclusion(Unlock(pick, c, id).0)
  {
    if c.entries[id].lockState == Locked {
      var state := if c.entries[id].accessors > 0 then Unlocking else Unlocked;
      var c' := c.(entries := c.entries[id := c.entries[id].(lockState := state)]);
      forall k | 0 <= k < |c'.open| ensures StreamHeld(c', c'.open[k]) {
        assert StreamHeld(c, c.open[k]);
        CountPositive(c.open, k);
      }
      CheckLimitEvictsIdle(pick, c');
      EvictionKeepsExclusion(c', CheckLimit(pick, c').0);
    }
  }

  lemma ReleasedKeepsExclusion(c: Cache, k: nat)
    requires Exclusion(c) && k < |c.open|
    ensures StreamHeld(c, c.open[k]) && c.entries[c.open[k].id].accessors > 0
    ensures Exclusion(Released(c, k))
  {
    assert StreamHeld(c, c.open[k]);
    CountPositive(c.open, k);
    var c' := Released(c, k);
    forall other | other in c'.entries ensures c'.entries[other].accessors == Count(c'.open, other) {
      CountWithout(c.open, k, other);
    }
    forall j | 0 <= j < |c'.open| ensures StreamHeld(c', c'.open[j]) {
      assert c'.open[j] == c.open[if j < k then j else j + 1];
      assert StreamHeld(c, c'.open[j]);
      CountPositive(c'.open, j);
    }
  }

  lemma ReleaseKeepsExclusion(pick: Choice, c: Cache, k: nat)
    requires Exclusion(c) && k < |c.open|
    ensures Exclusion(Release(pick, c, k))
  {
    ReleasedKeepsExclusion(c, k);
    var c1 := Released(c, k);
    CheckLimitEvictsIdle(pick, c1);
    EvictionKeepsExclusion(c1, CheckLimit(pick, c1).0);
  }

  // ---------- Books, operation by operation ----------

  lemma LockKeepsBooks(pick: Choice, c: Cache, id: Id)
    requires Exclusion(c) && Books(c) && Lock(pick, c, id).1 != Dangling
    ensures Books(Lock(pick, c, id).0)
  {
    var c0 := GetOrCreate(c, id);
    if id !in c.entries {
      NewEntryKeepsExclusion(c, id);
      NewEntryKeepsBooks(c, id);
    }
    var c1 := if c0.totalSize > c0.maxCache then CheckLimit(pick, c0).0 else c0;
    CheckLimitKeepsBooks(pick, c0);
    if Lock(pick, c, id).1 == Granted {
      RelockedKeepsBooks(c1, id, Locked);
    }
  }

  lemma NewEntryKeepsBooks(c: Cache, id: Id)
    requires Books(c) && id !in c.entries
    ensures Books(c.(entries := c.entries[id := NEW_ENTRY]))
  {
    var c' := c.(entries := c.entries[id := NEW_ENTRY]);
    SumNew(c.entries, id, Sizes);
    SumNew(c.entries, id, Accessors);
    forall f | f in c'.files ensures Tidy(c', f) {
      assert Tidy(c, f);
    }
    forall other | other in c'.entries
      ensures c'.entries[other].size == FileSum(c', other, c'.entries[other].streams)
    {
      FileSumSame(c, c', other, c'.entries[other].streams);
    }
  }

  lemma RelockedKeepsBooks(c: Cache, id: Id, state: LockState)
    requires Books(c) && id in c.entries
    ensures Books(c.(entries := c.entries[id := c.entries[id].(lockState := state)]))
  {
    var c' := c.(entries := c.entries[id := c.entries[id].(lockState := state)]);
    FileSumSame(c, c', id, c.entries[id].streams);
    forall f | f in c'.files ensures Tidy(c', f) {
      assert Tidy(c, f);
    }
    BooksUpdated(c, c', id);
  }

  lemma UnlockKeepsBooks(pick: Choice, c: Cache, id: Id)
    requires Exclusion(c) && Books(c) && id in c.entries
    ensures Books(Unlock(pick, c, id).0)
  {
    if c.entries[id].lockState == Locked {
      if c.entries[id].accessors > 0 {
        RelockedKeepsBooks(c, id, Unlocking);
      } else {
        RelockedKeepsBooks(c, id, Unlocked);
        UnlockedKeepsExclusion(c, id);
        CheckLimitKeepsBooks(pick, c.(entries := c.entries[id := c.entries[id].(lockState := Unlocked)]));
      }
    }
  }

  lemma UnlockedKeepsExclusion(c: Cache, id: Id)
    requires Exclusion(c) && id in c.entries && c.entries[id].accessors == 0
    ensures Exclusion(c.(entries := c.entries[id := c.entries[id].(lockState := Unlocked)]))
  {
    var c' := c.(entries := c.entries[id := c.entries[id].(lockState := Unlocked)]);
    forall k | 0 <= k < |c'.open| ensures StreamHeld(c', c'.open[k]) {
      assert StreamHeld(c, c.open[k]);
      CountPositive(c.open, k);
    }
  }

  lemma ReadKeepsBooks(c: Cache, id: Id, index: nat, canOpen: bool)
    requires Exclusion(c) && Books(c) && id in c.entries
    ensures Books(Read(c, id, index, canOpen).0)
  {
    var c' := Read(c, id, index, canOpen).0;
    if c' != c {
      forall other, i: nat ensures c.WriterOpen(other, i) == c'.WriterOpen(other, i) {
        WriterSnoc(c.open, Stream(id, index, false), Stream(other, i, true));
      }
      FileSumSame(c, c', id, c.entries[id].streams);
      forall f | f in c'.files ensures Tidy(c', f) {
        assert Tidy(c, f);
      }
      forall k | 0 <= k < |c.open| ensures c.open[k].writing ==> c.open[k] != Stream(id, index, false) {
      }
      BooksUpdated(c, c', id);
    }
  }

  lemma WriterSnoc(open: seq<Stream>, s: Stream, wanted: Stream)
    ensures (exists k :: 0 <= k < |open + [s]| && (open + [s])[k] == wanted)
      <==> s == wanted || exists k :: 0 <= k < |open| && open[k] == wanted
  {
    assert (open + [s])[|open|] == s;
    forall k | 0 <= k < |open| ensures (open + [s])[k] == open[k] {
    }
  }

  /** The assertion in `WriteResource`: the file that is about to be truncated is part of
      the size of its entry. */
  lemma PreviousSizeCounted(c: Cache, id: Id, index: nat)
    requires Exclusion(c) && Books(c) && id in c.entries && !c.WriterOpen(id, index)
    ensures c.FileSize(id, index) <= c.entries[id].size
  {
    if (id, index) in c.files {
      assert Tidy(c, (id, index));
      FileSumAtLeast(c, id, index, c.entries[id].streams);
    }
  }

  lemma {:induction false} FileSumAtLeast(c: Cache, id: Id, index: nat, streams: nat)
    requires index < streams
    ensures Counted(c, id, index) <= FileSum(c, id, streams)
  {
    if index < streams - 1 {
      FileSumAtLeast(c, id, index, streams - 1);
    }
  }

  lemma WrittenSize(c: Cache, c': Cache, id: Id, index: nat)
    requires Exclusion(c) && Books(c) && id in c.entries && !c.WriterOpen(id, index)
    requires c' == Write(c, id, index, true).0 != c
    ensures forall other, i: nat :: (other, i) != (id, index) ==> Counted(c, other, i) == Counted(c', other, i)
    ensures c'.entries[id].size == FileSum(c', id, c'.entries[id].streams)
  {
    var streams, streams' := c.entries[id].streams, c'.entries[id].streams;
    PreviousSizeCounted(c, id, index);
    forall other, i: nat ensures c'.WriterOpen(other, i) == (c.WriterOpen(other, i) || (other, i) == (id, index)) {
      WriterSnoc(c.open, Stream(id, index, true), Stream(other, i, true));
    }
    forall i: nat | streams <= i ensures Counted(c, id, i) == 0 {
      assert !Tidy(c, (id, i));
    }
    FileSumBeyond(c, id, streams, streams');
    FileSumDiffers(c, c', id, index, streams');
  }

  lemma WriteKeepsBooks(c: Cache, id: Id, index: nat, canOpen: bool)
    requires Exclusion(c) && Books(c) && id in c.entries && !c.WriterOpen(id, index)
    ensures Books(Write(c, id, index, canOpen).0)
  {
    var c' := Write(c, id, index, canOpen).0;
    if c' != c {
      WrittenSize(c, c', id, index);
      PreviousSizeCounted(c, id, index);
      SumWithout(c.entries, id, Sizes);
      forall f | f in c'.files ensures Tidy(c', f) {
        assert f == (id, index) || Tidy(c, f);
      }
      BooksUpdated(c, c', id);
    }
  }

  lemma ReleaseKeepsBooks(pick: Choice, c: Cache, k: nat)
    requires Exclusion(c) && Books(c) && k < |c.open|
    ensures Books(Release(pick, c, k))
  {
    ReleasedKeepsExclusion(c, k);
    ReleasedKeepsBooks(c, k);
    CheckLimitKeepsBooks(pick, Released(c, k));
  }

  lemma ReleasedKeepsBooks(c: Cache, k: nat)
    requires Exclusion(c) && Books(c) && k < |c.open|
    requires StreamHeld(c, c.open[k]) && c.entries[c.open[k].id].accessors > 0
    ensures Books(Released(c, k))
  {
    var c' := Released(c, k);
    var id, index := c.open[k].id, c.open[k].index;
    var streams := c.entries[id].streams;
    SumWithout(c.entries, id, Accessors);
    forall other, i: nat
      ensures c'.WriterOpen(other, i) == (c.WriterOpen(other, i) && c.open[k] != Stream(other, i, true))
    {
      WriterWithout(c.open, k, Stream(other, i, true));
    }
    if c.open[k].writing {
      FileSumDiffers(c, c', id, index, streams);
    } else {
      FileSumSame(c, c', id, streams);
    }
    forall f | f in c'.files ensures Tidy(c', f) {
      assert Tidy(c, f);
    }
    BooksUpdated(c, c', id);
  }

  lemma WriterWithout(open: seq<Stream>, k: nat, wanted: Stream)
    requires OneWriter(open) && k < |open| && wanted.writing
    ensures (exists j :: 0 <= j < |Without(open, k)| && Without(open, k)[j] == wanted)
      <==> open[k] != wanted && exists j :: 0 <= j < |open| && open[j] == wanted
  {
    forall j | 0 <= j < |open| && j != k ensures open[j] == Without(open, k)[if j < k then j else j - 1] {
    }
    forall j | 0 <= j < |Without(open, k)| ensures Without(open, k)[j] == open[if j < k then j else j + 1] {
    }
  }

  lemma FillKeepsBooks(c: Cache, k: nat, size: nat)
    requires Exclusion(c) && Books(c) && k < |c.open| && c.open[k].writing
    ensures Exclusion(Fill(c, k, size)) && Books(Fill(c, k, size))
  {
    var c' := Fill(c, k, size);
    var id := c.open[k].id;
    assert StreamHeld(c, c.open[k]);
    assert c'.open[k] == Stream(id, c.open[k].index, true);
    forall j | 0 <= j < |c'.open| ensures StreamHeld(c', c'.open[j]) {
      assert StreamHeld(c, c.open[j]);
    }
    forall f | f in c'.files ensures Tidy(c', f) {
      assert f == (id, c.open[k].index) || Tidy(c, f);
    }
    FileSumSame(c, c', id, c.entries[id].streams);
    assert c'.entries == c.entries[id := c'.entries[id]];
    BooksUpdated(c, c', id);
  }

  // ---------- Totals, operation by operation ----------

  /** What is left to show when an operation has replaced one entry, or added it. */
  lemma TotalsUpdated(c: Cache, c': Cache, id: Id, e: Entry)
    requires Totals(c) && c'.entries == c.entries[id := e]
    requires var was := if id in c.entries then c.entries[id] else NEW_ENTRY;
      && c'.totalSize + was.size == c.totalSize + e.size
      && c'.totalAccessors + was.accessors == c.totalAccessors + e.accessors
    ensures Totals(c')
  {
    forall column ensures Sum(c.entries, column)
      == Sum(c.entries - {id}, column) + if id in c.entries then Weight(c.entries[id], column) else 0
    {
      if id in c.entries {
        SumWithout(c.entries, id, column);
      } else {
        assert c.entries - {id} == c.entries;
      }
    }
    SumUpdated(c.entries, id, e, Sizes);
    SumUpdated(c.entries, id, e, Accessors);
  }

  lemma DeleteKeepsTotals(c: Cache, id: Id)
    requires Totals(c)
    ensures Totals(Delete(c, id).0)
  {
    if id in c.entries && c.entries[id].Idle() {
      SumWithout(c.entries, id, Sizes);
      SumWithout(c.entries, id, Accessors);
    }
  }

  lemma {:induction false} CheckLimitKeepsTotals(pick: Choice, c: Cache)
    requires Totals(c)
    ensures Totals(CheckLimit(pick, c).0)
    decreases |c.entries|
  {
    if c.totalSize > c.maxCache && c.SomeIdle() {
      var victim := pick(c);
      DeleteKeepsTotals(c, victim);
      if Delete(c, victim).1 {
        RemovalShrinks(c.entries, victim);
        CheckLimitKeepsTotals(pick, Delete(c, victim).0);
      }
    }
  }

  lemma LockKeepsTotals(pick: Choice, c: Cache, id: Id)
    requires Totals(c)
    ensures Totals(Lock(pick, c, id).0)
  {
    var c0 := GetOrCreate(c, id);
    if id !in c.entries {
      TotalsUpdated(c, c0, id, NEW_ENTRY);
    }
    var c1 := if c0.totalSize > c0.maxCache then CheckLimit(pick, c0).0 else c0;
    CheckLimitKeepsTotals(pick, c0);
    if Lock(pick, c, id).1 == Granted {
      TotalsUpdated(c1, Lock(pick, c, id).0, id, c1.entries[id].(lockState := Locked));
    }
    hide Totals, CheckLimit;
  }

  lemma UnlockKeepsTotals(pick: Choice, c: Cache, id: Id)
    requires Totals(c) && id in c.entries
    ensures Totals(Unlock(pick, c, id).0)
  {
    if c.entries[id].lockState == Locked {
      var e := c.entries[id].(lockState := if c.entries[id].accessors > 0 then Unlocking else Unlocked);
      var c' := c.(entries := c.entries[id := e]);
      TotalsUpdated(c, c', id, e);
      CheckLimitKeepsTotals(pick, c');
    }
    hide Totals, CheckLimit;
  }

  lemma WriteKeepsTotals(c: Cache, id: Id, index: nat, canOpen: bool)
    requires Totals(c) && id in c.entries
    ensures Totals(Write(c, id, index, canOpen).0)
  {
    var c' := Write(c, id, index, canOpen).0;
    if c' != c {
      SumWithout(c.entries, id, Sizes);
      TotalsUpdated(c, c', id, c'.entries[id]);
    }
  }

  lemma ReadKeepsTotals(c: Cache, id: Id, index: nat, canOpen: bool)
    requires Totals(c) && id in c.entries
    ensures Totals(Read(c, id, index, canOpen).0)
  {
    var c' := Read(c, id, index, canOpen).0;
    if c' != c {
      TotalsUpdated(c, c', id, c'.entries[id]);
    }
  }

  lemma ReleasedKeepsTotals(c: Cache, k: nat)
    requires Totals(c) && k < |c.open| && c.open[k].id in c.entries && c.entries[c.open[k].id].accessors > 0
    ensures Totals(Released(c, k))
  {
    var c', id := Released(c, k), c.open[k].id;
    SumWithout(c.entries, id, Accessors);
    TotalsUpdated(c, c', id, c'.entries[id]);
  }

  lemma ReleaseKeepsTotals(pick: Choice, c: Cache, k: nat)
    requires Exclusion(c) && Totals(c) && k < |c.open|
    ensures Totals(Release(pick, c, k))
  {
    ReleasedKeepsExclusion(c, k);
    ReleasedKeepsTotals(c, k);
    CheckLimitKeepsTotals(pick, Released(c, k));
    hide Exclusion, CheckLimit, Totals;
  }

  /** None of the subtractions in the code wraps around: what is taken from a total or from
      an entry is part of it, whatever else is the matter with the books. */
  lemma NoUnderflow(c: Cache, id: Id, index: nat, k: nat)
    requires Exclusion(c) && Totals(c)
    ensures id in c.entries ==> Min(c.FileSize(id, index), c.entries[id].size) <= c.entries[id].size <= c.totalSize
    ensures k < |c.open| ==>
      c.open[k].id in c.entries && 1 <= c.entries[c.open[k].id].accessors <= c.totalAccessors
  {
    if id in c.entries {
      SumWithout(c.entries, id, Sizes);
    }
    if k < |c.open| {
      ReleasedKeepsExclusion(c, k);
      SumWithout(c.entries, c.open[k].id, Accessors);
    }
  }

  /** The assertion in the destructor, that no accessor is left, holds exactly when no
      stream is open: the total counts the open streams. */
  lemma AccessorsAreStreams(c: Cache)
    requires Exclusion(c) && Totals(c)
    ensures c.totalAccessors == |c.open|
  {
    forall k | 0 <= k < |c.open| ensures c.open[k].id in c.entries {
      assert StreamHeld(c, c.open[k]);
    }
    SumOfCounts(c.entries, c.open);
  }

  lemma {:induction false} SumOfCounts(m: map<Id, Entry>, open: seq<Stream>)
    requires forall id :: id in m ==> m[id].accessors == Count(open, id)
    requires forall k :: 0 <= k < |open| ==> open[k].id in m
    ensures Sum(m, Accessors) == |open|
    decreases |open|
  {
    if open == [] {
      SumOfZeros(m);
    } else {
      var id := open[0].id;
      var e := m[id].(accessors := m[id].accessors - 1);
      SumOfCounts(m[id := e], open[1..]);
      SumUpdated(m, id, e, Accessors);
      SumWithout(m, id, Accessors);
    }
  }

  lemma {:induction false} SumOfZeros(m: map<Id, Entry>)
    requires forall id :: id in m ==> m[id].accessors == 0
    ensures Sum(m, Accessors) == 0
    decreases |m|
  {
    if m != map[] {
      RemovalShrinks(m, AnyKey(m));
      SumOfZeros(m - {AnyKey(m)});
    }
  }

  // ---------- Runs ----------

  datatype Op =
    | LockResource(id: Id)
    | WriteResource(id: Id, index: nat, canOpen: bool)
    | UnlockResource(id: Id)
    | ReadResource(id: Id, index: nat, canOpen: bool)
    | DeleteResource(id: Id)
    | ReleaseResource(k: nat)
    | FillFile(k: nat, size: nat)

  /** What the code demands of its callers: no operation but locking and deleting on a
      resource that is not there; and a lock only where it is not left dangling. */
  ghost predicate Legal(pick: Choice, c: Cache, op: Op) {
    match op
    case LockResource(id) => Lock(pick, c, id).1 != Dangling
    case WriteResource(id, index, canOpen) => id in c.entries
    case UnlockResource(id) => id in c.entries
    case ReadResource(id, index, canOpen) => id in c.entries
    case DeleteResource(id) => true
    case ReleaseResource(k) => k < |c.open|
    case FillFile(k, size) => k < |c.open| && c.open[k].writing
  }

  ghost predicate SecondWriter(c: Cache, op: Op) {
    op.WriteResource? && c.WriterOpen(op.id, op.index)
  }

  ghost function Perform(pick: Choice, c: Cache, op: Op): Cache
    requires Legal(pick, c, op)
  {
    match op
    case LockResource(id) => Lock(pick, c, id).0
    case WriteResource(id, index, canOpen) => Write(c, id, index, canOpen).0
    case UnlockResource(id) => Unlock(pick, c, id).0
    case ReadResource(id, index, canOpen) => Read(c, id, index, canOpen).0
    case DeleteResource(id) => Delete(c, id).0
    case ReleaseResource(k) => Release(pick, c, k)
    case FillFile(k, size) => Fill(c, k, size)
  }

  lemma PerformKeepsExclusion(pick: Choice, c: Cache, op: Op)
    requires Exclusion(c) && Legal(pick, c, op)
    ensures Exclusion(Perform(pick, c, op))
  {
    match op
    case LockResource(id) => LockKeepsExclusion(pick, c, id);
    case WriteResource(id, index, canOpen) => WriteKeepsExclusion(c, id, index, canOpen);
    case UnlockResource(id) => UnlockKeepsExclusion(pick, c, id);
    case ReadResource(id, index, canOpen) => ReadKeepsExclusion(c, id, index, canOpen);
    case DeleteResource(id) =>
      EvictionKeepsExclusion(c, Delete(c, id).0);
    case ReleaseResource(k) => ReleaseKeepsExclusion(pick, c, k);
    case FillFile(k, size) =>
      var c' := Fill(c, k, size);
      forall j | 0 <= j < |c'.open| ensures StreamHeld(c', c'.open[j]) {
        assert StreamHeld(c, c.open[j]);
      }
  }

  lemma PerformKeepsTotals(pick: Choice, c: Cache, op: Op)
    requires Exclusion(c) && Totals(c) && Legal(pick, c, op)
    ensures Totals(Perform(pick, c, op))
  {
    match op
    case LockResource(id) => LockKeepsTotals(pick, c, id);
    case WriteResource(id, index, canOpen) => WriteKeepsTotals(c, id, index, canOpen);
    case UnlockResource(id) => UnlockKeepsTotals(pick, c, id);
    case ReadResource(id, index, canOpen) => ReadKeepsTotals(c, id, index, canOpen);
    case DeleteResource(id) => DeleteKeepsTotals(c, id);
    case ReleaseResource(k) => ReleaseKeepsTotals(pick, c, k);
    case FillFile(k, size) =>
  }

  lemma PerformKeepsBooks(pick: Choice, c: Cache, op: Op)
    requires Exclusion(c) && Books(c) && Legal(pick, c, op) && !SecondWriter(c, op)
    ensures Books(Perform(pick, c, op))
  {
    match op
    case LockResource(id) => LockKeepsBooks(pick, c, id);
    case WriteResource(id, index, canOpen) => WriteKeepsBooks(c, id, index, canOpen);
    case UnlockResource(id) => UnlockKeepsBooks(pick, c, id);
    case ReadResource(id, index, canOpen) => ReadKeepsBooks(c, id, index, canOpen);
    case DeleteResource(id) => DeleteKeepsBooks(c, id);
    case ReleaseResource(k) => ReleaseKeepsBooks(pick, c, k);
    case FillFile(k, size) => FillKeepsBooks(c, k, size);
  }

  ghost predicate LegalRun(c: Cache, steps: seq<(Op, Choice)>)
    decreases |steps|
  {
    steps == [] || (Legal(steps[0].1, c, steps[0].0) && LegalRun(Perform(steps[0].1, c, steps[0].0), steps[1..]))
  }

  ghost function RunOf(c: Cache, steps: seq<(Op, Choice)>): Cache
    requires LegalRun(c, steps)
    decreases |steps|
  {
    if steps == [] then c else RunOf(Perform(steps[0].1, c, steps[0].0), steps[1..])
  }

  ghost predicate NoSecondWriter(c: Cache, steps: seq<(Op, Choice)>)
    requires LegalRun(c, steps)
    decreases |steps|
  {
    steps == []
    || (!SecondWriter(c, steps[0].0) && NoSecondWriter(Perform(steps[0].1, c, steps[0].0), steps[1..]))
  }

  /** Readers and writers exclude each other in every state that a run can reach,
      whatever files cannot be deleted and however many writers share one. */
  lemma {:induction false} EveryRunExcludes(c: Cache, steps: seq<(Op, Choice)>)
    requires Exclusion(c) && LegalRun(c, steps)
    ensures Exclusion(RunOf(c, steps))
    decreases |steps|
  {
    if steps != [] {
      PerformKeepsExclusion(steps[0].1, c, steps[0].0);
      EveryRunExcludes(Perform(steps[0].1, c, steps[0].0), steps[1..]);
    }
  }

  /** The assertions of the code on its totals hold in every state that a run can reach,
      whatever files cannot be deleted and however many writers share one. */
  lemma {:induction false} EveryRunTotals(c: Cache, steps: seq<(Op, Choice)>)
    requires Exclusion(c) && Totals(c) && LegalRun(c, steps)
    ensures Totals(RunOf(c, steps)) && RunOf(c, steps).totalAccessors == |RunOf(c, steps).open|
    decreases |steps|
  {
    hide Exclusion, Totals, Legal, Perform;
    if steps == [] {
      AccessorsAreStreams(c);
    } else {
      PerformKeepsExclusion(steps[0].1, c, steps[0].0);
      PerformKeepsTotals(steps[0].1, c, steps[0].0);
      EveryRunTotals(Perform(steps[0].1, c, steps[0].0), steps[1..]);
    }
  }

  /** The books agree with the disk in every state that a run without a second writer
      can reach. */
  lemma {:induction false} EveryRunBalances(c: Cache, steps: seq<(Op, Choice)>)
    requires Exclusion(c) && Books(c) && LegalRun(c, steps) && NoSecondWriter(c, steps)
    ensures Books(RunOf(c, steps))
    decreases |steps|
  {
    if steps != [] {
      PerformKeepsExclusion(steps[0].1, c, steps[0].0);
      PerformKeepsBooks(steps[0].1, c, steps[0].0);
      EveryRunBalances(Perform(steps[0].1, c, steps[0].0), steps[1..]);
    }
  }
}
