/** What every operation of the disk cache keeps: readers and writers exclude each other,
    and the books agree with the files on disk. */
module DiskCacheInvariants {
  import opened DiskCacheSpec

  // ---------- Who has a resource open ----------

  /** How many of the open streams are streams of `id`. */
  function Count(open: seq<Stream>, id: Id): nat {
    if open == [] then 0
    else (if open[0].id == id then 1 else 0) + Count(open[1..], id)
  }

  ghost predicate StreamHeld(c: Cache, s: Stream) {
    && s.id in c.entries
    && s.index < c.entries[s.id].streams
    && s.writing == (c.entries[s.id].lockState != Unlocked)
  }

  /** Readers and writers keep out of each other's way: an open stream keeps its entry
      in the cache; an unlocked entry has only readers, any other only writers; and an
      entry waits in `Unlocking` only for streams that are still open. */
  ghost predicate Exclusion(c: Cache) {
    && (forall k :: 0 <= k < |c.open| ==> StreamHeld(c, c.open[k]))
    && (forall id :: id in c.entries ==> c.entries[id].accessors == Count(c.open, id))
    && (forall id :: id in c.entries && c.entries[id].lockState == Unlocking ==> c.entries[id].accessors > 0)
  }

  lemma {:induction false} CountConcat(a: seq<Stream>, b: seq<Stream>, id: Id)
    ensures Count(a + b, id) == Count(a, id) + Count(b, id)
  {
    if a == [] {
      assert a + b == b;
    } else {
      CountConcat(a[1..], b, id);
      assert (a + b)[1..] == a[1..] + b;
    }
  }

  lemma CountSnoc(open: seq<Stream>, s: Stream, id: Id)
    ensures Count(open + [s], id) == Count(open, id) + (if s.id == id then 1 else 0)
  {
    CountConcat(open, [s], id);
  }

  lemma CountWithout(open: seq<Stream>, k: nat, id: Id)
    requires k < |open|
    ensures Count(open, id) == Count(Without(open, k), id) + (if open[k].id == id then 1 else 0)
  {
    CountConcat(open[..k], open[k + 1..], id);
    CountConcat(open[..k], open[k..], id);
    assert open == open[..k] + open[k..];
    assert open[k..][1..] == open[k + 1..];
  }

  lemma CountPositive(open: seq<Stream>, k: nat)
    requires k < |open|
    ensures Count(open, open[k].id) > 0
  {
    CountWithout(open, k, open[k].id);
  }

  // ---------- Eviction ----------

  /** Nothing but idle entries, and the files of idle entries, went. */
  ghost predicate OnlyIdleGone(c: Cache, c': Cache) {
    && c'.open == c.open && c'.maxCache == c.maxCache && c'.stuck == c.stuck
    && c'.totalAccessors == c.totalAccessors
    && (forall id :: id in c'.entries ==> id in c.entries && c'.entries[id] == c.entries[id])
    && (forall id :: id in c.entries && !c.entries[id].Idle() ==> id in c'.entries)
    && (forall f :: f in c'.files ==> f in c.files)
    && (forall f :: f in c.files && f.0 in c'.entries ==> f in c'.files && c'.files[f] == c.files[f])
  }

  /** Whichever entries `CheckLimit` tries, only idle ones go; and when it says it
      succeeded, the total is within the limit. */
  lemma {:induction false} CheckLimitEvictsIdle(pick: Choice, c: Cache)
    ensures var (c', ok) := CheckLimit(pick, c);
      OnlyIdleGone(c, c') && (ok ==> c'.totalSize <= c'.maxCache)
    decreases |c.entries|
  {
    if c.totalSize > c.maxCache && c.SomeIdle() {
      var victim := pick(c);
      if Delete(c, victim).1 {
        RemovalShrinks(c.entries, victim);
        CheckLimitEvictsIdle(pick, Delete(c, victim).0);
      }
    }
  }

  lemma EvictionKeepsExclusion(c: Cache, c': Cache)
    requires Exclusion(c) && OnlyIdleGone(c, c')
    ensures Exclusion(c')
  {
    forall k | 0 <= k < |c'.open| ensures StreamHeld(c', c'.open[k]) {
      assert StreamHeld(c, c.open[k]);
      CountPositive(c.open, k);
    }
  }

  // ---------- The books ----------

  datatype Column = Sizes | Accessors | BusySizes

  function Weight(e: Entry, column: Column): nat {
    match column
    case Sizes => e.size
    case Accessors => e.accessors
    case BusySizes => if e.Idle() then 0 else e.size
  }

  ghost function Sum(m: map<Id, Entry>, column: Column): nat
    decreases |m|
  {
    if m == map[] then 0 else
      var k := AnyKey(m);
      RemovalShrinks(m, k);
      Weight(m[k], column) + Sum(m - {k}, column)
  }

  ghost function AnyKey(m: map<Id, Entry>): (k: Id)
    requires m != map[]
    ensures k in m
  {
    assert exists k :: k in m by {
      assert m.Keys != {};
    }
    var k :| k in m; k
  }

  lemma {:induction false} SumWithout(m: map<Id, Entry>, k: Id, column: Column)
    requires k in m
    ensures Sum(m, column) == Weight(m[k], column) + Sum(m - {k}, column)
    decreases |m|
  {
    var first := AnyKey(m);
    if k != first {
      RemovalShrinks(m, first);
      RemovalShrinks(m, k);
      SumWithout(m - {first}, k, column);
      SumWithout(m - {k}, first, column);
      assert m - {first} - {k} == m - {k} - {first};
    }
  }

  lemma SumUpdated(m: map<Id, Entry>, k: Id, e: Entry, column: Column)
    ensures Sum(m[k := e], column) == Weight(e, column) + Sum(m - {k}, column)
  {
    SumWithout(m[k := e], k, column);
    assert m[k := e] - {k} == m - {k};
  }

  lemma SumNew(m: map<Id, Entry>, k: Id, column: Column)
    requires k !in m
    ensures Sum(m[k := NEW_ENTRY], column) == Sum(m, column)
  {
    SumUpdated(m, k, NEW_ENTRY, column);
    assert m - {k} == m;
  }

  /** What the file of a stream adds to the size of its entry: nothing while it is being written. */
  ghost function Counted(c: Cache, id: Id, index: nat): nat {
    if c.WriterOpen(id, index) then 0 else c.FileSize(id, index)
  }

  ghost function FileSum(c: Cache, id: Id, streams: nat): nat {
    if streams == 0 then 0 else FileSum(c, id, streams - 1) + Counted(c, id, streams - 1)
  }

  lemma {:induction false} FileSumSame(c: Cache, c': Cache, id: Id, streams: nat)
    requires forall i :: 0 <= i < streams ==> Counted(c, id, i) == Counted(c', id, i)
    ensures FileSum(c, id, streams) == FileSum(c', id, streams)
  {
    if streams > 0 {
      FileSumSame(c, c', id, streams - 1);
    }
  }

  lemma {:induction false} FileSumBeyond(c: Cache, id: Id, streams: nat, streams': nat)
    requires streams <= streams'
    requires forall i: nat :: streams <= i ==> Counted(c, id, i) == 0
    ensures FileSum(c, id, streams) == FileSum(c, id, streams')
    decreases streams'
  {
    if streams < streams' {
      FileSumBeyond(c, id, streams, streams' - 1);
    }
  }

  /** Sums that differ in one stream only. */
  lemma {:induction false} FileSumDiffers(c: Cache, c': Cache, id: Id, index: nat, streams: nat)
    requires forall i: nat :: i < streams && i != index ==> Counted(c, id, i) == Counted(c', id, i)
    requires index < streams
    ensures FileSum(c', id, streams) + Counted(c, id, index) == FileSum(c, id, streams) + Counted(c', id, index)
  {
    if streams == index + 1 {
      FileSumSame(c, c', id, index);
    } else {
      FileSumDiffers(c, c', id, index, streams - 1);
    }
  }

  ghost predicate OneWriter(open: seq<Stream>) {
    forall j, k :: 0 <= j < k < |open| && open[j].writing ==> open[j] != open[k]
  }

  ghost predicate Tidy(c: Cache, f: File) {
    f.0 in c.entries && f.1 < c.entries[f.0].streams
  }

  /** The totals are the sums over the entries. */
  ghost predicate Totals(c: Cache) {
    c.totalSize == Sum(c.entries, Sizes) && c.totalAccessors == Sum(c.entries, Accessors)
  }

  /** The books are right when no file has two writers and all files can be deleted:
      every file belongs to a stream of an entry, an entry's size is what its files
      come to, and the totals are the sums over the entries. */
  ghost predicate Books(c: Cache) {
    && c.stuck == {} && OneWriter(c.open)
    && (forall f :: f in c.files ==> Tidy(c, f))
    && (forall id :: id in c.entries ==> c.entries[id].size == FileSum(c, id, c.entries[id].streams))
    && Totals(c)
  }

  /** Readers and writers still exclude each other, and the totals and the books are still
      right. */
  ghost predicate Kept(c: Cache, c': Cache) {
    && (Exclusion(c) ==> Exclusion(c'))
    && (Exclusion(c) && Totals(c) ==> Totals(c'))
    && (Exclusion(c) && Books(c) ==> Books(c'))
  }

  /** What is left to show when an operation has replaced one entry. */
  lemma BooksUpdated(c: Cache, c': Cache, id: Id)
    requires Books(c) && id in c.entries && id in c'.entries
    requires c'.entries == c.entries[id := c'.entries[id]]
    requires c'.stuck == {} && OneWriter(c'.open)
    requires forall f :: f in c'.files ==> Tidy(c', f)
    requires forall other, i: nat :: other in c.entries && other != id ==> Counted(c, other, i) == Counted(c', other, i)
    requires c'.entries[id].size == FileSum(c', id, c'.entries[id].streams)
    requires c'.totalSize + c.entries[id].size == c.totalSize + c'.entries[id].size
    requires c'.totalAccessors + c.entries[id].accessors == c.totalAccessors + c'.entries[id].accessors
    ensures Books(c')
  {
    SumWithout(c.entries, id, Sizes);
    SumWithout(c.entries, id, Accessors);
    SumUpdated(c.entries, id, c'.entries[id], Sizes);
    SumUpdated(c.entries, id, c'.entries[id], Accessors);
    forall other | other in c'.entries
      ensures c'.entries[other].size == FileSum(c', other, c'.entries[other].streams)
    {
      if other != id {
        FileSumSame(c, c', other, c.entries[other].streams);
      }
    }
  }

  lemma DeleteKeepsBooks(c: Cache, id: Id)
    requires Exclusion(c) && Books(c)
    ensures Books(Delete(c, id).0)
    ensures Delete(c, id).1 <==> id !in c.entries || c.entries[id].Idle()
  {
    var c' := Delete(c, id).0;
    if id in c.entries && c.entries[id].Idle() {
      SumWithout(c.entries, id, Sizes);
      SumWithout(c.entries, id, Accessors);
      forall f | f in c'.files ensures Tidy(c', f) {
        assert Tidy(c, f);
      }
      forall other | other in c'.entries
        ensures c'.entries[other].size == FileSum(c', other, c'.entries[other].streams)
      {
        FileSumSame(c, c', other, c.entries[other].streams);
      }
    }
  }

  lemma {:induction false} CheckLimitKeepsBooks(pick: Choice, c: Cache)
    requires Exclusion(c) && Books(c)
    ensures Books(CheckLimit(pick, c).0) && Exclusion(CheckLimit(pick, c).0)
    decreases |c.entries|
  {
    CheckLimitEvictsIdle(pick, c);
    EvictionKeepsExclusion(c, CheckLimit(pick, c).0);
    if c.totalSize > c.maxCache && c.SomeIdle() {
      var victim := pick(c);
      DeleteKeepsBooks(c, victim);
      if Delete(c, victim).1 {
        RemovalShrinks(c.entries, victim);
        EvictionKeepsExclusion(c, Delete(c, victim).0);
        CheckLimitKeepsBooks(pick, Delete(c, victim).0);
      }
    }
  }
}
