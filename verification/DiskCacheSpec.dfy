/** The disk cache as a state machine: entries with a three-state lock, the files they
    stand for, and the streams that are open on them. */
module DiskCacheSpec {
  import opened Sizes

  type Id = string
  type File = (Id, nat)

  datatype LockState = Unlocked | Locked | Unlocking

  datatype Entry = Entry(lockState: LockState, accessors: nat, size: nat, streams: nat) {
    predicate Idle() {
      lockState == Unlocked && accessors == 0
    }
  }

  const NEW_ENTRY := Entry(Unlocked, 0, 0, 0)

  /** An open stream, a `DiskCacheAdapter`. */
  datatype Stream = Stream(id: Id, index: nat, writing: bool)

  /** The fields of the cache; and around it the sizes of the files on disk, those
      that cannot be deleted, and the streams that are open. */
  datatype Cache = Cache(
    maxCache: nat,
    totalSize: nat,
    totalAccessors: nat,
    entries: map<Id, Entry>,
    files: map<File, nat>,
    stuck: set<File>,
    open: seq<Stream>)
  {
    function FileSize(id: Id, index: nat): nat {
      if (id, index) in files then files[(id, index)] else 0
    }

    predicate SomeIdle() {
      exists id :: id in entries && entries[id].Idle()
    }

    predicate WriterOpen(id: Id, index: nat) {
      exists k :: 0 <= k < |open| && open[k] == Stream(id, index, true)
    }
  }

  /** Subtraction as `size_t` does it. */
  function Minus(a: nat, b: nat): nat {
    if b <= a then a - b else (a + SIZE_LIMIT - b % SIZE_LIMIT) % SIZE_LIMIT
  }

  // ---------- The operations ----------

  predicate AllDeletable(c: Cache, id: Id)
    requires id in c.entries
  {
    forall i :: 0 <= i < c.entries[id].streams && (id, i) in c.files ==> (id, i) !in c.stuck
  }

  function FilesOf(c: Cache, id: Id): set<File>
    requires id in c.entries
  {
    set f | f in c.files && f.0 == id && f.1 < c.entries[id].streams
  }

  /** `DeleteResource`: the entry goes even when one of its files cannot be deleted. */
  function Delete(c: Cache, id: Id): (r: (Cache, bool)) {
    if id !in c.entries then (c, true)
    else if !c.entries[id].Idle() then (c, false)
    else
      (c.(files := c.files - (FilesOf(c, id) - c.stuck),
          totalSize := Minus(c.totalSize, c.entries[id].size),
          entries := c.entries - {id}),
       AllDeletable(c, id))
  }

  /** Which entry `CheckLimit` tries to evict depends on the times of use, and does not
      matter for what is kept: any choice of an entry will do. */
  type Choice = c: Cache -> Id | forall s: Cache :: s.entries != map[] ==> c(s) in s.entries
    ghost witness AnyEntry

  ghost function AnyEntry(s: Cache): (id: Id)
    ensures s.entries != map[] ==> id in s.entries
  {
    if s.entries == map[] then "" else
      assert exists id :: id in s.entries by {
        assert s.entries.Keys != {};
      }
      var id :| id in s.entries; id
  }

  /** `CheckLimit`: evict until the total fits, or nothing more can be evicted. */
  function CheckLimit(pick: Choice, c: Cache): (r: (Cache, bool))
    decreases |c.entries|
  {
    if c.totalSize <= c.maxCache then (c, true)
    else if !c.SomeIdle() then (c, false)
    else
      var victim := pick(c);
      var (c', ok) := Delete(c, victim);
      if !ok then (c', false)
      else
        assert |c'.entries| < |c.entries| by { RemovalShrinks(c.entries, victim); }
        CheckLimit(pick, c')
  }

  lemma RemovalShrinks(m: map<Id, Entry>, k: Id)
    requires k in m
    ensures |m - {k}| < |m|
  {
    assert (m - {k}).Keys == m.Keys - {k};
    assert |m| == |m.Keys| && |m - {k}| == |(m - {k}).Keys|;
  }

  /** `GetOrCreateEntry`, told to create. */
  function GetOrCreate(c: Cache, id: Id): (c': Cache)
    ensures id in c'.entries
  {
    if id in c.entries then c else c.(entries := c.entries[id := NEW_ENTRY])
  }

  /** What `LockResource` does with the entry it found at the start, once it has called
      `CheckLimit`: `Dangling` is the case in which that entry has been erased. */
  datatype Grant = Granted | Refused | Dangling

  function Lock(pick: Choice, c: Cache, id: Id): (r: (Cache, Grant)) {
    var c0 := GetOrCreate(c, id);
    var entry := c0.entries[id];
    if entry.lockState == Locked || (entry.lockState == Unlocked && entry.accessors > 0) then (c0, Refused)
    else
      var (c1, ok) := if c0.totalSize > c0.maxCache then CheckLimit(pick, c0) else (c0, true);
      if !ok then (c1, Refused)
      else if id !in c1.entries then (c1, Dangling)
      else (c1.(entries := c1.entries[id := c1.entries[id].(lockState := Locked)]), Granted)
  }

  /** `WriteResource`, on an entry that exists; `canOpen` is whether the file opens. */
  function Write(c: Cache, id: Id, index: nat, canOpen: bool): (r: (Cache, bool))
    requires id in c.entries
  {
    var entry := c.entries[id];
    if entry.lockState != Locked || !canOpen then (c, false)
    else
      var previous := Min(c.FileSize(id, index), entry.size);
      var entry' := entry.(streams := Max(entry.streams, index + 1),
                           size := entry.size - previous,
                           accessors := entry.accessors + 1);
      (c.(entries := c.entries[id := entry'],
          files := c.files[(id, index) := 0],
          totalSize := Minus(c.totalSize, previous),
          totalAccessors := c.totalAccessors + 1,
          open := c.open + [Stream(id, index, true)]),
       true)
  }

  function Unlock(pick: Choice, c: Cache, id: Id): (r: (Cache, bool))
    requires id in c.entries
  {
    var entry := c.entries[id];
    if entry.lockState != Locked then (c, false)
    else if entry.accessors > 0 then
      (c.(entries := c.entries[id := entry.(lockState := Unlocking)]), true)
    else
      (CheckLimit(pick, c.(entries := c.entries[id := entry.(lockState := Unlocked)])).0, true)
  }

  function Read(c: Cache, id: Id, index: nat, canOpen: bool): (r: (Cache, bool))
    requires id in c.entries
  {
    var entry := c.entries[id];
    if entry.lockState != Unlocked || index >= entry.streams || !canOpen then (c, false)
    else
      (c.(entries := c.entries[id := entry.(accessors := entry.accessors + 1)],
          totalAccessors := c.totalAccessors + 1,
          open := c.open + [Stream(id, index, false)]),
       true)
  }

  function Without(open: seq<Stream>, k: nat): seq<Stream>
    requires k < |open|
  {
    open[..k] + open[k + 1..]
  }

  /** `ReleaseResource` as far as the counters: only the file of a writer adds to the
      sizes, and the last writer to leave an entry that is unlocking unlocks it. */
  function Released(c: Cache, k: nat): (c': Cache)
    requires k < |c.open| && c.open[k].id in c.entries
  {
    var id := c.open[k].id;
    var e := c.entries[id];
    var newSize := if e.lockState == Unlocked then 0 else c.FileSize(id, c.open[k].index);
    var left := Minus(e.accessors, 1);
    var state := if e.lockState == Unlocking && left == 0 then Unlocked else e.lockState;
    c.(open := Without(c.open, k),
       totalAccessors := Minus(c.totalAccessors, 1),
       totalSize := c.totalSize + newSize,
       entries := c.entries[id := e.(accessors := left, size := e.size + newSize, lockState := state)])
  }

  /** `ReleaseResource`, which the destructor of the `k`-th open stream calls. */
  function Release(pick: Choice, c: Cache, k: nat): (c': Cache)
    requires k < |c.open|
  {
    var id := c.open[k].id;
    if id !in c.entries then c.(open := Without(c.open, k))
    else
      var c1 := Released(c, k);
      if c1.entries[id].lockState != c.entries[id].lockState then CheckLimit(pick, c1).0 else c1
  }

  /** The holder of the `k`-th stream, a writer, leaves its file at some size. */
  function Fill(c: Cache, k: nat, size: nat): (c': Cache)
    requires k < |c.open| && c.open[k].writing
  {
    c.(files := c.files[(c.open[k].id, c.open[k].index) := size])
  }
}
