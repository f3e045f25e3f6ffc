/** Smart pointers that find out whether they are the last of their kind from the
    circular list they form, instead of from a count. */
module LinkedPtr {
  predicate Distinct<H(==)>(s: seq<H>) {
    forall i, j :: 0 <= i < j < |s| ==> s[i] != s[j]
  }

  /** A ring has no first element: it may be listed from any of its elements on. */
  function Rotated<H>(s: seq<H>, k: nat): (t: seq<H>)
    requires k < |s|
    ensures |t| == |s| && t[0] == s[k]
  {
    s[k..] + s[..k]
  }

  lemma RotatedAt<H>(s: seq<H>, k: nat, i: nat)
    requires k < |s| && i < |s|
    ensures Rotated(s, k)[i] == s[if i + k < |s| then i + k else i + k - |s|]
  {
  }

  ghost predicate Linked(a: Handle, b: Handle)
    reads a, b
  {
    a.next == b && b.prev == a
  }

  /** These handles, in this order, are a circular doubly linked list, and all of them
      point to `p`. */
  ghost predicate Ring(s: seq<Handle>, p: nat)
    reads s
  {
    && |s| > 0 && Distinct(s)
    && (forall i :: 0 <= i < |s| ==> s[i].ptr == p)
    && (forall i :: 0 <= i < |s| - 1 ==> Linked(s[i], s[i + 1]))
    && Linked(s[|s| - 1], s[0])
  }

  lemma {:induction false} RingRotated(s: seq<Handle>, p: nat, k: nat)
    requires Ring(s, p) && k < |s|
    ensures Ring(Rotated(s, k), p)
  {
    var t, n := Rotated(s, k), |s|;
    forall i, j | 0 <= i < j < n ensures t[i] != t[j] {
      RotatedAt(s, k, i);
      RotatedAt(s, k, j);
    }
    forall i | 0 <= i < n ensures t[i].ptr == p {
      RotatedAt(s, k, i);
    }
    forall i | 0 <= i < n - 1 ensures Linked(t[i], t[i + 1]) {
      RotatedAt(s, k, i);
      RotatedAt(s, k, i + 1);
    }
    RotatedAt(s, k, n - 1);
  }

  /** A pointee is named by a number; zero is the null pointer. */
  class Handle {
    var ptr: nat
    var prev: Handle?
    var next: Handle?

    /** `explicit linked_ptr(X* p)`. */
    constructor (p: nat)
      ensures Ring([this], p)
    {
      ptr := p;
      prev, next := this, this;
    }

    ghost function Get(): Fields
      reads this
    {
      Fields(ptr, prev, next)
    }

    predicate Unique()
      reads this
    {
      prev == null || prev == this
    }

    /** Joins the ring of `r`, right after it. */
    method Acquire(r: Handle, ghost ring: seq<Handle>)
      requires Ring(ring, r.ptr) && ring[|ring| - 1] == r && this !in ring
      modifies this, ring
      ensures Ring(ring + [this], old(r.ptr))
    {
      ptr := r.ptr;
      next := r.next;
      next.prev := this;
      prev := r;
      r.next := this;
      ghost var n, t := |ring|, ring + [this];
      assert forall i :: 0 <= i < n - 1 ==> Linked(t[i], t[i + 1]);
    }

    /** Leaves its ring; the last one out deletes the pointee. */
    method Release(ghost ring: seq<Handle>) returns (deleted: nat)
      requires Ring(ring, ptr) && ring[0] == this
      modifies ring
      ensures ptr == 0
      ensures |ring| == 1 ==> deleted == old(ptr)
      ensures |ring| > 1 ==> deleted == 0 && Ring(ring[1..], old(ptr))
    {
      deleted := 0;
      if Unique() {
        deleted := ptr;
      } else {
        assert |ring| > 1 && Linked(ring[0], ring[1]);
        prev.next := next;
        next.prev := prev;
        prev, next := null, null;
        forall i | 1 <= i < |ring| - 1 ensures Linked(ring[i], ring[i + 1]) {
          assert old(Linked(ring[i], ring[i + 1]));
        }
      }
      ptr := 0;
    }
  }

  // ---------- All the handles of a program ----------

  /** The rings there are, each under a number of its own, with the pointee of each;
      the raw pointers that were ever wrapped, and those deleted, in order. */
  datatype World<H(==)> = World(
    rings: map<nat, seq<H>>,
    pointee: map<nat, nat>,
    nextRing: nat,
    wrapped: set<nat>,
    deleted: seq<nat>)

  predicate Live<H(==)>(w: World<H>, a: nat, h: H) {
    a in w.rings && h in w.rings[a]
  }

  predicate Apart<H(==)>(s: seq<H>, t: seq<H>) {
    forall h :: h in s ==> h !in t
  }

  /** Every handle is in one ring only, and once. */
  ghost predicate RingsSound<H>(rings: map<nat, seq<H>>, nextRing: nat) {
    && (forall a :: a in rings ==> a < nextRing && |rings[a]| > 0 && Distinct(rings[a]))
    && (forall a, b :: a in rings && b in rings && a != b ==> Apart(rings[a], rings[b]))
  }

  /** A pointee has one ring while it lives and none after; what was wrapped is either
      held or deleted, and was deleted only once. */
  ghost predicate Accounted(pointee: map<nat, nat>, wrapped: set<nat>, deleted: seq<nat>) {
    && 0 !in wrapped && Distinct(deleted) && (forall p :: p in deleted ==> p in wrapped)
    && (forall a, b :: a in pointee && b in pointee && a != b ==> pointee[a] == 0 || pointee[a] != pointee[b])
    && (forall a :: a in pointee && pointee[a] != 0 ==> pointee[a] in wrapped && pointee[a] !in deleted)
    && (forall p :: p in wrapped && p !in deleted ==> exists a :: a in pointee && pointee[a] == p)
  }

  ghost predicate Sound<H>(w: World<H>) {
    && w.rings.Keys == w.pointee.Keys
    && RingsSound(w.rings, w.nextRing)
    && Accounted(w.pointee, w.wrapped, w.deleted)
  }

  function IndexOf<H(==)>(s: seq<H>, h: H): (i: nat)
    requires h in s
    ensures i < |s| && s[i] == h
  {
    if s[0] == h then 0 else 1 + IndexOf(s[1..], h)
  }

  /** The ring listed from `h` on. */
  function From<H(==)>(s: seq<H>, h: H): (t: seq<H>)
    requires h in s
    ensures |t| == |s| && t[0] == h
  {
    Rotated(s, IndexOf(s, h))
  }

  /** The ring listed so that `h` comes last. */
  function UpTo<H(==)>(s: seq<H>, h: H): (t: seq<H>)
    requires h in s
    ensures |t| == |s| && t[|t| - 1] == h
  {
    var i := IndexOf(s, h);
    if i + 1 < |s| then Rotated(s, i + 1) else s
  }

  /** A new handle wraps a raw pointer. */
  function Wrap<H(==)>(w: World<H>, h: H, p: nat): World<H> {
    World(w.rings[w.nextRing := [h]], w.pointee[w.nextRing := p], w.nextRing + 1,
          if p == 0 then w.wrapped else w.wrapped + {p}, w.deleted)
  }

  /** A handle leaves its ring; the last to leave deletes the pointee. */
  function Leave<H(==)>(w: World<H>, a: nat, h: H): World<H>
    requires Live(w, a, h) && a in w.pointee
  {
    if |w.rings[a]| == 1 then
      w.(rings := w.rings - {a}, pointee := w.pointee - {a},
         deleted := w.deleted + if w.pointee[a] == 0 then [] else [w.pointee[a]])
    else w.(rings := w.rings[a := From(w.rings[a], h)[1..]])
  }

  /** A handle that is in no ring joins that of `r`. */
  function Join<H(==)>(w: World<H>, b: nat, r: H, h: H): World<H>
    requires Live(w, b, r)
  {
    w.(rings := w.rings[b := UpTo(w.rings[b], r) + [h]])
  }

  lemma RotatedSame<H>(s: seq<H>, k: nat)
    requires k < |s|
    ensures forall h :: h in Rotated(s, k) <==> h in s
    ensures Distinct(s) ==> Distinct(Rotated(s, k))
  {
    assert s == s[..k] + s[k..];
    if Distinct(s) {
      forall i, j | 0 <= i < j < |s| ensures Rotated(s, k)[i] != Rotated(s, k)[j] {
        RotatedAt(s, k, i);
        RotatedAt(s, k, j);
      }
    }
  }

  lemma AccountWrap(pointee: map<nat, nat>, wrapped: set<nat>, deleted: seq<nat>, a: nat, p: nat)
    requires Accounted(pointee, wrapped, deleted) && a !in pointee && p !in wrapped
    ensures Accounted(pointee[a := p], if p == 0 then wrapped else wrapped + {p}, deleted)
  {
    var after := pointee[a := p];
    forall q | q in wrapped && q !in deleted ensures exists b :: b in after && after[b] == q {
      var b :| b in pointee && pointee[b] == q;
      assert after[b] == q;
    }
    assert after[a] == p;
  }

  lemma AccountDrop(pointee: map<nat, nat>, wrapped: set<nat>, deleted: seq<nat>, a: nat)
    requires Accounted(pointee, wrapped, deleted) && a in pointee
    ensures Accounted(pointee - {a}, wrapped, deleted + if pointee[a] == 0 then [] else [pointee[a]])
  {
    var after := pointee - {a};
    var later := deleted + if pointee[a] == 0 then [] else [pointee[a]];
    assert pointee[a] != 0 ==> later[|deleted|] == pointee[a];
    forall q | q in wrapped && q !in later ensures exists b :: b in after && after[b] == q {
      assert q !in deleted;
      var b :| b in pointee && pointee[b] == q;
      assert b != a && after[b] == q;
    }
  }

  lemma {:induction false} WrapSound<H>(w: World<H>, h: H, p: nat)
    requires Sound(w) && p !in w.wrapped && forall a :: a in w.rings ==> h !in w.rings[a]
    ensures Sound(Wrap(w, h, p))
  {
    hide Accounted, RingsSound;
    RingsWrap(w.rings, w.nextRing, h);
    AccountWrap(w.pointee, w.wrapped, w.deleted, w.nextRing, p);
    assert Wrap(w, h, p).rings.Keys == w.rings.Keys + {w.nextRing} == Wrap(w, h, p).pointee.Keys;
  }

  lemma RingsWrap<H>(rings: map<nat, seq<H>>, nextRing: nat, h: H)
    requires RingsSound(rings, nextRing) && forall a :: a in rings ==> h !in rings[a]
    ensures RingsSound(rings[nextRing := [h]], nextRing + 1) && nextRing !in rings
  {
    var after := rings[nextRing := [h]];
    forall a, b | a in after && b in after && a != b ensures Apart(after[a], after[b]) {
    }
  }

  /** Everything but `h` is where it was, and `h` is nowhere. */
  ghost predicate OnlyGone<H>(w: World<H>, v: World<H>, h: H) {
    && (forall b :: b in v.rings ==> h !in v.rings[b])
    && (forall b :: b in w.rings && b in w.pointee ==> forall g :: g in w.rings[b] && g != h ==>
          Live(v, b, g) && b in v.pointee && v.pointee[b] == w.pointee[b])
  }

  lemma {:induction false} LastLeaves<H>(w: World<H>, a: nat, h: H)
    requires Sound(w) && Live(w, a, h) && |w.rings[a]| == 1
    ensures Sound(Leave(w, a, h)) && OnlyGone(w, Leave(w, a, h), h)
  {
    AccountDrop(w.pointee, w.wrapped, w.deleted, a);
    hide Accounted;
    assert w.rings[a] == [h];
  }

  lemma {:induction false} OneLeaves<H>(w: World<H>, a: nat, h: H)
    requires Sound(w) && Live(w, a, h) && |w.rings[a]| > 1
    ensures Sound(Leave(w, a, h)) && OnlyGone(w, Leave(w, a, h), h)
  {
    FromWithout(w.rings[a], h);
    hide Accounted, From;
  }

  /** The rest of the ring: everything but `h`. */
  lemma FromWithout<H>(s: seq<H>, h: H)
    requires h in s && Distinct(s)
    ensures Distinct(From(s, h)[1..]) && forall g :: g in From(s, h)[1..] <==> g in s && g != h
  {
    RotatedSame(s, IndexOf(s, h));
    var t := From(s, h);
    assert t == [h] + t[1..];
    forall g | g in t[1..] ensures g != h {
      var i :| 0 <= i < |t[1..]| && t[1..][i] == g;
      assert t[0] != t[i + 1];
    }
  }

  lemma {:induction false} LeaveSound<H>(w: World<H>, a: nat, h: H)
    requires Sound(w) && Live(w, a, h)
    ensures Sound(Leave(w, a, h)) && OnlyGone(w, Leave(w, a, h), h)
  {
    if |w.rings[a]| == 1 {
      LastLeaves(w, a, h);
    } else {
      OneLeaves(w, a, h);
    }
  }

  lemma UpToWith<H>(s: seq<H>, r: H, h: H)
    requires r in s && Distinct(s) && h !in s
    ensures Distinct(UpTo(s, r) + [h]) && forall g :: g in UpTo(s, r) + [h] <==> g in s || g == h
  {
    hide IndexOf;
    var t := UpTo(s, r);
    if IndexOf(s, r) + 1 < |s| {
      RotatedSame(s, IndexOf(s, r) + 1);
    }
    assert Distinct(t) && forall g :: g in t <==> g in s;
    hide UpTo;
  }

  lemma {:induction false} JoinSound<H>(w: World<H>, b: nat, r: H, h: H)
    requires Sound(w) && Live(w, b, r) && forall a :: a in w.rings ==> h !in w.rings[a]
    ensures Sound(Join(w, b, r, h)) && Live(Join(w, b, r, h), b, h)
  {
    UpToWith(w.rings[b], r, h);
    hide Accounted, UpTo;
  }

  // ---------- Whole programs ----------

  datatype Op<H> = Construct(h: H, p: nat) | CopyOf(h: H, r: H) | AssignTo(l: H, r: H) | Destruct(h: H)

  ghost predicate InSomeRing<H>(w: World<H>, h: H) {
    exists a :: Live(w, a, h)
  }

  ghost function RingNumber<H>(w: World<H>, h: H): (a: nat)
    requires InSomeRing(w, h)
    ensures Live(w, a, h)
  {
    var a :| Live(w, a, h);
    a
  }

  /** What a program may do: construct from a raw pointer once, copy and assign from
      live handles, destroy a live handle. */
  ghost predicate Allowed<H>(w: World<H>, op: Op<H>) {
    match op
    case Construct(h, p) => !InSomeRing(w, h) && p !in w.wrapped
    case CopyOf(h, r) => !InSomeRing(w, h) && InSomeRing(w, r)
    case AssignTo(l, r) => InSomeRing(w, l) && InSomeRing(w, r)
    case Destruct(h) => InSomeRing(w, h)
  }

  ghost function Perform<H>(w: World<H>, op: Op<H>): World<H>
    requires Sound(w) && Allowed(w, op)
  {
    match op
    case Construct(h, p) => Wrap(w, h, p)
    case CopyOf(h, r) => Join(w, RingNumber(w, r), r, h)
    case AssignTo(l, r) =>
      if l == r then w
      else
        LeaveSound(w, RingNumber(w, l), l);
        Join(Leave(w, RingNumber(w, l), l), RingNumber(w, r), r, l)
    case Destruct(h) => Leave(w, RingNumber(w, h), h)
  }

  lemma {:induction false} PerformSound<H>(w: World<H>, op: Op<H>)
    requires Sound(w) && Allowed(w, op)
    ensures Sound(Perform(w, op))
  {
    match op
    case Construct(h, p) =>
      assert forall a :: a in w.rings ==> h in w.rings[a] ==> Live(w, a, h);
      WrapSound(w, h, p);
    case CopyOf(h, r) =>
      assert forall a :: a in w.rings ==> h in w.rings[a] ==> Live(w, a, h);
      JoinSound(w, RingNumber(w, r), r, h);
    case AssignTo(l, r) =>
      if l != r {
        LeaveSound(w, RingNumber(w, l), l);
        JoinSound(Leave(w, RingNumber(w, l), l), RingNumber(w, r), r, l);
      }
    case Destruct(h) =>
      LeaveSound(w, RingNumber(w, h), h);
  }

  /** The worlds that a program can reach. */
  ghost predicate IsRun<H>(run: seq<World<H>>, ops: seq<Op<H>>) {
    && |run| == |ops| + 1 && run[0] == World(map[], map[], 0, {}, [])
    && forall i :: 0 <= i < |ops| ==>
         Sound(run[i]) && Allowed(run[i], ops[i]) ==> run[i + 1] == Perform(run[i], ops[i])
  }

  /** As long as a program only does what is allowed, the books stay in order. */
  lemma {:induction false} RunSound<H>(run: seq<World<H>>, ops: seq<Op<H>>, n: nat)
    requires IsRun(run, ops) && n <= |ops|
    requires forall i :: 0 <= i < n ==> Allowed(run[i], ops[i])
    ensures Sound(run[n])
  {
    if n > 0 {
      RunSound(run, ops, n - 1);
      PerformSound(run[n - 1], ops[n - 1]);
    }
  }

  /** A pointee has been deleted once if no handle is left, and else not at all; and
      all its handles are in one ring. */
  lemma {:induction false} DeletedExactlyOnce<H>(w: World<H>, p: nat)
    requires Sound(w) && p in w.wrapped
    ensures multiset(w.deleted)[p] == if exists a :: a in w.pointee && w.pointee[a] == p then 0 else 1
    ensures forall a, b :: a in w.pointee && b in w.pointee && w.pointee[a] == p == w.pointee[b] ==> a == b
  {
    CountDistinct(w.deleted, p);
  }

  /** Some ring of live handles points to `p`. */
  ghost predicate Held<H>(w: World<H>, p: nat) {
    exists a :: a in w.rings && a in w.pointee && w.rings[a] != [] && w.pointee[a] == p
  }

  /** The program has wrapped `p` before its step `n`. */
  ghost predicate WrappedBy<H>(ops: seq<Op<H>>, n: nat, p: nat)
    requires n <= |ops|
  {
    exists i :: 0 <= i < n && ops[i].Construct? && ops[i].p == p
  }

  lemma {:induction false} WrappedStays<H>(run: seq<World<H>>, ops: seq<Op<H>>, n: nat, p: nat)
    requires IsRun(run, ops) && n <= |ops| && p != 0 && WrappedBy(ops, n, p)
    requires forall i :: 0 <= i < n ==> Allowed(run[i], ops[i])
    ensures p in run[n].wrapped
  {
    RunSound(run, ops, n - 1);
    if !(ops[n - 1].Construct? && ops[n - 1].p == p) {
      WrappedStays(run, ops, n - 1, p);
    }
    hide Sound, Allowed;
  }

  /** At every point of every run: what was wrapped has not been deleted while some handle
      holds it, and has been deleted exactly once when none does. */
  lemma {:induction false} EveryRunDeletesOnce<H>(run: seq<World<H>>, ops: seq<Op<H>>, n: nat, p: nat)
    requires IsRun(run, ops) && n <= |ops| && p != 0 && WrappedBy(ops, n, p)
    requires forall i :: 0 <= i < n ==> Allowed(run[i], ops[i])
    ensures multiset(run[n].deleted)[p] == if Held(run[n], p) then 0 else 1
  {
    var w := run[n];
    RunSound(run, ops, n);
    WrappedStays(run, ops, n, p);
    DeletedExactlyOnce(w, p);
    assert forall a :: a in w.pointee ==> a in w.rings && w.rings[a] != [];
  }

  lemma {:induction false} CountDistinct(s: seq<nat>, p: nat)
    requires Distinct(s)
    ensures multiset(s)[p] == if p in s then 1 else 0
  {
    if s != [] {
      var front, last := s[..|s| - 1], s[|s| - 1];
      CountDistinct(front, p);
      assert s == front + [last];
    }
  }

  ghost function Members(w: World<Handle>): set<Handle> {
    set a, h | a in w.rings && h in w.rings[a] :: h
  }

  /** The rings in the heap are those of the books. */
  ghost predicate InHeap(w: World<Handle>)
    reads Members(w)
  {
    forall a :: a in w.rings && a in w.pointee ==>
      assert forall h :: h in w.rings[a] ==> h in Members(w);
      Ring(w.rings[a], w.pointee[a])
  }

  /** All rings but one are in the heap. */
  ghost predicate OthersInHeap(w: World<Handle>, a: nat)
    reads Members(w)
  {
    forall b :: b in w.rings && b in w.pointee && b != a ==>
      assert forall h :: h in w.rings[b] ==> h in Members(w);
      Ring(w.rings[b], w.pointee[b])
  }

  lemma WrapInHeap(w: World<Handle>, h: Handle, p: nat)
    requires Sound(w) && InHeap(w) && Ring([h], p)
    ensures InHeap(Wrap(w, h, p))
  {
    var v := Wrap(w, h, p);
    forall a | a in v.rings && a in v.pointee ensures Ring(v.rings[a], v.pointee[a]) {
    }
  }

  lemma LeaveInHeap(w: World<Handle>, a: nat, h: Handle)
    requires Sound(w) && Live(w, a, h) && OthersInHeap(w, a)
    requires |w.rings[a]| > 1 ==> Ring(From(w.rings[a], h)[1..], w.pointee[a])
    ensures InHeap(Leave(w, a, h))
  {
    hide From, Ring, RingsSound, Accounted;
    var v := Leave(w, a, h);
    forall b | b in v.rings && b in v.pointee ensures Ring(v.rings[b], v.pointee[b]) {
    }
  }

  lemma JoinInHeap(w: World<Handle>, b: nat, r: Handle, h: Handle)
    requires Sound(w) && Live(w, b, r) && OthersInHeap(w, b)
    requires h !in w.rings[b] && Ring(UpTo(w.rings[b], r) + [h], w.pointee[b])
    ensures InHeap(Join(w, b, r, h))
  {
    hide UpTo, Ring, RingsSound, Accounted;
    var v := Join(w, b, r, h);
    forall a | a in v.rings && a in v.pointee ensures Ring(v.rings[a], v.pointee[a]) {
    }
  }

  /** The books are in order, and the heap is as they say. */
  ghost predicate Valid(w: World<Handle>)
    reads Members(w)
  {
    Sound(w) && InHeap(w)
  }

  /** Wraps a raw pointer that was not wrapped before. */
  method New(p: nat, ghost w: World<Handle>) returns (h: Handle, ghost after: World<Handle>)
    requires Valid(w) && p !in w.wrapped
    ensures Valid(after) && fresh(h) && after == Wrap(w, h, p)
  {
    h := new Handle(p);
    after := Wrap(w, h, p);
    WrapSound(w, h, p);
    WrapInHeap(w, h, p);
  }

  /** What the fields of the handles were at some point. */
  datatype Fields = Fields(ptr: nat, prev: Handle?, next: Handle?)

  /** A ring, according to recorded fields. */
  ghost predicate RingOf(s: seq<Handle>, p: nat, f: map<Handle, Fields>) {
    && |s| > 0 && Distinct(s)
    && (forall i :: 0 <= i < |s| ==> s[i] in f && f[s[i]].ptr == p)
    && (forall i :: 0 <= i < |s| - 1 ==> f[s[i]].next == s[i + 1] && f[s[i + 1]].prev == s[i])
    && f[s[|s| - 1]].next == s[0] && f[s[0]].prev == s[|s| - 1]
  }

  lemma RecordedRing(s: seq<Handle>, p: nat, f: map<Handle, Fields>)
    requires forall i :: 0 <= i < |s| ==> s[i] in f && f[s[i]] == s[i].Get()
    ensures Ring(s, p) <==> RingOf(s, p, f)
  {
    if RingOf(s, p, f) {
      forall i | 0 <= i < |s| - 1 ensures Linked(s[i], s[i + 1]) {
        assert f[s[i]] == s[i].Get() && f[s[i + 1]] == s[i + 1].Get();
      }
    }
    if Ring(s, p) {
      forall i | 0 <= i < |s| - 1 ensures f[s[i]].next == s[i + 1] && f[s[i + 1]].prev == s[i] {
        assert Linked(s[i], s[i + 1]);
      }
    }
  }

  lemma Recorded(w: World<Handle>, f: map<Handle, Fields>)
    requires InHeap(w) && forall g :: g in Members(w) ==> g in f && f[g] == g.Get()
    ensures forall a :: a in w.rings && a in w.pointee ==> RingOf(w.rings[a], w.pointee[a], f)
  {
    forall a | a in w.rings && a in w.pointee ensures RingOf(w.rings[a], w.pointee[a], f) {
      forall i | 0 <= i < |w.rings[a]| ensures w.rings[a][i] in f && f[w.rings[a][i]] == w.rings[a][i].Get() {
        assert w.rings[a][i] in w.rings[a];
        assert w.rings[a][i] in Members(w);
      }
      RecordedRing(w.rings[a], w.pointee[a], f);
    }
  }

  /** Rings whose handles did not change since they were recorded are still there. */
  lemma Unmoved(w: World<Handle>, b: nat, f: map<Handle, Fields>)
    requires forall a :: a in w.rings && a in w.pointee ==> RingOf(w.rings[a], w.pointee[a], f)
    requires forall a :: a in w.rings && a in w.pointee && a != b ==>
      forall g :: g in w.rings[a] ==> g in f && f[g] == g.Get()
    ensures OthersInHeap(w, b)
  {
    forall a | a in w.rings && a in w.pointee && a != b ensures Ring(w.rings[a], w.pointee[a]) {
      RecordedRing(w.rings[a], w.pointee[a], f);
    }
  }

  /** Splicing into one ring leaves the others as they are. */
  method Splice(h: Handle, r: Handle, ghost ring: seq<Handle>, ghost w: World<Handle>, ghost b: nat)
    requires InHeap(w) && Ring(ring, r.ptr) && ring[|ring| - 1] == r && h !in ring
    requires forall a :: a in w.rings && a != b ==> forall g :: g in w.rings[a] ==> g != h && g !in ring
    modifies h, ring
    ensures Ring(ring + [h], old(r.ptr)) && OthersInHeap(w, b)
  {
    ghost var before := map g | g in Members(w) :: g.Get();
    Recorded(w, before);
    hide Ring, RingOf, InHeap;
    h.Acquire(r, ring);
    forall a, g | a in w.rings && a in w.pointee && a != b && g in w.rings[a]
      ensures g in before && before[g] == g.Get()
    {
      assert g in Members(w);
    }
    Unmoved(w, b, before);
  }

  /** A handle that is in no ring joins that of `r`. */
  method JoinRing(h: Handle, r: Handle, ghost w: World<Handle>, ghost b: nat)
    returns (ghost after: World<Handle>)
    requires Valid(w) && Live(w, b, r) && forall a :: a in w.rings ==> h !in w.rings[a]
    modifies h, Members(w)
    ensures Valid(after) && after == Join(w, b, r, h)
  {
    JoinPrepared(w, b, r, h);
    hide Sound, UpTo, Live, Ring, InHeap, OthersInHeap;
    Splice(h, r, UpTo(w.rings[b], r), w, b);
    JoinInHeap(w, b, r, h);
    after := Join(w, b, r, h);
  }

  lemma JoinPrepared(w: World<Handle>, b: nat, r: Handle, h: Handle)
    requires Valid(w) && Live(w, b, r) && forall a :: a in w.rings ==> h !in w.rings[a]
    ensures Sound(Join(w, b, r, h))
    ensures Ring(UpTo(w.rings[b], r), w.pointee[b]) && r.ptr == w.pointee[b] && h !in UpTo(w.rings[b], r)
    ensures forall g :: g in UpTo(w.rings[b], r) ==> g in Members(w)
    ensures forall a :: a in w.rings && a != b ==>
      forall g :: g in w.rings[a] ==> g != h && g !in UpTo(w.rings[b], r)
  {
    assert Ring(w.rings[b], w.pointee[b]);
    UpToRing(w.rings[b], w.pointee[b], r);
    JoinSound(w, b, r, h);
    hide UpTo, Join, Ring, Accounted;
    forall a | a in w.rings && a != b ensures forall g :: g in w.rings[a] ==> g !in UpTo(w.rings[b], r) {
      assert Apart(w.rings[a], w.rings[b]);
    }
  }

  lemma UpToRing(s: seq<Handle>, p: nat, r: Handle)
    requires Ring(s, p) && r in s
    ensures Ring(UpTo(s, r), p) && forall g :: g in UpTo(s, r) <==> g in s
  {
    var i := IndexOf(s, r);
    if i + 1 < |s| {
      RingRotated(s, p, i + 1);
      RotatedSame(s, i + 1);
    }
  }

  lemma FromRing(s: seq<Handle>, p: nat, h: Handle)
    requires Ring(s, p) && h in s
    ensures Ring(From(s, h), p) && forall g :: g in From(s, h) <==> g in s
  {
    RingRotated(s, p, IndexOf(s, h));
    RotatedSame(s, IndexOf(s, h));
  }

  /** Cutting a handle out of its ring leaves the others as they are. */
  method Cut(h: Handle, ghost ring: seq<Handle>, ghost w: World<Handle>, ghost a: nat) returns (deleted: nat)
    requires InHeap(w) && Ring(ring, h.ptr) && ring[0] == h
    requires forall b :: b in w.rings && b != a ==> forall g :: g in w.rings[b] ==> g !in ring
    modifies ring
    ensures |ring| == 1 ==> deleted == old(h.ptr)
    ensures |ring| > 1 ==> deleted == 0 && Ring(ring[1..], old(h.ptr))
    ensures OthersInHeap(w, a)
  {
    ghost var before := map g | g in Members(w) :: g.Get();
    Recorded(w, before);
    hide Ring, RingOf, InHeap;
    deleted := h.Release(ring);
    forall b, g | b in w.rings && b in w.pointee && b != a && g in w.rings[b]
      ensures g in before && before[g] == g.Get()
    {
      assert g in Members(w);
    }
    Unmoved(w, a, before);
  }

  /** `~linked_ptr`: the handle leaves its ring, and the last to leave deletes. */
  method Destroy(h: Handle, ghost w: World<Handle>, ghost a: nat)
    returns (deleted: nat, ghost after: World<Handle>)
    requires Valid(w) && Live(w, a, h)
    modifies Members(w)
    ensures Valid(after) && after == Leave(w, a, h) && OnlyGone(w, after, h)
    ensures after.deleted == w.deleted + if deleted == 0 then [] else [deleted]
    ensures deleted != 0 ==> w.rings[a] == [h] && deleted == w.pointee[a]
  {
    LeavePrepared(w, a, h);
    hide Sound, From, Live, OnlyGone, Ring, InHeap, OthersInHeap;
    deleted := Cut(h, From(w.rings[a], h), w, a);
    LeaveInHeap(w, a, h);
    after := Leave(w, a, h);
  }

  lemma LeavePrepared(w: World<Handle>, a: nat, h: Handle)
    requires Valid(w) && Live(w, a, h)
    ensures Sound(Leave(w, a, h)) && OnlyGone(w, Leave(w, a, h), h)
    ensures Ring(From(w.rings[a], h), w.pointee[a]) && h.ptr == w.pointee[a]
    ensures |w.rings[a]| == 1 ==> w.rings[a] == [h]
    ensures forall g :: g in From(w.rings[a], h) ==> g in Members(w)
    ensures forall b :: b in w.rings && b != a ==>
      forall g :: g in w.rings[b] ==> g !in From(w.rings[a], h)
  {
    assert Ring(w.rings[a], w.pointee[a]);
    FromRing(w.rings[a], w.pointee[a], h);
    LeaveSound(w, a, h);
    hide From, Leave, Ring, Accounted;
    forall b | b in w.rings && b != a ensures forall g :: g in w.rings[b] ==> g !in From(w.rings[a], h) {
      assert Apart(w.rings[b], w.rings[a]);
    }
  }

  /** The copy constructor. */
  method Copy(r: Handle, ghost w: World<Handle>, ghost b: nat) returns (h: Handle, ghost after: World<Handle>)
    requires Valid(w) && Live(w, b, r)
    modifies Members(w)
    ensures Valid(after) && fresh(h) && after == Join(w, b, r, h)
  {
    h := new Handle(0);
    assert forall a :: a in w.rings ==> forall g :: g in w.rings[a] ==> g in Members(w);
    after := JoinRing(h, r, w, b);
  }

  /** `operator=`: assigning a handle to itself does nothing; otherwise it leaves its
      ring for that of `r`, which may be the same. */
  method Assign(l: Handle, r: Handle, ghost w: World<Handle>, ghost a: nat, ghost b: nat)
    returns (deleted: nat, ghost after: World<Handle>)
    requires Valid(w) && Live(w, a, l) && Live(w, b, r)
    modifies Members(w)
    ensures Valid(after)
    ensures l == r ==> after == w && deleted == 0
    ensures l != r ==> Live(Leave(w, a, l), b, r) && after == Join(Leave(w, a, l), b, r, l) && l.ptr == w.pointee[b]
    ensures after.deleted == w.deleted + if deleted == 0 then [] else [deleted]
  {
    deleted, after := 0, w;
    if l != r {
      AssignPrepared(w, a, l, b, r);
      hide Valid, Live, Leave, Join;
      deleted, after := Destroy(l, w, a);
      after := JoinRing(l, r, after, b);
      JoinedPtr(Leave(w, a, l), b, r, l);
    }
  }

  lemma AssignPrepared(w: World<Handle>, a: nat, l: Handle, b: nat, r: Handle)
    requires Sound(w) && Live(w, a, l) && Live(w, b, r) && l != r
    ensures var v := Leave(w, a, l);
      && Live(v, b, r) && b in w.pointee && b in v.pointee && v.pointee[b] == w.pointee[b]
      && (forall c :: c in v.rings ==> l !in v.rings[c])
      && l in Members(w) && Members(v) <= Members(w)
  {
    LeaveSound(w, a, l);
    FromWithout(w.rings[a], l);
    hide From, Sound;
    var v := Leave(w, a, l);
    forall h | h in Members(v) ensures h in Members(w) {
      var c :| c in v.rings && h in v.rings[c];
      assert h in w.rings[c];
    }
  }

  lemma JoinedPtr(v: World<Handle>, b: nat, r: Handle, h: Handle)
    requires Live(v, b, r) && b in v.pointee && Valid(Join(v, b, r, h))
    ensures h.ptr == v.pointee[b]
  {
    var w := Join(v, b, r, h);
    assert Ring(w.rings[b], w.pointee[b]);
    assert w.rings[b][|w.rings[b]| - 1] == h;
  }
}
