/** Which entry `CheckLimit` picks: its two scans over the map, in the order of the map. */
module DiskCacheVictims {
  import opened DiskCacheSpec

  /** The order of `std::string`, and so of the map. */
  predicate Before(a: Id, b: Id) {
    b != "" && (a == "" || a[0] < b[0] || (a[0] == b[0] && Before(a[1..], b[1..])))
  }

  lemma {:induction false} BeforeOneWay(a: Id, b: Id)
    ensures a == b || Before(a, b) || Before(b, a)
    ensures !(Before(a, b) && Before(b, a))
  {
    if a != "" && b != "" {
      BeforeOneWay(a[1..], b[1..]);
      assert a == [a[0]] + a[1..] && b == [b[0]] + b[1..];
    }
  }

  lemma {:induction false} BeforeTransitive(a: Id, b: Id, c: Id)
    requires Before(a, b) && Before(b, c)
    ensures Before(a, c)
  {
    if a != "" && a[0] == b[0] == c[0] {
      BeforeTransitive(a[1..], b[1..], c[1..]);
    }
  }

  predicate Least(k: Id, keys: set<Id>) {
    k in keys && forall other :: other in keys ==> other == k || Before(k, other)
  }

  lemma {:induction false} LeastExists(keys: set<Id>)
    requires keys != {}
    ensures exists k :: Least(k, keys)
    ensures forall a, b :: Least(a, keys) && Least(b, keys) ==> a == b
  {
    forall a, b | Least(a, keys) && Least(b, keys) ensures a == b {
      BeforeOneWay(a, b);
    }
    var some :| some in keys;
    var rest := keys - {some};
    if rest == {} {
      assert keys == {some};
      assert Least(some, keys);
    } else {
      LeastExists(rest);
      var k :| Least(k, rest);
      BeforeOneWay(some, k);
      if Before(k, some) {
        assert Least(k, keys);
      } else {
        forall other | other in keys ensures other == some || Before(some, other) {
          if other != some && other != k {
            BeforeTransitive(some, k, other);
          }
        }
        assert Least(some, keys);
      }
    }
  }

  /** The order in which the map is gone through. */
  function InOrder(keys: set<Id>): (order: seq<Id>)
    ensures forall id :: id in keys <==> id in order
  {
    if keys == {} then []
    else
      LeastExists(keys);
      var first :| first in keys && Least(first, keys);
      [first] + InOrder(keys - {first})
  }

  lemma {:induction false} InOrderLists(entries: map<Id, Entry>)
    ensures Listing(InOrder(entries.Keys), entries)
  {
    InOrderSorted(entries.Keys);
  }

  lemma {:induction false} InOrderSorted(keys: set<Id>)
    ensures var order := InOrder(keys); forall i, j :: 0 <= i < j < |order| ==> Before(order[i], order[j])
  {
    if keys != {} {
      LeastExists(keys);
      var order := InOrder(keys);
      var first := order[0];
      assert Least(first, keys) && order[1..] == InOrder(keys - {first});
      InOrderSorted(keys - {first});
      forall i, j | 0 <= i < j < |order| ensures Before(order[i], order[j]) {
        assert order[j] == order[1..][j - 1] && order[j] in order[1..];
        if i > 0 {
          assert order[i] == order[1..][i - 1];
        }
      }
    }
  }

  ghost predicate Listing(order: seq<Id>, entries: map<Id, Entry>) {
    && (forall i, j :: 0 <= i < j < |order| ==> Before(order[i], order[j]))
    && (forall id :: id in entries <==> id in order)
  }

  predicate Stamped(order: seq<Id>, c: Cache, modified: map<Id, nat>) {
    forall i :: 0 <= i < |order| ==> order[i] in c.entries && order[i] in modified
  }

  /** `PastTheEnd` is what the source does not guard against: it reads through the end
      iterator. */
  datatype Victim = NoneIdle | PastTheEnd | Picked(at: nat)

  function FirstIdle(order: seq<Id>, c: Cache, i: nat): (first: nat)
    requires i <= |order| && forall k :: 0 <= k < |order| ==> order[k] in c.entries
    ensures i <= first <= |order|
    ensures forall k :: i <= k < first ==> !c.entries[order[k]].Idle()
    ensures first < |order| ==> c.entries[order[first]].Idle()
    decreases |order| - i
  {
    if i == |order| || c.entries[order[i]].Idle() then i else FirstIdle(order, c, i + 1)
  }

  /** The second scan starts on the first idle entry, but with `oldest` already one on. */
  function Oldest(order: seq<Id>, modified: map<Id, nat>, it: nat, oldest: nat): (r: nat)
    requires it <= |order| && oldest < |order| && forall k :: 0 <= k < |order| ==> order[k] in modified
    ensures r == oldest || it <= r < |order|
    ensures modified[order[r]] <= modified[order[oldest]]
    ensures forall k :: it <= k < |order| ==> modified[order[r]] <= modified[order[k]]
    decreases |order| - it
  {
    if it == |order| then oldest
    else Oldest(order, modified, it + 1, if modified[order[it]] < modified[order[oldest]] then it else oldest)
  }

  function SourceVictim(order: seq<Id>, c: Cache, modified: map<Id, nat>): Victim
    requires Stamped(order, c, modified)
  {
    var first := FirstIdle(order, c, 0);
    if first == |order| then NoneIdle
    else if first + 1 == |order| then PastTheEnd
    else Picked(Oldest(order, modified, first, first + 1))
  }

  ghost predicate IsFirstIdle(order: seq<Id>, c: Cache, i: nat)
    requires forall k :: 0 <= k < |order| ==> order[k] in c.entries
  {
    i < |order| && c.entries[order[i]].Idle() && forall k :: 0 <= k < i ==> !c.entries[order[k]].Idle()
  }

  /** What the second scan settles on: an entry that was modified no later than any from the
      first idle one on; of several such, the one behind the first idle one, and otherwise
      the first of them. */
  ghost predicate Chosen(order: seq<Id>, modified: map<Id, nat>, first: nat, at: nat)
    requires forall k :: 0 <= k < |order| ==> order[k] in modified
  {
    && first + 1 < |order| && first <= at < |order|
    && (forall k :: first <= k < |order| ==> modified[order[at]] <= modified[order[k]])
    && (at == first + 1
        || (modified[order[at]] < modified[order[first + 1]]
            && forall k :: first <= k < at ==> modified[order[at]] < modified[order[k]]))
  }

  lemma {:induction false} OldestIsFirst(order: seq<Id>, modified: map<Id, nat>, it: nat, oldest: nat)
    requires it <= |order| && oldest < |order| && forall k :: 0 <= k < |order| ==> order[k] in modified
    ensures var r := Oldest(order, modified, it, oldest);
      r == oldest || (modified[order[r]] < modified[order[oldest]]
                      && forall k :: it <= k < r ==> modified[order[r]] < modified[order[k]])
    decreases |order| - it
  {
    if it < |order| {
      OldestIsFirst(order, modified, it + 1, if modified[order[it]] < modified[order[oldest]] then it else oldest);
    }
  }

  lemma OldestIsChosen(order: seq<Id>, modified: map<Id, nat>, first: nat)
    requires first + 1 < |order| && forall k :: 0 <= k < |order| ==> order[k] in modified
    ensures forall at: nat :: Chosen(order, modified, first, at) <==> at == Oldest(order, modified, first, first + 1)
  {
    OldestIsFirst(order, modified, first, first + 1);
  }

  /** There is no victim exactly when no entry is idle; the scan runs past the end exactly
      when the first idle entry is the last entry; and any other time the victim is the one
      that is chosen behind the first idle entry. */
  lemma VictimIs(order: seq<Id>, c: Cache, modified: map<Id, nat>)
    requires Listing(order, c.entries) && Stamped(order, c, modified)
    ensures SourceVictim(order, c, modified) == NoneIdle <==> !c.SomeIdle()
    ensures SourceVictim(order, c, modified) == PastTheEnd <==> order != [] && IsFirstIdle(order, c, |order| - 1)
    ensures forall at: nat ::
      SourceVictim(order, c, modified) == Picked(at)
      <==> exists first: nat :: IsFirstIdle(order, c, first) && Chosen(order, modified, first, at)
  {
    var first := FirstIdle(order, c, 0);
    assert forall i: nat :: IsFirstIdle(order, c, i) <==> i == first < |order|;
    if first < |order| {
      assert order[first] in c.entries && c.entries[order[first]].Idle();
      if first + 1 < |order| {
        OldestIsChosen(order, modified, first);
      }
    } else {
      assert forall id :: id in c.entries ==> id in order;
    }
    var victim := SourceVictim(order, c, modified);
    assert victim.Picked? <==> first + 1 < |order|;
    assert first + 1 < |order| ==> Chosen(order, modified, first, victim.at);
    hide SourceVictim, Oldest, FirstIdle, IsFirstIdle;
    forall at: nat
      ensures victim == Picked(at) <==> exists i: nat :: IsFirstIdle(order, c, i) && Chosen(order, modified, i, at)
    {
      if first + 1 < |order| {
        assert victim == Picked(at) <==> Chosen(order, modified, first, at);
      }
    }
  }

  /** The scans, as the source writes them. */
  method FindVictim(order: seq<Id>, c: Cache, modified: map<Id, nat>) returns (v: Victim)
    requires Stamped(order, c, modified)
    ensures v == SourceVictim(order, c, modified)
  {
    var oldest := |order|;
    for it := 0 to |order|
      invariant oldest == |order| && FirstIdle(order, c, 0) == FirstIdle(order, c, it)
    {
      if c.entries[order[it]].lockState != Unlocked || c.entries[order[it]].accessors > 0 {
        continue;
      }
      oldest := it;
      break;
    }
    if oldest == |order| {
      return NoneIdle;
    }
    var first := oldest;
    oldest := oldest + 1;
    if oldest == |order| {
      return PastTheEnd;
    }
    for it := first to |order|
      invariant first <= oldest < |order|
      invariant Oldest(order, modified, first, first + 1) == Oldest(order, modified, it, oldest)
    {
      if modified[order[it]] < modified[order[oldest]] {
        oldest := it;
      }
    }
    return Picked(oldest);
  }
}
