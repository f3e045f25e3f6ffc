/** `CheckLimit` as the source runs it, with the victims that its scans find. */
module DiskCacheEvictions {
  import opened DiskCacheSpec
  import opened DiskCacheInvariants
  import opened DiskCacheRuns
  import opened DiskCacheVictims

  /** `ReadsPastEnd` stands for all that may happen once the end iterator has been read. */
  datatype CheckOutcome = Fits | AllLocked | CannotDelete | ReadsPastEnd

  function SourceCheckLimit(modified: map<Id, nat>, c: Cache): (r: (Cache, CheckOutcome))
    requires c.entries.Keys <= modified.Keys
    decreases |c.entries|
  {
    if c.totalSize <= c.maxCache then (c, Fits)
    else
      var order := InOrder(c.entries.Keys);
      match SourceVictim(order, c, modified)
      case NoneIdle => (c, AllLocked)
      case PastTheEnd => (c, ReadsPastEnd)
      case Picked(at) =>
        var (c', ok) := Delete(c, order[at]);
        if !ok then (c', CannotDelete)
        else
          assert |c'.entries| < |c.entries| by {
            assert order[at] in order;
            RemovalShrinks(c.entries, order[at]);
          }
          SourceCheckLimit(modified, c')
  }

  lemma OrderStamped(modified: map<Id, nat>, c: Cache)
    requires c.entries.Keys <= modified.Keys
    ensures Stamped(InOrder(c.entries.Keys), c, modified)
  {
    var order := InOrder(c.entries.Keys);
    assert forall i :: 0 <= i < |order| ==> order[i] in order;
  }

  lemma RoomIsEnough(modified: map<Id, nat>, c: Cache)
    requires c.entries.Keys <= modified.Keys && c.totalSize <= c.maxCache
    ensures SourceCheckLimit(modified, c) == (c, Fits)
  {
  }

  /** One round of it. */
  lemma SourceStep(modified: map<Id, nat>, c: Cache, order: seq<Id>, victim: Victim)
    requires c.entries.Keys <= modified.Keys && c.totalSize > c.maxCache
    requires order == InOrder(c.entries.Keys) && victim == SourceVictim(order, c, modified)
    ensures victim == NoneIdle ==> SourceCheckLimit(modified, c) == (c, AllLocked)
    ensures victim == PastTheEnd ==> SourceCheckLimit(modified, c) == (c, ReadsPastEnd)
    ensures victim.Picked? ==> victim.at < |order| && order[victim.at] in c.entries
    ensures victim.Picked? && Delete(c, order[victim.at]).1 ==>
      var c' := Delete(c, order[victim.at]).0;
      |c'.entries| < |c.entries| && SourceCheckLimit(modified, c) == SourceCheckLimit(modified, c')
    ensures victim.Picked? && !Delete(c, order[victim.at]).1 ==>
      SourceCheckLimit(modified, c) == (Delete(c, order[victim.at]).0, CannotDelete)
  {
    if victim.Picked? {
      assert order[victim.at] in order;
      RemovalShrinks(c.entries, order[victim.at]);
    }
  }

  /** The source's way of picking victims, where it picks one. */
  ghost function SourcePick(modified: map<Id, nat>, c: Cache): (id: Id)
    ensures c.entries != map[] ==> id in c.entries
  {
    if c.entries.Keys <= modified.Keys then
      var order := InOrder(c.entries.Keys);
      match SourceVictim(order, c, modified)
      case Picked(at) =>
        assert order[at] in order;
        order[at]
      case _ => AnyEntry(c)
    else AnyEntry(c)
  }

  ghost function SourceChoice(modified: map<Id, nat>): Choice {
    c => SourcePick(modified, c)
  }

  /** Unless it reads past the end, the source is one of the ways of evicting for which
      the invariants are proved. */
  lemma {:induction false} SourceIsAChoice(modified: map<Id, nat>, c: Cache)
    requires c.entries.Keys <= modified.Keys
    ensures var (c', outcome) := SourceCheckLimit(modified, c);
      outcome != ReadsPastEnd ==> CheckLimit(SourceChoice(modified), c) == (c', outcome == Fits)
    decreases |c.entries|
  {
    var order := InOrder(c.entries.Keys);
    InOrderLists(c.entries);
    VictimIs(order, c, modified);
    if c.totalSize > c.maxCache {
      match SourceVictim(order, c, modified)
      case Picked(at) =>
        assert order[at] in order && SourceChoice(modified)(c) == order[at];
        if Delete(c, order[at]).1 {
          RemovalShrinks(c.entries, order[at]);
          SourceIsAChoice(modified, Delete(c, order[at]).0);
        }
        assert c.SomeIdle();
      case _ =>
    }
    hide SourceVictim, Delete, Chosen, IsFirstIdle, Listing, InOrder;
  }

  lemma OnlyIdleGoneTwice(c: Cache, c1: Cache, c2: Cache)
    requires OnlyIdleGone(c, c1) && OnlyIdleGone(c1, c2)
    ensures OnlyIdleGone(c, c2)
  {
  }

  lemma DeleteKeeps(c: Cache, id: Id)
    ensures Kept(c, Delete(c, id).0)
    ensures OnlyIdleGone(c, Delete(c, id).0)
  {
    if Exclusion(c) {
      EvictionKeepsExclusion(c, Delete(c, id).0);
      if Totals(c) {
        DeleteKeepsTotals(c, id);
      }
      if Books(c) {
        DeleteKeepsBooks(c, id);
      }
    }
    hide Exclusion, Books, Totals;
  }

  /** Even when it goes wrong on the way: only idle entries and their files go, and
      everything that holds is kept. */
  lemma {:induction false} SourceEvictsIdle(modified: map<Id, nat>, c: Cache)
    requires c.entries.Keys <= modified.Keys
    ensures var (c', outcome) := SourceCheckLimit(modified, c);
      OnlyIdleGone(c, c') && Kept(c, c') && (outcome == Fits ==> c'.totalSize <= c'.maxCache)
    decreases |c.entries|
  {
    var order := InOrder(c.entries.Keys);
    assert OnlyIdleGone(c, c) && Kept(c, c);
    if c.totalSize > c.maxCache && SourceVictim(order, c, modified).Picked? {
      var victim := order[SourceVictim(order, c, modified).at];
      assert victim in order;
      var c1 := Delete(c, victim).0;
      DeleteKeeps(c, victim);
      if Delete(c, victim).1 {
        RemovalShrinks(c.entries, victim);
        SourceEvictsIdle(modified, c1);
        OnlyIdleGoneTwice(c, c1, SourceCheckLimit(modified, c1).0);
      }
    }
    hide OnlyIdleGone, Exclusion, Books, Totals, SourceVictim, InOrder;
  }

  ghost predicate VictimBusy(modified: map<Id, nat>, c: Cache)
    requires c.entries.Keys <= modified.Keys
  {
    var order := InOrder(c.entries.Keys);
    exists first: nat, at: nat :: IsFirstIdle(order, c, first) && Chosen(order, modified, first, at)
                                  && !c.entries[order[at]].Idle()
  }

  ghost predicate OnlyLastIdle(c: Cache) {
    var order := InOrder(c.entries.Keys);
    order != [] && IsFirstIdle(order, c, |order| - 1)
  }

  ghost predicate Explained(modified: map<Id, nat>, c: Cache, outcome: CheckOutcome) {
    && c.entries.Keys <= modified.Keys
    && (outcome == Fits <==> c.totalSize <= c.maxCache)
    && (outcome == AllLocked <==> c.totalSize > c.maxCache && !c.SomeIdle())
    && (outcome == ReadsPastEnd <==> c.totalSize > c.maxCache && OnlyLastIdle(c))
    && (outcome == CannotDelete <==> c.totalSize > c.maxCache && VictimBusy(modified, c))
  }

  lemma StopExplained(modified: map<Id, nat>, c: Cache)
    requires c.entries.Keys <= modified.Keys && c.totalSize > c.maxCache
    ensures var order := InOrder(c.entries.Keys);
      match SourceVictim(order, c, modified)
      case NoneIdle => Explained(modified, c, AllLocked)
      case PastTheEnd => Explained(modified, c, ReadsPastEnd)
      case Picked(at) =>
        at < |order| && order[at] in c.entries
        && (!c.entries[order[at]].Idle() ==> Explained(modified, c, CannotDelete))
  {
    var order := InOrder(c.entries.Keys);
    InOrderLists(c.entries);
    VictimIs(order, c, modified);
    if SourceVictim(order, c, modified).Picked? {
      var at := SourceVictim(order, c, modified).at;
      assert order[at] in order;
      assert !c.entries[order[at]].Idle() ==> VictimBusy(modified, c);
    }
    hide SourceVictim, Chosen, IsFirstIdle, Listing, InOrder;
  }

  /** When it stops, and why: because there is room; because no entry is idle; because only
      the last entry of the map is, and the scan ran past it; or because the scan has
      settled on an entry that is not idle, though another is. */
  lemma {:induction false} SourceOutcome(modified: map<Id, nat>, c: Cache)
    requires c.entries.Keys <= modified.Keys && c.stuck == {}
    ensures var (c', outcome) := SourceCheckLimit(modified, c); Explained(modified, c', outcome)
    decreases |c.entries|
  {
    if c.totalSize > c.maxCache {
      var order := InOrder(c.entries.Keys);
      StopExplained(modified, c);
      match SourceVictim(order, c, modified)
      case Picked(at) =>
        hide SourceVictim, InOrder, Explained;
        if c.entries[order[at]].Idle() {
          RemovalShrinks(c.entries, order[at]);
          assert Delete(c, order[at]).1;
          SourceOutcome(modified, Delete(c, order[at]).0);
        }
      case _ => hide SourceVictim, InOrder, Explained;
    }
  }

  /** One eviction: there is no room, and the entry that is chosen, an idle one, goes with its
      size and with those of its files that can. */
  ghost predicate OneEvicted(modified: map<Id, nat>, c: Cache, c': Cache)
    requires c.entries.Keys <= modified.Keys
  {
    var order := InOrder(c.entries.Keys);
    c.totalSize > c.maxCache
    && exists first: nat, at: nat ::
         && IsFirstIdle(order, c, first) && Chosen(order, modified, first, at)
         && c.entries[order[at]].Idle() && c' == Delete(c, order[at]).0
  }

  ghost predicate EvictedInTurn(modified: map<Id, nat>, chain: seq<Cache>) {
    && chain != []
    && (forall i :: 0 <= i < |chain| ==> chain[i].entries.Keys <= modified.Keys)
    && forall i :: 0 <= i < |chain| - 1 ==> OneEvicted(modified, chain[i], chain[i + 1])
  }

  /** Nothing is evicted but in turn, while there is no room. */
  lemma {:induction false} EvictsInTurn(modified: map<Id, nat>, c: Cache) returns (chain: seq<Cache>)
    requires c.entries.Keys <= modified.Keys
    ensures EvictedInTurn(modified, chain)
    ensures chain[0] == c && chain[|chain| - 1] == SourceCheckLimit(modified, c).0
    decreases |c.entries|
  {
    hide InOrder, SourceVictim, Chosen, IsFirstIdle, Delete;
    chain := [c];
    if c.totalSize > c.maxCache {
      var order := InOrder(c.entries.Keys);
      var victim := SourceVictim(order, c, modified);
      OrderStamped(modified, c);
      SourceStep(modified, c, order, victim);
      InOrderLists(c.entries);
      VictimIs(order, c, modified);
      if victim.Picked? && c.entries[order[victim.at]].Idle() {
        var c1 := Delete(c, order[victim.at]).0;
        DeleteKeeps(c, order[victim.at]);
        if Delete(c, order[victim.at]).1 {
          var more := EvictsInTurn(modified, c1);
          chain := [c] + more;
        } else {
          chain := [c, c1];
        }
        assert OneEvicted(modified, c, c1);
      } else if victim.Picked? {
        BusyStays(c, order[victim.at]);
      }
    }
  }

  lemma BusyStays(c: Cache, id: Id)
    requires id in c.entries && !c.entries[id].Idle()
    ensures Delete(c, id) == (c, false)
  {
  }
}
