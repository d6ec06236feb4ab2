/**
  The version lists of one MVTO+ server, each a skip list of its own, and the sections of server/Scheduler.cpp
  that read and change them in place.
 */
module MvtoTables {
  import opened Common
  import opened SortedMap
  import opened Links
  import opened SkipLists
  import S = MvtoServer

  type List = SkipList<S.VersionEntry>

  class VersionTable {
    var lists: map<Key, List>
    ghost var Repr: set<object>

    ghost predicate Valid()
      reads this, Repr
    {
      && this in Repr
      && (forall k :: k in lists ==> lists[k] in Repr && lists[k].Repr <= Repr && this !in lists[k].Repr)
      && (forall k :: k in lists ==> lists[k].Valid())
      && forall j, k :: j in lists && k in lists && j != k ==> lists[j].Repr !! lists[k].Repr
    }

    /** The version lists by value. */
    ghost function View(): map<Key, S.VersionList>
      requires Valid()
      reads this, Repr
    {
      map k | k in lists :: lists[k].view
    }

    constructor ()
      ensures Valid() && fresh(Repr) && View() == map[]
    {
      lists := map[];
      Repr := {this};
    }

    // ----- a change of one list leaves the others alone

    /** The heap has changed only inside the footprint of k's list, which may have grown by new nodes. */
    twostate predicate OnlyListChanged(k: Key)
      requires k in lists && k in old(lists)
      reads this, Repr, lists[k]
    {
      && lists == old(lists) && Repr == old(Repr) + lists[k].Repr
      && fresh(lists[k].Repr - old(lists[k].Repr))
      && unchanged(old(Repr) - {this} - old(lists[k].Repr))
    }

    twostate predicate OthersStay(k: Key)
      requires old(Valid()) && k in lists && k in old(lists) && OnlyListChanged(k)
      reads this, Repr, set j, o | j in lists && o in lists[j].Repr :: o, set j | j in lists :: lists[j]
    {
      forall j :: j in lists && j != k ==>
        && lists[j].Valid() && lists[j].Repr == old(lists[j].Repr) && lists[j].view == old(lists[j].view)
        && lists[j].Repr !! lists[k].Repr
    }

    twostate lemma OtherListsStay(k: Key)
      requires old(Valid()) && k in lists && k in old(lists) && OnlyListChanged(k)
      ensures OthersStay(k)
    {
      forall j | j in lists && j != k
        ensures lists[j].Valid() && lists[j].Repr == old(lists[j].Repr) && lists[j].view == old(lists[j].view)
        ensures lists[j].Repr !! lists[k].Repr
      {
        assert old(lists[j].Repr) !! old(lists[k].Repr);
        assert lists[j] in old(lists[j].Repr) && this !in old(lists[j].Repr);
        forall o | o in old(lists[j].Repr) ensures unchanged(o) {
          assert o in old(Repr);
        }
      }
    }

    twostate lemma StillValid(k: Key)
      requires old(Valid()) && k in lists && k in old(lists) && OnlyListChanged(k) && lists[k].Valid() && OthersStay(k)
      ensures Valid()
    {
      forall j | j in lists && j != k ensures lists[j] in Repr && lists[j].Repr <= Repr && this !in lists[j].Repr {
        assert old(lists[j].Repr) <= old(Repr) && this !in old(lists[j].Repr);
      }
      forall i, j | i in lists && j in lists && i != k && j != k && i != j ensures lists[i].Repr !! lists[j].Repr {
        assert old(lists[i].Repr) !! old(lists[j].Repr);
      }
    }

    twostate lemma ViewChanged(k: Key)
      requires old(Valid()) && Valid() && k in lists && k in old(lists) && OnlyListChanged(k) && OthersStay(k)
      ensures View() == old(View())[k := lists[k].view]
    {
    }

    /** A new list has been added, and nothing that existed was touched. */
    twostate lemma AddedStillValid(k: Key)
      requires old(Valid()) && k !in old(lists) && k in lists && lists == old(lists)[k := lists[k]]
      requires Repr == old(Repr) + lists[k].Repr && fresh(lists[k].Repr) && unchanged(old(Repr) - {this})
      requires lists[k].Valid()
      ensures Valid()
    {
      forall j | j in lists && j != k
        ensures lists[j] in Repr && lists[j].Repr <= Repr && this !in lists[j].Repr
        ensures lists[j].Valid() && lists[j].Repr !! lists[k].Repr
      {
        assert old(lists[j].Repr) <= old(Repr) && this !in old(lists[j].Repr) && old(lists[j].Valid());
      }
      forall i, j | i in lists && j in lists && i != j ensures lists[i].Repr !! lists[j].Repr {
        if i != k && j != k {
          assert old(lists[i].Repr) !! old(lists[j].Repr);
        }
      }
    }

    twostate lemma AddedToView(k: Key)
      requires old(Valid()) && Valid() && k !in old(lists) && k in lists && lists == old(lists)[k := lists[k]]
      requires forall j :: j in old(lists) ==> lists[j].view == old(lists[j].view)
      ensures View() == old(View())[k := lists[k].view]
    {
    }

    // ----- the sections

    /** Makes an empty list for a key that has none; `garbage` is the state that its sentinels happen to hold. */
    method Make(k: Key, garbage: S.VersionState)
      requires Valid() && k !in lists
      modifies this
      ensures Valid() && fresh(Repr - old(Repr)) && k in lists && fresh(lists[k].Repr)
      ensures View() == old(View())[k := S.FreshVersions(garbage)]
    {
      var list := new SkipList<S.VersionEntry>(S.VersionEntry("", garbage, {}));
      lists := lists[k := list];
      Repr := Repr + list.Repr;
      AddedStillValid(k);
      AddedToView(k);
    }

    /** Overwrites the entry that `find` returns for a timestamp: the version at or above it. */
    method AssignAtOrAbove(k: Key, ts: Timestamp, change: S.Change)
      requires Valid() && k in lists
      modifies Repr
      ensures Valid() && fresh(Repr - old(Repr)) && lists == old(lists)
      ensures k in old(View()) && View() == old(View())[k := S.ChangeAt(old(View())[k], ts, change)]
    {
      var prev, curr := lists[k].FindBelow(ts);
      lists[k].Assign(curr, S.Apply(change, curr.item.value));
      OtherListsStay(k);
      StillValid(k);
      ViewChanged(k);
    }

    /** Looks for a committed version below ts and marks it. */
    method MarkBelow(k: Key, ts: Instant) returns (committed: bool, version: Timestamp, value: Value)
      requires Valid() && k in lists
      modifies Repr
      ensures Valid() && fresh(Repr - old(Repr)) && k in old(View())
      ensures version == Below(old(View())[k], ts) && value == old(View())[k][version].value
      ensures committed == (old(View())[k][version].state == S.COMMITTED)
      ensures View() == if committed then old(View())[k := S.Mark(old(View())[k], version, ts)] else old(View())
    {
      var prev, _ := lists[k].FindBelow(ts);
      var e := prev.item.value;
      version, value, committed := prev.item.key, e.value, e.state == S.COMMITTED;
      if committed {
        lists[k].Assign(prev, e.(readTimes := e.readTimes + {ts}));
        OtherListsStay(k);
        StillValid(k);
        ViewChanged(k);
      }
    }

    /** Looks for a read mark above ts on the version below ts. */
    method IsLate(k: Key, ts: Instant) returns (late: bool)
      requires Valid() && k in lists
      ensures k in View() && late == S.Late(View()[k], ts)
    {
      var prev, _ := lists[k].FindBelow(ts);
      late := exists r :: r in prev.item.value.readTimes && ts < r;
    }

    method InsertPending(k: Key, ts: Instant, value: Value, level: nat)
      requires Valid() && k in lists && 1 <= level <= MAX_LEVEL
      modifies Repr
      ensures Valid() && fresh(Repr - old(Repr)) && k in old(View())
      ensures View() == old(View())[k := S.InsertAbsent(old(View())[k], ts, S.VersionEntry(value, S.PENDING, {}))]
    {
      var _ := lists[k].Insert(ts, S.VersionEntry(value, S.PENDING, {}), level);
      Repr := Repr + lists[k].Repr;
      OtherListsStay(k);
      StillValid(k);
      ViewChanged(k);
    }

    method RemoveVersion(k: Key, ts: Instant)
      requires Valid() && k in lists
      modifies Repr
      ensures Valid() && fresh(Repr - old(Repr)) && k in old(View())
      ensures View() == old(View())[k := S.RemoveVersion(old(View())[k], ts)]
    {
      var _ := lists[k].Remove(ts);
      assert lists[k].view == old(lists[k].view) - {ts};
      OtherListsStay(k);
      StillValid(k);
      ViewChanged(k);
    }
  }
}
