/** The observer list of a cell: removal leaves a tombstone, adding reuses the first one. */
module Observers {

  datatype Observer = Observer(callback: int, userdata: int)

  datatype Slot = Tombstone | Bound(observer: Observer)

  /** The observers a firing loop calls, in its order. */
  function Live(slots: seq<Slot>): seq<Observer> {
    if slots == [] then []
    else
      Live(slots[..|slots| - 1])
      + match slots[|slots| - 1]
        case Tombstone => []
        case Bound(o) => [o]
  }

  /** The place a new observer takes: the first tombstone, else the end. */
  function Place(slots: seq<Slot>): (k: nat)
    ensures k <= |slots| && (k < |slots| ==> slots[k].Tombstone?)
    ensures forall i :: 0 <= i < k ==> slots[i].Bound?
  {
    if slots == [] then 0
    else if slots[0].Tombstone? then 0
    else Place(slots[1..]) + 1
  }

  lemma {:induction false} PlaceIs(slots: seq<Slot>, k: nat)
    requires k <= |slots| && (forall i :: 0 <= i < k ==> slots[i].Bound?) && (k < |slots| ==> slots[k].Tombstone?)
    ensures Place(slots) == k
    decreases k
  {
    if k > 0 { PlaceIs(slots[1..], k - 1); }
  }

  lemma {:induction false} LiveJoin(a: seq<Slot>, b: seq<Slot>)
    ensures Live(a + b) == Live(a) + Live(b)
    decreases |b|
  {
    if b == [] {
      assert a + b == a;
    } else {
      LiveJoin(a, b[..|b| - 1]);
      assert (a + b)[..|a + b| - 1] == a + b[..|b| - 1];
    }
  }

  /** Filling a tombstone adds one observer; burying one removes it. */
  lemma LiveUpdate(slots: seq<Slot>, i: nat, slot: Slot)
    requires i < |slots|
    ensures multiset(Live(slots[i := slot])) + multiset(Live([slots[i]]))
            == multiset(Live(slots)) + multiset(Live([slot]))
  {
    var a, b := slots[..i], slots[i + 1..];
    assert slots == a + [slots[i]] + b && slots[i := slot] == a + [slot] + b;
    LiveJoin(a, [slots[i]]);
    LiveJoin(a + [slots[i]], b);
    LiveJoin(a, [slot]);
    LiveJoin(a + [slot], b);
  }

  lemma LiveOne(slot: Slot)
    ensures Live([slot]) == match slot case Tombstone => [] case Bound(o) => [o]
  {
    assert Live([slot][..0]) == [];
  }

  lemma {:induction false} LiveHas(slots: seq<Slot>, o: Observer)
    ensures o in Live(slots) <==> Bound(o) in slots
    decreases |slots|
  {
    if slots != [] {
      LiveHas(slots[..|slots| - 1], o);
      assert slots == slots[..|slots| - 1] + [slots[|slots| - 1]];
    }
  }

  lemma Buried(slots: seq<Slot>, i: nat, o: Observer)
    requires i < |slots| && slots[i] == Bound(o)
    ensures o in Live(slots) && multiset(Live(slots[i := Tombstone])) == multiset(Live(slots)) - multiset{o}
  {
    hide Live;
    LiveOne(Bound(o));
    LiveOne(Tombstone);
    LiveUpdate(slots, i, Tombstone);
    TakenAway(multiset(Live(slots[i := Tombstone])), multiset(Live(slots)), o);
  }

  lemma TakenAway(a: multiset<Observer>, b: multiset<Observer>, o: Observer)
    requires a + multiset([o]) == b + multiset([])
    ensures o in b && a == b - multiset{o}
  {
    assert multiset([o]) == multiset{o};
    assert b == a + multiset{o};
  }

  lemma NoneBuried(slots: seq<Slot>, o: Observer)
    requires Bound(o) !in slots
    ensures o !in Live(slots) && multiset(Live(slots)) == multiset(Live(slots)) - multiset{o}
  {
    LiveHas(slots, o);
  }

  class ObserverList {
    var items: seq<Slot>

    constructor ()
      ensures items == []
    {
      items := [];
    }

    /** Adds an observer, in the place of the first tombstone if there is one; nobody else moves. */
    method Add(o: Observer)
      modifies this
      ensures multiset(Live(items)) == multiset(Live(old(items))) + multiset{o}
      ensures items == if Place(old(items)) < |old(items)|
                       then old(items)[Place(old(items)) := Bound(o)]
                       else old(items) + [Bound(o)]
    {
      LiveOne(Bound(o));
      LiveOne(Tombstone);
      var i := 0;
      while i < |items|
        invariant i <= |items| && items == old(items) && forall j :: 0 <= j < i ==> items[j].Bound?
      {
        if items[i].Tombstone? {
          PlaceIs(items, i);
          LiveUpdate(items, i, Bound(o));
          items := items[i := Bound(o)];
          return;
        }
        i := i + 1;
      }
      PlaceIs(items, i);
      LiveJoin(items, [Bound(o)]);
      items := items + [Bound(o)];
    }

    /** Removes the first binding of an observer, and says whether there was one. */
    method Remove(o: Observer) returns (found: bool)
      modifies this
      ensures found == (o in Live(old(items)))
      ensures multiset(Live(items)) == multiset(Live(old(items))) - multiset{o}
      ensures !found ==> items == old(items)
      ensures found ==>
                exists i ::
                  && 0 <= i < |old(items)| && old(items)[i] == Bound(o)
                  && (forall j :: 0 <= j < i ==> old(items)[j] != Bound(o)) && items == old(items)[i := Tombstone]
    {
      hide Live;
      var i := 0;
      while i < |items|
        invariant i <= |items| && items == old(items) && forall j :: 0 <= j < i ==> items[j] != Bound(o)
      {
        if items[i] == Bound(o) {
          Buried(items, i, o);
          items := items[i := Tombstone];
          return true;
        }
        i := i + 1;
      }
      NoneBuried(items, o);
      return false;
    }
  }
}
