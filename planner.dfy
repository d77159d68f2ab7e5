/**
 * The packing run that the app starts from its item list: drop the items
 * that fit the container in no orientation, build the environment over the
 * rest with the default cap of 50 containers, and run the simulation.
 */
module Planner {
  import opened Geometry
  import opened Sorting
  import opened Items
  import opened Containers
  import opened Search
  import opened Packing

  /** `max_containers` when the app builds the environment without naming it. */
  const DefaultMaxContainers: int := 50

  /** `o[0] <= W and o[1] <= L and o[2] <= H`. */
  predicate FitsWithin(o: Dims, width: real, length: real, height: real)
  {
    o.dx <= width && o.dy <= length && o.dz <= height
  }

  /** `any(...)` over the orientations, stopping at the first that fits. */
  function AnyFits(os: seq<Dims>, width: real, length: real, height: real): (r: bool)
    ensures r <==> exists k :: 0 <= k < |os| && FitsWithin(os[k], width, length, height)
  {
    if os == [] then false
    else if FitsWithin(os[0], width, length, height) then true
    else
      var rest := AnyFits(os[1..], width, length, height);
      assert forall k :: 1 <= k < |os| ==> os[k] == os[1..][k - 1];
      rest
  }

  /** The item goes to `valid_items`. */
  predicate IsPackable(item: Item, width: real, length: real, height: real)
  {
    AnyFits(item.Orientations(), width, length, height)
  }

  /** An item is kept exactly when some rotation of its extents fits the
      container, whichever rotation that is. */
  lemma PackableIffSomeRotationFits(item: Item, width: real, length: real, height: real)
    ensures IsPackable(item, width, length, height)
        <==> exists o :: IsRotationOf(o, item) && FitsWithin(o, width, length, height)
  {
    if IsPackable(item, width, length, height) {
      PackableHasFittingRotation(item, width, length, height);
    }
    if o :| IsRotationOf(o, item) && FitsWithin(o, width, length, height) {
      FittingRotationPackable(item, o, width, length, height);
    }
  }

  lemma PackableHasFittingRotation(item: Item, width: real, length: real, height: real)
    requires IsPackable(item, width, length, height)
    ensures exists o :: IsRotationOf(o, item) && FitsWithin(o, width, length, height)
  {
    var os := item.Orientations();
    var k :| 0 <= k < |os| && FitsWithin(os[k], width, length, height);
    assert IsRotationOf(os[k], item) by {
      OrientationsWellFormed(item);
    }
  }

  lemma FittingRotationPackable(item: Item, o: Dims, width: real, length: real, height: real)
    requires IsRotationOf(o, item) && FitsWithin(o, width, length, height)
    ensures IsPackable(item, width, length, height)
  {
    var os := item.Orientations();
    assert o in os by {
      OrientationsComplete(item, o);
    }
    var k :| 0 <= k < |os| && os[k] == o;
  }

  /** The items on one side of the filter, in input order. */
  function Select(items: seq<Item>, width: real, length: real, height: real, packable: bool): seq<Item>
  {
    if items == [] then []
    else
      Select(items[..|items| - 1], width, length, height, packable)
      + (if IsPackable(items[|items| - 1], width, length, height) == packable then [items[|items| - 1]] else [])
  }

  /** Together the two lists hold the input, each item as often as there. */
  lemma {:induction false} SelectPartition(items: seq<Item>, width: real, length: real, height: real)
    ensures multiset(Select(items, width, length, height, true)) + multiset(Select(items, width, length, height, false))
         == multiset(items)
  {
    if items != [] {
      var init, last := items[..|items| - 1], items[|items| - 1];
      SelectPartition(init, width, length, height);
      assert items == init + [last];
    }
  }

  /** An item of the input is in exactly the list of its side, and nothing
      else is in either list. */
  lemma {:induction false} SelectMembership(items: seq<Item>, width: real, length: real, height: real, x: Item)
    ensures x in Select(items, width, length, height, true) <==> x in items && IsPackable(x, width, length, height)
    ensures x in Select(items, width, length, height, false) <==> x in items && !IsPackable(x, width, length, height)
  {
    if items != [] {
      var init, last := items[..|items| - 1], items[|items| - 1];
      SelectMembership(init, width, length, height, x);
      assert items == init + [last];
    }
  }

  /** The loop of the filter: each item goes to `valid` or `oversized`. The
      display string recorded for an oversized item is replaced by the item. */
  method SplitOversized(all: seq<Item>, width: real, length: real, height: real)
    returns (valid: seq<Item>, oversized: seq<Item>)
    ensures valid == Select(all, width, length, height, true)
    ensures oversized == Select(all, width, length, height, false)
  {
    valid, oversized := [], [];
    var i := 0;
    while i < |all|
      invariant 0 <= i <= |all|
      invariant valid == Select(all[..i], width, length, height, true)
      invariant oversized == Select(all[..i], width, length, height, false)
    {
      var item := all[i];
      assert all[..i + 1][..i] == all[..i];
      if AnyFits(item.Orientations(), width, length, height) {
        valid := valid + [item];
      } else {
        oversized := oversized + [item];
      }
      i := i + 1;
    }
    assert all[..|all|] == all;
  }

  /** A kept item within the weight cap always fits an empty container:
      with the filter in front, the search fails on a fresh container only
      for an item heavier than the cap. */
  lemma PackableFitsEmpty(item: Item, width: real, length: real, height: real, maxWeight: real)
    requires IsPackable(item, width, length, height) && item.weight <= maxWeight
    ensures FirstMin(AllCandidates([EmptyContainer(width, length, height)], item, maxWeight)).Some?
  {
    var os := item.Orientations();
    var k :| 0 <= k < |os| && FitsWithin(os[k], width, length, height);
    var rotated := item.Rotated(os[k]);
    var bounds := Bounds(width, length, height);
    var cs := [EmptyContainer(width, length, height)];
    assert rotated.Extents() == os[k];
    var cand := Candidate(0, rotated, bounds, Score(bounds, rotated));
    assert CanPlace(cs[0], rotated, bounds);
    assert IsCandidate(cs, item, maxWeight, cand);
    AllCandidatesExactly(cs, item, maxWeight);
    FirstMinIsFirstMinimum(AllCandidates(cs, item, maxWeight));
  }

  /** Steps 2 and 3 of the app's packing run: filter, build the environment
      over the kept items, run. Afterwards the environment holds the kept
      items in packing order and the state Run reaches from one empty
      container; either all are placed, or the first unplaced one fits
      nowhere and the cap of containers is reached. */
  method Plan(all: seq<Item>, width: real, length: real, height: real, maxWeight: real)
    returns (env: ContainerPackingEnv, oversized: seq<Item>)
    requires forall i :: 0 <= i < |all| ==> all[i].HasPositiveExtents()
    ensures oversized == Select(all, width, length, height, false)
    ensures env.items == PackingOrder(Select(all, width, length, height, true))
    ensures env.width == width && env.depth == length && env.height == height
    ensures env.maxContainers == DefaultMaxContainers && env.maxWeight == maxWeight
    ensures (env.containers, env.unplaced, env.placedItems)
         == Run(width, length, height, DefaultMaxContainers, maxWeight, [EmptyContainer(width, length, height)],
                PackingOrder(Select(all, width, length, height, true)), [])
    ensures env.Valid()
    ensures env.unplaced == [] || env.Stuck()
  {
    var valid;
    valid, oversized := SplitOversized(all, width, length, height);
    forall i | 0 <= i < |valid| ensures valid[i].HasPositiveExtents() {
      SelectMembership(all, width, length, height, valid[i]);
    }
    env := new ContainerPackingEnv(width, length, height, valid, DefaultMaxContainers, maxWeight);
    RunPackingSimulation(env);
  }
}
