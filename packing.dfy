/**
 * ContainerPackingEnv and run_packing_simulation of app.py: the environment
 * holds the containers opened so far, the items still to place (largest
 * first) and the items placed, and places one item per step by best fit,
 * opening a new container when nothing fits and the cap allows it.
 */
module Packing {
  import opened Geometry
  import opened Sorting
  import opened Items
  import opened Containers
  import opened Search

  /** The second result of `step`: `{}`, `{'placed': True}` or `{'error': ...}`. */
  datatype StepInfo = Nothing | Placed | Error(message: string)

  const NoRoomMessage: string := "Tidak dapat menempatkan item dan kontainer baru tidak diizinkan."

  /** The items of a container's placements, in placing order. */
  function ItemsOf(placed: seq<Placement>): (r: seq<Item>)
    ensures |r| == |placed|
    ensures forall i :: 0 <= i < |placed| ==> r[i] == placed[i].item
  {
    if placed == [] then [] else ItemsOf(placed[..|placed| - 1]) + [placed[|placed| - 1].item]
  }

  /** Every packed item, container by container. */
  function Packed(cs: seq<Container>): seq<Item>
  {
    if cs == [] then [] else Packed(cs[..|cs| - 1]) + ItemsOf(cs[|cs| - 1].placed)
  }

  lemma PackedAppendEmpty(cs: seq<Container>, width: real, depth: real, height: real)
    ensures Packed(cs + [EmptyContainer(width, depth, height)]) == Packed(cs)
  {
    assert (cs + [EmptyContainer(width, depth, height)])[..|cs|] == cs;
  }

  /** Replacing one container trades its items for the new container's. */
  lemma {:induction false} PackedUpdate(cs: seq<Container>, i: nat, c: Container)
    requires i < |cs|
    ensures multiset(Packed(cs[i := c])) + multiset(ItemsOf(cs[i].placed))
         == multiset(Packed(cs)) + multiset(ItemsOf(c.placed))
  {
    var n := |cs| - 1;
    var updated := cs[i := c];
    var here := ItemsOf(cs[n].placed);
    assert Packed(cs) == Packed(cs[..n]) + here;
    if i == n {
      assert updated[..n] == cs[..n];
      assert Packed(updated) == Packed(cs[..n]) + ItemsOf(c.placed);
    } else {
      var shorter := cs[..n][i := c];
      assert updated[..n] == shorter;
      assert updated[n] == cs[n];
      assert Packed(updated) == Packed(shorter) + here;
      PackedUpdate(cs[..n], i, c);
      assert cs[..n][i] == cs[i];
      MultisetShift(multiset(Packed(shorter)), multiset(Packed(cs[..n])), multiset(here),
                    multiset(ItemsOf(cs[i].placed)), multiset(ItemsOf(c.placed)));
    }
  }

  lemma MultisetShift(a: multiset<Item>, b: multiset<Item>, h: multiset<Item>, was: multiset<Item>, now: multiset<Item>)
    requires a + was == b + now
    ensures (a + h) + was == (b + h) + now
  {
    forall e ensures ((a + h) + was)[e] == ((b + h) + now)[e] {
      assert (a + was)[e] == (b + now)[e];
    }
  }

  /** Appending a placement to one container adds exactly its item to the packed items. */
  lemma PackedAfterAppend(cs: seq<Container>, i: nat, c: Container, p: Placement)
    requires i < |cs| && c.placed == cs[i].placed + [p]
    ensures multiset(Packed(cs[i := c])) == multiset(Packed(cs)) + multiset{p.item}
  {
    PackedUpdate(cs, i, c);
    assert c.placed[..|cs[i].placed|] == cs[i].placed;
    assert ItemsOf(c.placed) == ItemsOf(cs[i].placed) + [p.item];
    var x := multiset(ItemsOf(cs[i].placed));
    var a := multiset(Packed(cs[i := c]));
    var b := multiset(Packed(cs)) + multiset{p.item};
    assert a + x == b + x;
    MultisetCancel(a, b, x);
  }

  lemma MultisetCancel(a: multiset<Item>, b: multiset<Item>, x: multiset<Item>)
    requires a + x == b + x
    ensures a == b
  {
    forall e ensures a[e] == b[e] {
      assert (a + x)[e] == (b + x)[e];
    }
  }

  /** Every container of the list keeps the container invariant. */
  ghost predicate AllValid(cs: seq<Container>, width: real, depth: real, height: real, maxWeight: real)
  {
    forall i :: 0 <= i < |cs| ==> ContainerValid(cs[i], width, depth, height, maxWeight)
  }

  /** A commit of an accepted triple keeps every container valid. */
  lemma AllValidAfterCommit(cs: seq<Container>, item: Item, cand: Candidate,
                            width: real, depth: real, height: real, maxWeight: real)
    requires AllValid(cs, width, depth, height, maxWeight)
    requires IsCandidate(cs, item, maxWeight, cand) && item.HasPositiveExtents()
    ensures AllValid(cs[cand.index := Commit(cs[cand.index], cand.item, cand.space)], width, depth, height, maxWeight)
  {
    OrientedCopyPositive(cand.item, item);
    CommitPreservesValid(cs[cand.index], cand.item, cand.space, width, depth, height, maxWeight);
  }

  /** The placed items are turned copies of the first items, in order. */
  ghost predicate PlacedInOrder(placed: seq<Item>, items: seq<Item>)
  {
    && |placed| <= |items|
    && forall i :: 0 <= i < |placed| ==> IsOrientedCopy(placed[i], items[i])
  }

  lemma PlacedInOrderAppend(placed: seq<Item>, items: seq<Item>, rotated: Item)
    requires PlacedInOrder(placed, items) && |placed| < |items|
    requires IsOrientedCopy(rotated, items[|placed|])
    ensures PlacedInOrder(placed + [rotated], items)
  {
  }

  /** The environment's invariant: every container keeps the container
      invariant; the cap is respected; the unplaced items are the suffix of
      `items` after the placed ones, and each placed item is a turned copy
      of the item in its position; the containers hold exactly the placed
      items. */
  ghost predicate EnvInvariant(width: real, depth: real, height: real, items: seq<Item>,
                               maxContainers: int, maxWeight: real,
                               containers: seq<Container>, unplaced: seq<Item>, placedItems: seq<Item>)
  {
    && AllValid(containers, width, depth, height, maxWeight)
    && (|containers| == 0 || |containers| <= maxContainers)
    && (forall i :: 0 <= i < |items| ==> items[i].HasPositiveExtents())
    && PlacedInOrder(placedItems, items)
    && unplaced == items[|placedItems|..]
    && multiset(Packed(containers)) == multiset(placedItems)
  }

  /** Committing an accepted triple for the first unplaced item keeps the invariant. */
  lemma PlaceKeepsInvariant(width: real, depth: real, height: real, items: seq<Item>,
                            maxContainers: int, maxWeight: real,
                            containers: seq<Container>, unplaced: seq<Item>, placedItems: seq<Item>, cand: Candidate)
    requires EnvInvariant(width, depth, height, items, maxContainers, maxWeight, containers, unplaced, placedItems)
    requires unplaced != [] && IsCandidate(containers, unplaced[0], maxWeight, cand)
    ensures cand.space in containers[cand.index].free
    ensures EnvInvariant(width, depth, height, items, maxContainers, maxWeight,
                         containers[cand.index := Commit(containers[cand.index], cand.item, cand.space)],
                         unplaced[1..], placedItems + [cand.item])
  {
    var item := unplaced[0];
    assert cand.space in containers[cand.index].free;
    var after := containers[cand.index := Commit(containers[cand.index], cand.item, cand.space)];
    var placed := placedItems + [cand.item];
    assert |placedItems| < |items| && item == items[|placedItems|];
    assert AllValid(after, width, depth, height, maxWeight) by {
      AllValidAfterCommit(containers, item, cand, width, depth, height, maxWeight);
    }
    assert multiset(Packed(after)) == multiset(placed) by {
      PackedAfterAppend(containers, cand.index, after[cand.index], Placement(cand.item, cand.space.x, cand.space.y, cand.space.z));
    }
    assert PlacedInOrder(placed, items) by {
      PlacedInOrderAppend(placedItems, items, cand.item);
    }
    assert unplaced[1..] == items[|placed|..];
  }

  /** The state `run_packing_simulation` reaches from containers `cs`, items
      still to place `unplaced` and items placed `placed`: each round takes
      the retry's choice for the head item (Search.Choose), commits it and
      goes on; the first round without a choice keeps the containers the
      retry opened and stops. Items only move from `unplaced`, in order, to
      the end of `placed`. */
  function Run(width: real, depth: real, height: real, maxContainers: int, maxWeight: real,
               cs: seq<Container>, unplaced: seq<Item>, placed: seq<Item>): (r: (seq<Container>, seq<Item>, seq<Item>))
    ensures |r.1| <= |unplaced| && r.1 == unplaced[|unplaced| - |r.1|..]
    ensures placed <= r.2 && |r.2| == |placed| + (|unplaced| - |r.1|)
    decreases |unplaced|
  {
    if unplaced == [] then (cs, unplaced, placed)
    else
      var choice := Choose(cs, unplaced[0], maxContainers, maxWeight, width, depth, height);
      if choice.1.None? then (choice.0, unplaced, placed)
      else
        var cand := choice.1.value;
        var r := Run(width, depth, height, maxContainers, maxWeight,
                     choice.0[cand.index := Commit(choice.0[cand.index], cand.item, cand.space)],
                     unplaced[1..], placed + [cand.item]);
        SuffixOfTail(unplaced, |r.1|);
        r
  }

  lemma SuffixOfTail(s: seq<Item>, k: nat)
    requires 0 < |s| && k < |s|
    ensures s[1..][|s| - 1 - k..] == s[|s| - k..]
  {
  }

  class ContainerPackingEnv {
    const width: real
    const depth: real
    const height: real
    /** The input items in packing order. */
    const items: seq<Item>
    const maxContainers: int
    const maxWeight: real

    var containers: seq<Container>
    var unplaced: seq<Item>
    var placedItems: seq<Item>

    ghost predicate Valid()
      reads this
    {
      EnvInvariant(width, depth, height, items, maxContainers, maxWeight, containers, unplaced, placedItems)
    }

    /** `__init__`: sort the items by descending volume, then weight, and reset. */
    constructor (width: real, depth: real, height: real, input: seq<Item>, maxContainers: int, maxWeight: real)
      requires forall i :: 0 <= i < |input| ==> input[i].HasPositiveExtents()
      ensures this.width == width && this.depth == depth && this.height == height
      ensures this.maxContainers == maxContainers && this.maxWeight == maxWeight
      ensures items == PackingOrder(input)
      ensures containers == (if maxContainers > 0 then [EmptyContainer(width, depth, height)] else [])
      ensures unplaced == items && placedItems == []
      ensures Valid()
    {
      this.width, this.depth, this.height := width, depth, height;
      items := PackingOrder(input);
      this.maxContainers, this.maxWeight := maxContainers, maxWeight;
      new;
      forall i | 0 <= i < |items| ensures items[i].HasPositiveExtents() {
        assert items[i] in multiset(input);
      }
      Reset();
    }

    /** `reset`: no containers, nothing placed, then open the first container. */
    method Reset()
      requires forall i :: 0 <= i < |items| ==> items[i].HasPositiveExtents()
      modifies this
      ensures containers == (if maxContainers > 0 then [EmptyContainer(width, depth, height)] else [])
      ensures unplaced == items && placedItems == []
      ensures Valid()
    {
      containers := [];
      unplaced := items;
      placedItems := [];
      var _ := AddNewContainer();
    }

    /** `_add_new_container`: append an empty container unless at the cap. */
    method AddNewContainer() returns (added: bool)
      requires Valid()
      modifies this
      ensures added <==> old(|containers|) < maxContainers
      ensures containers == if added then old(containers) + [EmptyContainer(width, depth, height)] else old(containers)
      ensures unplaced == old(unplaced) && placedItems == old(placedItems)
      ensures Valid()
    {
      if |containers| < maxContainers {
        EmptyContainerValid(width, depth, height, maxWeight);
        PackedAppendEmpty(containers, width, depth, height);
        containers := containers + [EmptyContainer(width, depth, height)];
        return true;
      }
      return false;
    }

    /** The commit of `step`: pop the item, record the placement in the
        chosen container with its weight and volume, record the placed item,
        and update that container's free list. */
    method Place(cand: Candidate)
      requires Valid() && unplaced != [] && IsCandidate(containers, unplaced[0], maxWeight, cand)
      modifies this
      ensures Valid()
      ensures containers == old(containers)[cand.index := Commit(old(containers)[cand.index], cand.item, cand.space)]
      ensures unplaced == old(unplaced)[1..] && placedItems == old(placedItems) + [cand.item]
    {
      PlaceKeepsInvariant(width, depth, height, items, maxContainers, maxWeight, containers, unplaced, placedItems, cand);
      containers := containers[cand.index := Commit(containers[cand.index], cand.item, cand.space)];
      unplaced := unplaced[1..];
      placedItems := placedItems + [cand.item];
    }

    /** `step`. With nothing left it reports completion. Otherwise it takes
        the first unplaced item and searches (Search.Choose, which opens
        containers while nothing fits and the cap allows): on a choice it
        commits the item to the chosen container and reports a placement;
        without one it reports the error and keeps the items as they were. */
    method Step() returns (done: bool, info: StepInfo)
      requires Valid()
      modifies this
      decreases maxContainers - |containers|
      ensures Valid()
      ensures old(unplaced) == [] ==>
                done && info == Nothing && containers == old(containers) && unplaced == [] && placedItems == old(placedItems)
      ensures old(unplaced) != [] ==>
                var (cs, best) := Choose(old(containers), old(unplaced)[0], maxContainers, maxWeight, width, depth, height);
                if best.Some? then
                  && !done && info == Placed
                  && containers == cs[best.value.index := Commit(cs[best.value.index], best.value.item, best.value.space)]
                  && unplaced == old(unplaced)[1..] && placedItems == old(placedItems) + [best.value.item]
                else
                  && done && info == Error(NoRoomMessage)
                  && containers == cs && unplaced == old(unplaced) && placedItems == old(placedItems)
      ensures done ==> unplaced == [] || Stuck()
      ensures !done ==> unplaced == old(unplaced)[1..] && old(placedItems) < placedItems
    {
      if unplaced == [] {
        return true, Nothing;
      }
      var item := unplaced[0];
      var best := BestFit(containers, item, maxWeight);
      if best.Some? {
        ChoiceIsCandidate(containers, item, maxWeight);
        assert Choose(containers, item, maxContainers, maxWeight, width, depth, height) == (containers, best);
        Place(best.value);
        return false, Placed;
      }
      ghost var before := containers;
      var added := AddNewContainer();
      if added {
        assert Choose(before, item, maxContainers, maxWeight, width, depth, height)
            == Choose(containers, item, maxContainers, maxWeight, width, depth, height);
        done, info := Step();
        return;
      }
      assert Stuck() by {
        NoChoiceNoCandidate(containers, item, maxWeight);
      }
      return true, Error(NoRoomMessage);
    }

    /** The item at the head of `unplaced` fits nowhere and no container can
        be added: the state in which the simulation stops with an error. */
    ghost predicate Stuck()
      reads this
      requires unplaced != []
    {
      && (|containers| >= maxContainers)
      && (forall cand :: !IsCandidate(containers, unplaced[0], maxWeight, cand))
    }
  }

  /** `run_packing_simulation`: step until done or an error. The final state
      is the one Run gives for the state the simulation starts from; in it
      either every item is placed or the first unplaced item fits nowhere
      and the cap is reached. */
  method RunPackingSimulation(env: ContainerPackingEnv)
    requires env.Valid()
    modifies env
    ensures (env.containers, env.unplaced, env.placedItems)
         == Run(env.width, env.depth, env.height, env.maxContainers, env.maxWeight,
                old(env.containers), old(env.unplaced), old(env.placedItems))
    ensures env.Valid()
    ensures env.unplaced == [] || env.Stuck()
  {
    var done := false;
    ghost var target := Run(env.width, env.depth, env.height, env.maxContainers, env.maxWeight,
                            env.containers, env.unplaced, env.placedItems);
    while !done && env.unplaced != []
      invariant env.Valid()
      invariant done ==> env.unplaced == [] || env.Stuck()
      invariant Run(env.width, env.depth, env.height, env.maxContainers, env.maxWeight,
                    env.containers, env.unplaced, env.placedItems) == target
      invariant done ==> (env.containers, env.unplaced, env.placedItems) == target
      decreases |env.unplaced|
    {
      var info;
      done, info := env.Step();
      if info.Error? {
        break;
      }
    }
  }
}
