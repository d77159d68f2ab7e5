/**
 * One container of ContainerPackingEnv and its free-space tracker: the
 * record `{'free', 'placed', 'weight', 'volume_used'}`, the fit test
 * `_can_place`, the guillotine split `_update_free_spaces`, and the commit
 * that `step` performs on the chosen container.
 */
module Containers {
  import opened Geometry
  import opened Sorting
  import opened Items

  /** `{'item': item, 'x': x, 'y': y, 'z': z}`: an item, already turned, at a position. */
  datatype Placement = Placement(item: Item, x: real, y: real, z: real)
  {
    function Box(): Space
    {
      Space(x, y, z, item.dx, item.dy, item.dz)
    }
  }

  /** The container record; `free` holds `(x, y, z, w, d, h)` cuboids. */
  datatype Container = Container(free: seq<Space>, placed: seq<Placement>, weight: real, volumeUsed: real)

  /** The record `_add_new_container` appends: one free cuboid spanning the container. */
  function EmptyContainer(width: real, depth: real, height: real): Container
  {
    Container([Bounds(width, depth, height)], [], 0.0, 0.0)
  }

  /** The box `item` occupies when put at the origin of `space`. */
  function BoxAt(item: Item, space: Space): Space
  {
    Space(space.x, space.y, space.z, item.dx, item.dy, item.dz)
  }

  function TotalWeight(placed: seq<Placement>): real
  {
    if placed == [] then 0.0
    else TotalWeight(placed[..|placed| - 1]) + placed[|placed| - 1].item.weight
  }

  function TotalVolume(placed: seq<Placement>): real
  {
    if placed == [] then 0.0
    else TotalVolume(placed[..|placed| - 1]) + placed[|placed| - 1].item.Volume()
  }

  /** The collision loop of `_can_place`, which stops at the first placed
      box that meets `box`. */
  function NoCollision(placed: seq<Placement>, box: Space): (r: bool)
    ensures r <==> forall i :: 0 <= i < |placed| ==> Disjoint(box, placed[i].Box())
  {
    if placed == [] then true
    else if !Disjoint(box, placed[0].Box()) then false
    else NoCollision(placed[1..], box)
  }

  /** `_can_place`: the turned item fits the space's extents and, put at the
      space's origin, meets no placed box. */
  function CanPlace(c: Container, item: Item, space: Space): (r: bool)
    ensures r <==> && item.dx <= space.w && item.dy <= space.d && item.dz <= space.h
                   && forall i :: 0 <= i < |c.placed| ==> Disjoint(BoxAt(item, space), c.placed[i].Box())
  {
    if item.dx > space.w || item.dy > space.d || item.dz > space.h then false
    else NoCollision(c.placed, BoxAt(item, space))
  }

  /** Python's `list.remove`: drop the first occurrence. */
  function RemoveFirst(s: seq<Space>, x: Space): (r: seq<Space>)
    requires x in s
    ensures |r| == |s| - 1
    ensures multiset(r) == multiset(s) - multiset{x}
  {
    assert s == [s[0]] + s[1..];
    if s[0] == x then s[1..]
    else [s[0]] + RemoveFirst(s[1..], x)
  }

  lemma {:induction false} RemoveFirstNoDup(s: seq<Space>, x: Space)
    requires x in s && NoDup(s)
    ensures x !in RemoveFirst(s, x)
    ensures forall f :: f in RemoveFirst(s, x) ==> f in s
  {
    assert s == [s[0]] + s[1..];
    if s[0] != x {
      RemoveFirstNoDup(s[1..], x);
    }
  }

  /** The (up to) three cuboids right of, in front of and above the item
      placed at (x, y, z) in `space`. */
  function Residuals(space: Space, x: real, y: real, z: real, item: Item): (r: seq<Space>)
    ensures |r| <= 3
  {
    (if item.dx < space.w then [Space(x + item.dx, y, z, space.w - item.dx, space.d, space.h)] else [])
    + (if item.dy < space.d then [Space(x, y + item.dy, z, space.w, space.d - item.dy, space.h)] else [])
    + (if item.dz < space.h then [Space(x, y, z + item.dz, space.w, space.d, space.h - item.dz)] else [])
  }

  /** The generator `f for f in free if f[3]>0 and f[4]>0 and f[5]>0`. */
  function KeepWithVolume(s: seq<Space>): (r: seq<Space>)
    ensures forall f :: f in r <==> f in s && HasVolume(f)
  {
    if s == [] then []
    else
      assert s == [s[0]] + s[1..];
      (if HasVolume(s[0]) then [s[0]] else []) + KeepWithVolume(s[1..])
  }

  /** `_update_free_spaces`: remove the consumed cuboid, append the
      residuals, keep those with volume, drop duplicates and sort by the
      tuple. Python's `set` enumeration order is replaced by first
      occurrence; after sorting the result does not depend on it
      (Sorting.SortedSetUnique). */
  function UpdateFreeSpaces(free: seq<Space>, space: Space, x: real, y: real, z: real, item: Item): seq<Space>
    requires space in free
  {
    StableSortBy(Dedup(KeepWithVolume(RemoveFirst(free, space) + Residuals(space, x, y, z, item))), TupleKey)
  }

  /** After the update the free list holds exactly the cuboids with volume
      among the remaining ones and the residuals, sorted by their tuple and
      each once. */
  lemma UpdateFreeSpacesCorrect(free: seq<Space>, space: Space, x: real, y: real, z: real, item: Item)
    requires space in free
    ensures var r := UpdateFreeSpaces(free, space, x, y, z, item);
            && (forall f :: f in r <==> HasVolume(f) && (f in RemoveFirst(free, space) || f in Residuals(space, x, y, z, item)))
            && SortedBy(r, TupleKey) && NoDup(r)
  {
    var kept := KeepWithVolume(RemoveFirst(free, space) + Residuals(space, x, y, z, item));
    var unique := Dedup(kept);
    DedupProperties(kept);
    var r := StableSortBy(unique, TupleKey);
    StableSortSorted(unique, TupleKey);
    SortNoDup(unique, TupleKey);
    SameElements(unique, r);
    forall f ensures f in unique <==> f in kept {
      if f in kept {
        var k :| 0 <= k < |kept| && kept[k] == f;
      }
      if f in unique {
        var k :| 0 <= k < |unique| && unique[k] == f;
      }
    }
  }

  /** Whatever order Python's `set` hands out the surviving cuboids in,
      sorting them gives the list UpdateFreeSpaces computes. */
  lemma UpdateIndependentOfSetOrder(free: seq<Space>, space: Space, x: real, y: real, z: real, item: Item,
                                    enumeration: seq<Space>)
    requires space in free && NoDup(enumeration)
    requires forall f :: f in enumeration <==>
               HasVolume(f) && (f in RemoveFirst(free, space) || f in Residuals(space, x, y, z, item))
    ensures StableSortBy(enumeration, TupleKey) == UpdateFreeSpaces(free, space, x, y, z, item)
  {
    var sorted := StableSortBy(enumeration, TupleKey);
    UpdateFreeSpacesCorrect(free, space, x, y, z, item);
    StableSortSorted(enumeration, TupleKey);
    SortNoDup(enumeration, TupleKey);
    SameElements(enumeration, sorted);
    TupleKeyInjective();
    SortedSetUnique(sorted, UpdateFreeSpaces(free, space, x, y, z, item), TupleKey);
  }

  lemma SameElements(a: seq<Space>, b: seq<Space>)
    requires multiset(a) == multiset(b)
    ensures forall f :: f in a <==> f in b
  {
    forall f ensures f in a <==> f in b {
      assert f in a <==> f in multiset(a);
      assert f in b <==> f in multiset(b);
    }
  }

  lemma SortNoDup(s: seq<Space>, key: Space -> seq<real>)
    requires NoDup(s)
    ensures NoDup(StableSortBy(s, key))
  {
    var r := StableSortBy(s, key);
    forall i, j | 0 <= i < j < |r| ensures r[i] != r[j] {
      if r[i] == r[j] {
        CountedTwice(r, i, j);
        NoDupCount(s, r[i]);
        assert false;
      }
    }
  }

  lemma CountedTwice(r: seq<Space>, i: nat, j: nat)
    requires i < j < |r| && r[i] == r[j]
    ensures multiset(r)[r[i]] >= 2
  {
    var front, back := r[..j], r[j..];
    assert r == front + back;
    assert front[i] == r[i] && back[0] == r[j];
    assert multiset(front)[r[i]] >= 1 && multiset(back)[r[i]] >= 1;
  }

  lemma {:induction false} NoDupCount(s: seq<Space>, x: Space)
    requires NoDup(s)
    ensures multiset(s)[x] <= 1
  {
    if s != [] {
      var t := s[1..];
      assert s == [s[0]] + t;
      assert NoDup(t);
      NoDupCount(t, x);
      if s[0] == x {
        assert x !in t;
      }
    }
  }

  /** The residuals of a placement at the space's origin lie inside the
      consumed space and do not meet the placed box. */
  lemma ResidualsInsideSpace(space: Space, item: Item)
    requires item.dx >= 0.0 && item.dy >= 0.0 && item.dz >= 0.0
    ensures forall f :: f in Residuals(space, space.x, space.y, space.z, item) ==>
              Within(f, space) && Disjoint(f, BoxAt(item, space))
  {
  }

  /** With positive extents the consumed cuboid is gone after the update,
      as long as the free list held it once. */
  lemma ConsumedSpaceRemoved(free: seq<Space>, space: Space, item: Item)
    requires space in free && NoDup(free)
    requires item.HasPositiveExtents()
    ensures space !in UpdateFreeSpaces(free, space, space.x, space.y, space.z, item)
  {
    UpdateFreeSpacesCorrect(free, space, space.x, space.y, space.z, item);
    RemoveFirstNoDup(free, space);
    assert space !in Residuals(space, space.x, space.y, space.z, item);
  }

  /** Free cuboids stay inside the container. */
  lemma FreeSpacesStayInBounds(free: seq<Space>, space: Space, item: Item, bounds: Space)
    requires space in free
    requires forall f :: f in free ==> Within(f, bounds)
    requires item.dx >= 0.0 && item.dy >= 0.0 && item.dz >= 0.0
    ensures forall f :: f in UpdateFreeSpaces(free, space, space.x, space.y, space.z, item) ==> Within(f, bounds)
  {
    var rest := RemoveFirst(free, space);
    forall f | f in rest ensures f in free {
      assert f in multiset(rest);
    }
    ResidualsInsideSpace(space, item);
    UpdateFreeSpacesCorrect(free, space, space.x, space.y, space.z, item);
  }

  /** The update removes exact duplicates and cuboids without volume, but
      not a cuboid lying within another, whatever the comment at app.py:119
      says. A 5x5x5 item at the corner of a 10x10x10 container leaves the
      free list below. For a second such item, `step` tries (5,0,0,5,10,10)
      first in (z, y, x) order, and no later cuboid scores lower, so it
      places the item there. The cuboid in front of the second item then
      lies within the cuboid in front of the first, and both are kept. */
  lemma ContainedCuboidKept()
    ensures var item := Item(5.0, 5.0, 5.0, 1.0, "box");
            var free := [Space(0.0, 0.0, 5.0, 10.0, 10.0, 5.0), Space(0.0, 5.0, 0.0, 10.0, 5.0, 10.0),
                         Space(5.0, 0.0, 0.0, 5.0, 10.0, 10.0)];
            var r := UpdateFreeSpaces(free, free[2], 5.0, 0.0, 0.0, item);
            && Space(5.0, 5.0, 0.0, 5.0, 5.0, 10.0) in r && Space(0.0, 5.0, 0.0, 10.0, 5.0, 10.0) in r
            && Within(Space(5.0, 5.0, 0.0, 5.0, 5.0, 10.0), Space(0.0, 5.0, 0.0, 10.0, 5.0, 10.0))
  {
    var item := Item(5.0, 5.0, 5.0, 1.0, "box");
    var free := [Space(0.0, 0.0, 5.0, 10.0, 10.0, 5.0), Space(0.0, 5.0, 0.0, 10.0, 5.0, 10.0),
                 Space(5.0, 0.0, 0.0, 5.0, 10.0, 10.0)];
    var front := Space(5.0, 5.0, 0.0, 5.0, 5.0, 10.0);
    var rest := RemoveFirst(free, free[2]);
    assert rest == [free[0], free[1]];
    assert Residuals(free[2], 5.0, 0.0, 0.0, item) == [front, Space(5.0, 0.0, 5.0, 5.0, 10.0, 5.0)];
    assert HasVolume(front) && HasVolume(free[1]);
    UpdateFreeSpacesCorrect(free, free[2], 5.0, 0.0, 0.0, item);
  }

  /** What `step` does to the chosen container: append the placement at the
      space's origin, add weight and volume, then update the free list. */
  function Commit(c: Container, item: Item, space: Space): Container
    requires space in c.free
  {
    Container(UpdateFreeSpaces(c.free, space, space.x, space.y, space.z, item),
              c.placed + [Placement(item, space.x, space.y, space.z)],
              c.weight + item.weight,
              c.volumeUsed + item.Volume())
  }

  /** Free cuboids lie inside the container, sorted by their tuple, distinct. */
  ghost predicate FreeValid(free: seq<Space>, bounds: Space)
  {
    (forall f :: f in free ==> Within(f, bounds)) && SortedBy(free, TupleKey) && NoDup(free)
  }

  /** Placed boxes lie inside the container and are pairwise interior-disjoint. */
  ghost predicate PlacedValid(placed: seq<Placement>, bounds: Space)
  {
    && (forall i :: 0 <= i < |placed| ==> Within(placed[i].Box(), bounds))
    && (forall i, j :: 0 <= i < j < |placed| ==> Disjoint(placed[i].Box(), placed[j].Box()))
  }

  /** The container invariant: valid free list and placements; accumulators
      equal to the sums over the placed items; the weight cap respected
      once anything is placed. */
  ghost predicate ContainerValid(c: Container, width: real, depth: real, height: real, maxWeight: real)
  {
    && FreeValid(c.free, Bounds(width, depth, height))
    && PlacedValid(c.placed, Bounds(width, depth, height))
    && c.weight == TotalWeight(c.placed)
    && c.volumeUsed == TotalVolume(c.placed)
    && (c.placed != [] ==> c.weight <= maxWeight)
  }

  lemma EmptyContainerValid(width: real, depth: real, height: real, maxWeight: real)
    ensures ContainerValid(EmptyContainer(width, depth, height), width, depth, height, maxWeight)
  {
  }

  lemma FreeValidAfterUpdate(free: seq<Space>, space: Space, item: Item, bounds: Space)
    requires FreeValid(free, bounds) && space in free
    requires item.HasPositiveExtents()
    ensures FreeValid(UpdateFreeSpaces(free, space, space.x, space.y, space.z, item), bounds)
  {
    FreeSpacesStayInBounds(free, space, item, bounds);
    UpdateFreeSpacesCorrect(free, space, space.x, space.y, space.z, item);
  }

  lemma PlacedValidAfterAppend(placed: seq<Placement>, p: Placement, bounds: Space)
    requires PlacedValid(placed, bounds) && Within(p.Box(), bounds)
    requires forall i :: 0 <= i < |placed| ==> Disjoint(p.Box(), placed[i].Box())
    ensures PlacedValid(placed + [p], bounds)
  {
    var r := placed + [p];
    forall i, j | 0 <= i < j < |r| ensures Disjoint(r[i].Box(), r[j].Box()) {
      if j == |placed| {
        assert Disjoint(p.Box(), placed[i].Box());
      } else {
        assert r[i] == placed[i] && r[j] == placed[j];
      }
    }
  }

  lemma TotalsAfterAppend(placed: seq<Placement>, p: Placement)
    ensures TotalWeight(placed + [p]) == TotalWeight(placed) + p.item.weight
    ensures TotalVolume(placed + [p]) == TotalVolume(placed) + p.item.Volume()
  {
    assert (placed + [p])[..|placed|] == placed;
  }

  /** Committing an item that passed the fit test, in a container with
      weight headroom, keeps the container invariant. */
  lemma CommitPreservesValid(c: Container, item: Item, space: Space,
                             width: real, depth: real, height: real, maxWeight: real)
    requires ContainerValid(c, width, depth, height, maxWeight)
    requires space in c.free && CanPlace(c, item, space)
    requires c.weight + item.weight <= maxWeight
    requires item.HasPositiveExtents()
    ensures ContainerValid(Commit(c, item, space), width, depth, height, maxWeight)
  {
    var bounds := Bounds(width, depth, height);
    var p := Placement(item, space.x, space.y, space.z);
    FreeValidAfterUpdate(c.free, space, item, bounds);
    assert p.Box() == BoxAt(item, space);
    assert Within(space, bounds);
    PlacedValidAfterAppend(c.placed, p, bounds);
    TotalsAfterAppend(c.placed, p);
  }
}
