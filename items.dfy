/**
 * The `Item` class of app.py: three extents, a weight, a name, the volume
 * and the distinct axis-aligned rotations; and the order in which the
 * packing environment takes items (descending volume, then weight).
 */
module Items {
  import opened Geometry
  import opened Sorting

  /** An item to pack. The name is an opaque label; the default name that
      app.py formats from the dimensions is not modelled. */
  datatype Item = Item(dx: real, dy: real, dz: real, weight: real, name: string)
  {
    function Volume(): real
    {
      dx * dy * dz
    }

    function Extents(): Dims
    {
      Dims(dx, dy, dz)
    }

    /** The six permutations in the order app.py lists them. */
    function Permutations(): seq<Dims>
    {
      [Dims(dx, dy, dz), Dims(dx, dz, dy), Dims(dy, dx, dz),
       Dims(dy, dz, dx), Dims(dz, dx, dy), Dims(dz, dy, dx)]
    }

    /** `list(set(permutations))`, with the set's order fixed to first occurrence. */
    function Orientations(): seq<Dims>
    {
      Dedup(Permutations())
    }

    /** The copy of this item turned to orientation `o`:
        `Item(*orientation, item.weight, item.name)`. */
    function Rotated(o: Dims): Item
    {
      Item(o.dx, o.dy, o.dz, weight, name)
    }

    predicate HasPositiveExtents()
    {
      dx > 0.0 && dy > 0.0 && dz > 0.0
    }
  }

  /** `o` uses the three extents of `item`, each exactly once. */
  ghost predicate IsRotationOf(o: Dims, item: Item)
  {
    multiset{o.dx, o.dy, o.dz} == multiset{item.dx, item.dy, item.dz}
  }

  /** `rotated` is a copy of `item` turned to one of its orientations. */
  ghost predicate IsOrientedCopy(rotated: Item, item: Item)
  {
    rotated.Extents() in item.Orientations() && rotated == item.Rotated(rotated.Extents())
  }

  lemma SwapFirst(a: real, b: real, c: real)
    ensures multiset{b, a, c} == multiset{a, b, c}
  {
    assert multiset{b, a, c} == multiset{b} + multiset{a} + multiset{c};
  }

  lemma SwapLast(a: real, b: real, c: real)
    ensures multiset{a, c, b} == multiset{a, b, c}
  {
    assert multiset{a, c, b} == multiset{a} + (multiset{c} + multiset{b});
  }

  lemma RotationsOfThree(a: real, b: real, c: real)
    ensures multiset{a, c, b} == multiset{a, b, c}
    ensures multiset{b, a, c} == multiset{a, b, c}
    ensures multiset{b, c, a} == multiset{a, b, c}
    ensures multiset{c, a, b} == multiset{a, b, c}
    ensures multiset{c, b, a} == multiset{a, b, c}
  {
    SwapLast(a, b, c);
    SwapFirst(a, b, c);
    SwapLast(b, a, c);
    SwapFirst(a, c, b);
    SwapLast(c, a, b);
  }

  lemma PermutationsAreRotations(item: Item)
    ensures forall k :: 0 <= k < 6 ==> IsRotationOf(item.Permutations()[k], item)
  {
    RotationsOfThree(item.dx, item.dy, item.dz);
    var p := item.Permutations();
    assert IsRotationOf(p[0], item) && IsRotationOf(p[1], item) && IsRotationOf(p[2], item);
    assert IsRotationOf(p[3], item) && IsRotationOf(p[4], item) && IsRotationOf(p[5], item);
  }

  /** Every orientation is a rotation of the item, they are pairwise distinct,
      there are at most six, and the unrotated item is the first of them. */
  lemma OrientationsWellFormed(item: Item)
    ensures forall k :: 0 <= k < |item.Orientations()| ==> IsRotationOf(item.Orientations()[k], item)
    ensures NoDup(item.Orientations())
    ensures 1 <= |item.Orientations()| <= 6
    ensures item.Orientations()[0] == item.Extents()
  {
    var p := item.Permutations();
    PermutationsAreRotations(item);
    DedupProperties(p);
    forall k | 0 <= k < |item.Orientations()| ensures IsRotationOf(item.Orientations()[k], item) {
      var o := item.Orientations()[k];
      assert o in p;
    }
    DedupFirst(p);
  }

  /** Every rotation of the item's extents appears among its orientations. */
  lemma OrientationsComplete(item: Item, o: Dims)
    requires IsRotationOf(o, item)
    ensures o in item.Orientations()
  {
    RotationListed(item, o);
    DedupProperties(item.Permutations());
  }

  /** Every rotation of the item's extents is one of the six listed triples. */
  lemma RotationListed(item: Item, o: Dims)
    requires IsRotationOf(o, item)
    ensures o in item.Permutations()
  {
    var a, b, c := item.dx, item.dy, item.dz;
    var m := multiset{a, b, c};
    assert o.dx in m && o.dy in m && o.dz in m;
    if o.dx == a {
      assert multiset{o.dy, o.dz} == multiset{b, c} by {
        assert multiset{o.dx, o.dy, o.dz} - multiset{a} == m - multiset{a};
      }
      assert o.dy in multiset{b, c};
    } else if o.dx == b {
      assert multiset{o.dy, o.dz} == multiset{a, c} by {
        assert multiset{o.dx, o.dy, o.dz} - multiset{b} == m - multiset{b};
      }
      assert o.dy in multiset{a, c};
    } else {
      assert o.dx == c;
      assert multiset{o.dy, o.dz} == multiset{a, b} by {
        assert multiset{o.dx, o.dy, o.dz} - multiset{c} == m - multiset{c};
      }
      assert o.dy in multiset{a, b};
    }
  }

  /** Three distinct extents give six orientations. */
  lemma OrientationCountDistinct(item: Item)
    requires item.dx != item.dy && item.dy != item.dz && item.dx != item.dz
    ensures |item.Orientations()| == 6
  {
    var p := item.Permutations();
    assert NoDup(p);
    DedupOfNoDup(p);
  }

  /** Exactly two equal extents give three orientations. */
  lemma OrientationCountPair(item: Item)
    requires || (item.dx == item.dy && item.dy != item.dz)
             || (item.dy == item.dz && item.dx != item.dy)
             || (item.dx == item.dz && item.dx != item.dy)
    ensures |item.Orientations()| == 3
  {
    if item.dx == item.dy {
      PairCountXY(item);
    } else if item.dy == item.dz {
      PairCountYZ(item);
    } else {
      PairCountXZ(item);
    }
  }

  /** The six permutations, built one at a time. */
  lemma PermutationsSnoc(item: Item)
    ensures var p := item.Permutations();
            p == [p[0]] + [p[1]] + [p[2]] + [p[3]] + [p[4]] + [p[5]]
  {
  }

  lemma PairCountXY(item: Item)
    requires item.dx == item.dy && item.dy != item.dz
    ensures |item.Orientations()| == 3
  {
    var p := item.Permutations();
    var u, v, w := p[0], p[1], p[4];
    assert p[2] == u && p[3] == v && p[5] == w && u != v && u != w && v != w;
    PermutationsSnoc(item);
    assert Dedup([u]) == [u] by { DedupSnoc([], u); assert [] + [u] == [u]; }
    assert Dedup([u] + [v]) == [u, v] by { DedupSnoc([u], v); }
    assert Dedup([u] + [v] + [u]) == [u, v] by { DedupSnoc([u] + [v], u); }
    assert Dedup([u] + [v] + [u] + [v]) == [u, v] by { DedupSnoc([u] + [v] + [u], v); }
    assert Dedup([u] + [v] + [u] + [v] + [w]) == [u, v, w] by { DedupSnoc([u] + [v] + [u] + [v], w); }
    assert Dedup([u] + [v] + [u] + [v] + [w] + [w]) == [u, v, w] by { DedupSnoc([u] + [v] + [u] + [v] + [w], w); }
  }

  lemma PairCountYZ(item: Item)
    requires item.dy == item.dz && item.dx != item.dy
    ensures |item.Orientations()| == 3
  {
    var p := item.Permutations();
    var u, v, w := p[0], p[2], p[3];
    assert p[1] == u && p[4] == v && p[5] == w && u != v && u != w && v != w;
    PermutationsSnoc(item);
    assert Dedup([u]) == [u] by { DedupSnoc([], u); assert [] + [u] == [u]; }
    assert Dedup([u] + [u]) == [u] by { DedupSnoc([u], u); }
    assert Dedup([u] + [u] + [v]) == [u, v] by { DedupSnoc([u] + [u], v); }
    assert Dedup([u] + [u] + [v] + [w]) == [u, v, w] by { DedupSnoc([u] + [u] + [v], w); }
    assert Dedup([u] + [u] + [v] + [w] + [v]) == [u, v, w] by { DedupSnoc([u] + [u] + [v] + [w], v); }
    assert Dedup([u] + [u] + [v] + [w] + [v] + [w]) == [u, v, w] by { DedupSnoc([u] + [u] + [v] + [w] + [v], w); }
  }

  lemma PairCountXZ(item: Item)
    requires item.dx == item.dz && item.dx != item.dy
    ensures |item.Orientations()| == 3
  {
    var p := item.Permutations();
    var u, v, w := p[0], p[1], p[2];
    assert p[3] == w && p[4] == v && p[5] == u && u != v && u != w && v != w;
    PermutationsSnoc(item);
    assert Dedup([u]) == [u] by { DedupSnoc([], u); assert [] + [u] == [u]; }
    assert Dedup([u] + [v]) == [u, v] by { DedupSnoc([u], v); }
    assert Dedup([u] + [v] + [w]) == [u, v, w] by { DedupSnoc([u] + [v], w); }
    assert Dedup([u] + [v] + [w] + [w]) == [u, v, w] by { DedupSnoc([u] + [v] + [w], w); }
    assert Dedup([u] + [v] + [w] + [w] + [v]) == [u, v, w] by { DedupSnoc([u] + [v] + [w] + [w], v); }
    assert Dedup([u] + [v] + [w] + [w] + [v] + [u]) == [u, v, w] by { DedupSnoc([u] + [v] + [w] + [w] + [v], u); }
  }

  /** A cube has a single orientation. */
  lemma OrientationCountCube(item: Item)
    requires item.dx == item.dy == item.dz
    ensures |item.Orientations()| == 1
  {
    var p := item.Permutations();
    var u := p[0];
    assert p[1] == u && p[2] == u && p[3] == u && p[4] == u && p[5] == u;
    PermutationsSnoc(item);
    assert Dedup([u]) == [u] by { DedupSnoc([], u); assert [] + [u] == [u]; }
    assert Dedup([u] + [u]) == [u] by { DedupSnoc([u], u); }
    assert Dedup([u] + [u] + [u]) == [u] by { DedupSnoc([u] + [u], u); }
    assert Dedup([u] + [u] + [u] + [u]) == [u] by { DedupSnoc([u] + [u] + [u], u); }
    assert Dedup([u] + [u] + [u] + [u] + [u]) == [u] by { DedupSnoc([u] + [u] + [u] + [u], u); }
    assert Dedup([u] + [u] + [u] + [u] + [u] + [u]) == [u] by { DedupSnoc([u] + [u] + [u] + [u] + [u], u); }
  }

  /** Turning an item changes neither its volume nor its weight. */
  lemma RotationKeepsVolume(item: Item, o: Dims)
    requires o in item.Orientations()
    ensures item.Rotated(o).Volume() == item.Volume()
    ensures item.Rotated(o).weight == item.weight
  {
    DedupProperties(item.Permutations());
    assert o in item.Permutations();
    var a, b, c := item.dx, item.dy, item.dz;
    assert a * c * b == a * b * c && b * a * c == a * b * c && b * c * a == a * b * c;
    assert c * a * b == a * b * c && c * b * a == a * b * c;
  }

  /** A turned copy of an item with positive extents has positive extents. */
  lemma OrientedCopyPositive(rotated: Item, item: Item)
    requires IsOrientedCopy(rotated, item) && item.HasPositiveExtents()
    ensures rotated.HasPositiveExtents()
  {
    OrientationsWellFormed(item);
    var os := item.Orientations();
    var k :| 0 <= k < |os| && os[k] == rotated.Extents();
    assert IsRotationOf(os[k], item);
    var m := multiset{item.dx, item.dy, item.dz};
    assert rotated.dx in m && rotated.dy in m && rotated.dz in m;
  }

  /** The key of `sorted(items, key=lambda x: (-x.volume, -x.weight))`. */
  function PackingKey(item: Item): seq<real>
  {
    [-item.Volume(), -item.weight]
  }

  /** The order in which ContainerPackingEnv takes its items. */
  function PackingOrder(items: seq<Item>): seq<Item>
  {
    StableSortBy(items, PackingKey)
  }

  /** `a` may come before `b`: larger volume, or equal volume and at least the weight. */
  predicate ComesNoLaterThan(a: Item, b: Item)
  {
    a.Volume() > b.Volume() || (a.Volume() == b.Volume() && a.weight >= b.weight)
  }

  lemma PackingKeyOrder(a: Item, b: Item)
    ensures !LexLess(PackingKey(b), PackingKey(a)) <==> ComesNoLaterThan(a, b)
  {
    var ka, kb := PackingKey(a), PackingKey(b);
    assert kb[1..] == [-b.weight] && ka[1..] == [-a.weight];
    assert kb[1..][1..] == [] && ka[1..][1..] == [];
    assert !LexLess(kb[1..][1..], ka[1..][1..]);
    assert LexLess(kb[1..], ka[1..]) <==> -b.weight < -a.weight;
  }

  /** The items are taken by descending volume, ties by descending weight;
      they are a permutation of the input; and items that tie on both keep
      their input order. */
  lemma PackingOrderCorrect(items: seq<Item>)
    ensures multiset(PackingOrder(items)) == multiset(items)
    ensures forall i, j :: 0 <= i < j < |items| ==>
              ComesNoLaterThan(PackingOrder(items)[i], PackingOrder(items)[j])
    ensures forall k :: WithKey(PackingOrder(items), PackingKey, k) == WithKey(items, PackingKey, k)
  {
    var r := PackingOrder(items);
    StableSortSorted(items, PackingKey);
    forall i, j | 0 <= i < j < |items| ensures ComesNoLaterThan(r[i], r[j]) {
      PackingKeyOrder(r[i], r[j]);
    }
    forall k ensures WithKey(r, PackingKey, k) == WithKey(items, PackingKey, k) {
      StableSortStable(items, PackingKey, k);
    }
  }
}
