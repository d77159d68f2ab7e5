/**
 * The best-fit search of `ContainerPackingEnv.step`: every (container,
 * orientation, free cuboid) triple the loops visit, in their order, the
 * score, and the first candidate of least score.
 */
module Search {
  import opened Geometry
  import opened Sorting
  import opened Items
  import opened Containers

  datatype Option<T> = None | Some(value: T)

  /** A fitting triple: the container's position in the list, the item
      turned to the orientation, the free cuboid, and the score. */
  datatype Candidate = Candidate(index: nat, item: Item, space: Space, score: real)

  /** `(space[3] - dx) + (space[4] - dy) + space[2] * 1.5`: leftover width and
      depth plus a penalty for height. */
  function Score(space: Space, item: Item): real
  {
    (space.w - item.dx) + (space.d - item.dy) + space.z * 1.5
  }

  /** `sorted(container['free'], key=lambda s: (s[2], s[1], s[0]))`. */
  function SearchOrder(free: seq<Space>): (r: seq<Space>)
    ensures |r| == |free|
  {
    StableSortBy(free, SearchKey)
  }

  /** Candidates met on the first `n` cuboids of `spaces`. */
  function SpaceCandidates(index: nat, c: Container, item: Item, spaces: seq<Space>, n: nat): seq<Candidate>
    requires n <= |spaces|
  {
    if n == 0 then []
    else
      SpaceCandidates(index, c, item, spaces, n - 1)
      + (if CanPlace(c, item, spaces[n - 1]) then [Candidate(index, item, spaces[n - 1], Score(spaces[n - 1], item))] else [])
  }

  /** Candidates met for the first `n` orientations in `orients`. */
  function OrientationCandidates(index: nat, c: Container, item: Item, orients: seq<Dims>, n: nat): seq<Candidate>
    requires n <= |orients|
  {
    if n == 0 then []
    else
      OrientationCandidates(index, c, item, orients, n - 1)
      + SpaceCandidates(index, c, item.Rotated(orients[n - 1]), SearchOrder(c.free), |c.free|)
  }

  /** Candidates in one container; none when the item's weight would exceed the cap. */
  function ContainerCandidates(index: nat, c: Container, item: Item, maxWeight: real): seq<Candidate>
  {
    if c.weight + item.weight > maxWeight then []
    else OrientationCandidates(index, c, item, item.Orientations(), |item.Orientations()|)
  }

  /** Candidates in the first `n` containers. */
  function CandidatesUpTo(containers: seq<Container>, item: Item, maxWeight: real, n: nat): seq<Candidate>
    requires n <= |containers|
  {
    if n == 0 then []
    else CandidatesUpTo(containers, item, maxWeight, n - 1) + ContainerCandidates(n - 1, containers[n - 1], item, maxWeight)
  }

  /** Every candidate, in the order of the three nested loops of `step`. */
  function AllCandidates(containers: seq<Container>, item: Item, maxWeight: real): seq<Candidate>
  {
    CandidatesUpTo(containers, item, maxWeight, |containers|)
  }

  /** One comparison `if score < best_score`. */
  function Better(best: Option<Candidate>, c: Candidate): Option<Candidate>
  {
    if best.None? || c.score < best.value.score then Some(c) else best
  }

  /** `best_fit` after the loops have visited `cands`. */
  function FirstMin(cands: seq<Candidate>): Option<Candidate>
  {
    if cands == [] then None else Better(FirstMin(cands[..|cands| - 1]), cands[|cands| - 1])
  }

  /** `k` is the first position of least score in `cands`. */
  ghost predicate IsFirstMinimum(cands: seq<Candidate>, k: int)
  {
    && 0 <= k < |cands|
    && (forall j :: 0 <= j < |cands| ==> cands[k].score <= cands[j].score)
    && (forall j :: 0 <= j < k ==> cands[k].score < cands[j].score)
  }

  /** The strict `<` keeps the first candidate of least score. */
  lemma {:induction false} FirstMinIsFirstMinimum(cands: seq<Candidate>)
    ensures FirstMin(cands).None? <==> cands == []
    ensures FirstMin(cands).Some? ==> exists k :: IsFirstMinimum(cands, k) && cands[k] == FirstMin(cands).value
  {
    if cands != [] {
      var n := |cands| - 1;
      var init, last := cands[..n], cands[n];
      FirstMinIsFirstMinimum(init);
      assert FirstMin(cands) == Better(FirstMin(init), last);
      if init == [] {
        assert IsFirstMinimum(cands, 0);
      } else {
        var k :| IsFirstMinimum(init, k) && init[k] == FirstMin(init).value;
        assert forall j :: 0 <= j < n ==> cands[j] == init[j];
        if last.score < init[k].score {
          assert FirstMin(cands).value == cands[n];
          assert IsFirstMinimum(cands, n);
        } else {
          assert FirstMin(cands).value == cands[k];
          assert IsFirstMinimum(cands, k);
        }
      }
    }
  }

  /** A triple the search accepts for `item`: a container with weight
      headroom, an orientation of the item, a free cuboid of that
      container, the fit test passed, and the score computed. */
  ghost predicate IsCandidate(containers: seq<Container>, item: Item, maxWeight: real, cand: Candidate)
  {
    cand.index < |containers| && AcceptedIn(containers[cand.index], item, maxWeight, cand)
  }

  /** The part of IsCandidate about the container itself. */
  ghost predicate AcceptedIn(c: Container, item: Item, maxWeight: real, cand: Candidate)
  {
    && c.weight + item.weight <= maxWeight
    && IsOrientedCopy(cand.item, item)
    && cand.space in c.free
    && CanPlace(c, cand.item, cand.space)
    && cand.score == Score(cand.space, cand.item)
  }

  lemma {:induction false} SpaceCandidatesExactly(index: nat, c: Container, item: Item, spaces: seq<Space>, n: nat)
    requires n <= |spaces|
    ensures forall cand :: cand in SpaceCandidates(index, c, item, spaces, n) <==>
              && cand.index == index && cand.item == item && cand.space in spaces[..n]
              && CanPlace(c, item, cand.space) && cand.score == Score(cand.space, item)
  {
    if n > 0 {
      SpaceCandidatesExactly(index, c, item, spaces, n - 1);
      assert spaces[..n] == spaces[..n - 1] + [spaces[n - 1]];
    }
  }

  lemma SearchOrderSameSpaces(free: seq<Space>)
    ensures forall s :: s in SearchOrder(free) <==> s in free
  {
    forall s ensures s in SearchOrder(free) <==> s in free {
      assert s in SearchOrder(free) <==> s in multiset(SearchOrder(free));
      assert s in free <==> s in multiset(free);
    }
  }

  lemma {:induction false} OrientationCandidatesExactly(index: nat, c: Container, item: Item, orients: seq<Dims>, n: nat)
    requires n <= |orients|
    ensures forall cand :: cand in OrientationCandidates(index, c, item, orients, n) <==>
              && cand.index == index && cand.item.Extents() in orients[..n]
              && cand.item == item.Rotated(cand.item.Extents())
              && cand.space in c.free && CanPlace(c, cand.item, cand.space)
              && cand.score == Score(cand.space, cand.item)
  {
    if n > 0 {
      OrientationCandidatesExactly(index, c, item, orients, n - 1);
      var o := orients[n - 1];
      var spaces := SearchOrder(c.free);
      SpaceCandidatesExactly(index, c, item.Rotated(o), spaces, |c.free|);
      SearchOrderSameSpaces(c.free);
      assert spaces[..|c.free|] == spaces;
      assert orients[..n] == orients[..n - 1] + [o];
      assert item.Rotated(o).Extents() == o;
    }
  }

  lemma ContainerCandidatesExactly(index: nat, c: Container, item: Item, maxWeight: real)
    ensures forall cand :: cand in ContainerCandidates(index, c, item, maxWeight) <==>
              cand.index == index && AcceptedIn(c, item, maxWeight, cand)
  {
    var os := item.Orientations();
    OrientationCandidatesExactly(index, c, item, os, |os|);
    assert os[..|os|] == os;
  }

  lemma {:induction false} CandidatesUpToExactly(containers: seq<Container>, item: Item, maxWeight: real, n: nat)
    requires n <= |containers|
    ensures forall cand :: cand in CandidatesUpTo(containers, item, maxWeight, n) <==>
              cand.index < n && IsCandidate(containers, item, maxWeight, cand)
  {
    if n > 0 {
      CandidatesUpToExactly(containers, item, maxWeight, n - 1);
      ContainerCandidatesExactly(n - 1, containers[n - 1], item, maxWeight);
      var pre := CandidatesUpTo(containers, item, maxWeight, n - 1);
      var here := ContainerCandidates(n - 1, containers[n - 1], item, maxWeight);
      assert CandidatesUpTo(containers, item, maxWeight, n) == pre + here;
      forall cand: Candidate ensures cand in pre + here <==> cand.index < n && IsCandidate(containers, item, maxWeight, cand) {
        assert cand in pre + here <==> cand in pre || cand in here;
      }
    }
  }

  /** The candidates the loops visit are exactly the accepted triples. */
  lemma AllCandidatesExactly(containers: seq<Container>, item: Item, maxWeight: real)
    ensures forall cand :: cand in AllCandidates(containers, item, maxWeight) <==>
              IsCandidate(containers, item, maxWeight, cand)
  {
    CandidatesUpToExactly(containers, item, maxWeight, |containers|);
  }

  ghost predicate InContainerOrder(cs: seq<Candidate>)
  {
    forall i, j :: 0 <= i < j < |cs| ==> cs[i].index <= cs[j].index
  }

  /** Every candidate of `cs` comes from a container before the `n`th. */
  ghost predicate IndicesBelowN(cs: seq<Candidate>, n: nat)
  {
    forall k :: 0 <= k < |cs| ==> cs[k].index < n
  }

  /** Every candidate of `cs` comes from the `n`th container. */
  ghost predicate IndicesAt(cs: seq<Candidate>, n: nat)
  {
    forall k :: 0 <= k < |cs| ==> cs[k].index == n
  }

  lemma IndicesBelow(containers: seq<Container>, item: Item, maxWeight: real, n: nat)
    requires n <= |containers|
    ensures IndicesBelowN(CandidatesUpTo(containers, item, maxWeight, n), n)
  {
    var cs := CandidatesUpTo(containers, item, maxWeight, n);
    CandidatesUpToExactly(containers, item, maxWeight, n);
    forall k | 0 <= k < |cs| ensures cs[k].index < n {
      assert cs[k] in cs;
    }
  }

  lemma IndicesEqual(index: nat, c: Container, item: Item, maxWeight: real)
    ensures IndicesAt(ContainerCandidates(index, c, item, maxWeight), index)
  {
    var cs := ContainerCandidates(index, c, item, maxWeight);
    ContainerCandidatesExactly(index, c, item, maxWeight);
    forall k | 0 <= k < |cs| ensures cs[k].index == index {
      assert cs[k] in cs;
    }
  }

  lemma InContainerOrderAppend(pre: seq<Candidate>, here: seq<Candidate>, n: nat)
    requires InContainerOrder(pre) && IndicesBelowN(pre, n) && IndicesAt(here, n)
    ensures InContainerOrder(pre + here)
  {
    var cs := pre + here;
    forall i, j | 0 <= i < j < |cs| ensures cs[i].index <= cs[j].index {
      if j >= |pre| {
        assert cs[j] == here[j - |pre|];
        if i < |pre| {
          assert cs[i] == pre[i];
        } else {
          assert cs[i] == here[i - |pre|];
        }
      } else {
        assert cs[i] == pre[i] && cs[j] == pre[j];
      }
    }
  }

  /** Containers are searched in creation order. */
  lemma {:induction false} CandidatesInContainerOrder(containers: seq<Container>, item: Item, maxWeight: real, n: nat)
    requires n <= |containers|
    ensures InContainerOrder(CandidatesUpTo(containers, item, maxWeight, n))
  {
    if n > 0 {
      CandidatesInContainerOrder(containers, item, maxWeight, n - 1);
      ContainerOrderStep(containers, item, maxWeight, n);
    }
  }

  lemma ContainerOrderStep(containers: seq<Container>, item: Item, maxWeight: real, n: nat)
    requires 0 < n <= |containers| && InContainerOrder(CandidatesUpTo(containers, item, maxWeight, n - 1))
    ensures InContainerOrder(CandidatesUpTo(containers, item, maxWeight, n))
  {
    var pre := CandidatesUpTo(containers, item, maxWeight, n - 1);
    var here := ContainerCandidates(n - 1, containers[n - 1], item, maxWeight);
    assert CandidatesUpTo(containers, item, maxWeight, n) == pre + here;
    assert IndicesBelowN(pre, n - 1) by {
      IndicesBelow(containers, item, maxWeight, n - 1);
    }
    assert IndicesAt(here, n - 1) by {
      IndicesEqual(n - 1, containers[n - 1], item, maxWeight);
    }
    InContainerOrderAppend(pre, here, n - 1);
  }

  /** Best fit: the chosen triple is accepted, no accepted triple scores
      lower, and every triple visited before it scores strictly higher.
      There is no choice only when no triple is accepted. */
  lemma BestFitIsMinimal(containers: seq<Container>, item: Item, maxWeight: real)
    ensures var best := FirstMin(AllCandidates(containers, item, maxWeight));
            && (best.None? <==> forall cand :: !IsCandidate(containers, item, maxWeight, cand))
            && (best.Some? ==>
                  && IsCandidate(containers, item, maxWeight, best.value)
                  && (forall cand :: IsCandidate(containers, item, maxWeight, cand) ==> best.value.score <= cand.score))
  {
    var all := AllCandidates(containers, item, maxWeight);
    AllCandidatesExactly(containers, item, maxWeight);
    FirstMinIsFirstMinimum(all);
    if all != [] {
      var k :| IsFirstMinimum(all, k) && all[k] == FirstMin(all).value;
      forall cand | IsCandidate(containers, item, maxWeight, cand) ensures all[k].score <= cand.score {
        var j :| 0 <= j < |all| && all[j] == cand;
      }
    } else {
      forall cand ensures !IsCandidate(containers, item, maxWeight, cand) {
        assert cand !in all;
      }
    }
  }

  /** The choice, when there is one, is an accepted triple. */
  lemma ChoiceIsCandidate(containers: seq<Container>, item: Item, maxWeight: real)
    requires FirstMin(AllCandidates(containers, item, maxWeight)).Some?
    ensures IsCandidate(containers, item, maxWeight, FirstMin(AllCandidates(containers, item, maxWeight)).value)
  {
    BestFitIsMinimal(containers, item, maxWeight);
  }

  /** Without a choice no triple is accepted. */
  lemma NoChoiceNoCandidate(containers: seq<Container>, item: Item, maxWeight: real)
    requires FirstMin(AllCandidates(containers, item, maxWeight)).None?
    ensures forall cand :: !IsCandidate(containers, item, maxWeight, cand)
  {
    BestFitIsMinimal(containers, item, maxWeight);
  }

  /** The search with `step`'s retry: when nothing fits and the cap allows,
      open an empty container and search again. Gives the container list
      searched last and the choice made in it. */
  function Choose(containers: seq<Container>, item: Item, maxContainers: int, maxWeight: real,
                  width: real, depth: real, height: real): (r: (seq<Container>, Option<Candidate>))
    ensures r.1.Some? ==> r.1.value.index < |r.0| && r.1.value.space in r.0[r.1.value.index].free
    decreases maxContainers - |containers|
  {
    var best := FirstMin(AllCandidates(containers, item, maxWeight));
    if best.Some? then
      ChoiceIsCandidate(containers, item, maxWeight);
      (containers, best)
    else if |containers| < maxContainers then
      Choose(containers + [EmptyContainer(width, depth, height)], item, maxContainers, maxWeight, width, depth, height)
    else (containers, None)
  }

  /** The retry only appends empty containers, never beyond the cap; it
      stops at the first container list where something fits; and it gives
      up only at the cap with nothing fitting. */
  lemma ChooseOutcome(containers: seq<Container>, item: Item, maxContainers: int, maxWeight: real,
                      width: real, depth: real, height: real)
    ensures var (cs, best) := Choose(containers, item, maxContainers, maxWeight, width, depth, height);
            && |containers| <= |cs| && cs[..|containers|] == containers
            && (forall i :: |containers| <= i < |cs| ==> cs[i] == EmptyContainer(width, depth, height))
            && (|cs| > |containers| ==> |cs| <= maxContainers && AllCandidates(containers, item, maxWeight) == [])
            && best == FirstMin(AllCandidates(cs, item, maxWeight))
            && (best.None? ==> |cs| >= maxContainers)
            && (|containers| >= maxContainers ==> cs == containers)
  {
    ChooseGrowth(containers, item, maxContainers, maxWeight, width, depth, height);
    ChooseResult(containers, item, maxContainers, maxWeight, width, depth, height);
  }

  /** How the container list returned by the retry relates to the one given. */
  lemma {:induction false} ChooseGrowth(containers: seq<Container>, item: Item, maxContainers: int, maxWeight: real,
                                        width: real, depth: real, height: real)
    ensures var cs := Choose(containers, item, maxContainers, maxWeight, width, depth, height).0;
            && |containers| <= |cs| && cs[..|containers|] == containers
            && (forall i :: |containers| <= i < |cs| ==> cs[i] == EmptyContainer(width, depth, height))
            && (|cs| > |containers| ==> |cs| <= maxContainers)
            && (|containers| >= maxContainers ==> cs == containers)
    decreases maxContainers - |containers|
  {
    var best := FirstMin(AllCandidates(containers, item, maxWeight));
    if best.None? && |containers| < maxContainers {
      var more := containers + [EmptyContainer(width, depth, height)];
      assert Choose(containers, item, maxContainers, maxWeight, width, depth, height).0
          == Choose(more, item, maxContainers, maxWeight, width, depth, height).0;
      ChooseGrowth(more, item, maxContainers, maxWeight, width, depth, height);
      var cs := Choose(more, item, maxContainers, maxWeight, width, depth, height).0;
      assert cs[..|containers|] == cs[..|more|][..|containers|];
      assert more[..|containers|] == containers;
      forall i | |containers| <= i < |cs| ensures cs[i] == EmptyContainer(width, depth, height) {
        if i == |containers| {
          assert cs[i] == cs[..|more|][i] == more[i];
        }
      }
    }
  }

  /** What the retry returns as the choice, and when it gives up. */
  lemma {:induction false} ChooseResult(containers: seq<Container>, item: Item, maxContainers: int, maxWeight: real,
                                        width: real, depth: real, height: real)
    ensures var (cs, best) := Choose(containers, item, maxContainers, maxWeight, width, depth, height);
            && (|cs| > |containers| ==> AllCandidates(containers, item, maxWeight) == [])
            && best == FirstMin(AllCandidates(cs, item, maxWeight))
            && (best.None? ==> |cs| >= maxContainers)
    decreases maxContainers - |containers|
  {
    var best := FirstMin(AllCandidates(containers, item, maxWeight));
    if best.None? && |containers| < maxContainers {
      var more := containers + [EmptyContainer(width, depth, height)];
      assert Choose(containers, item, maxContainers, maxWeight, width, depth, height)
          == Choose(more, item, maxContainers, maxWeight, width, depth, height);
      ChooseResult(more, item, maxContainers, maxWeight, width, depth, height);
      assert AllCandidates(containers, item, maxWeight) == [] by {
        FirstMinIsFirstMinimum(AllCandidates(containers, item, maxWeight));
      }
    }
  }

  lemma AppendAssoc(a: seq<Candidate>, b: seq<Candidate>, c: seq<Candidate>)
    ensures (a + b) + c == a + (b + c)
  {
  }

  lemma OrientationCandidatesNext(index: nat, c: Container, item: Item, orients: seq<Dims>, n: nat)
    requires n < |orients|
    ensures OrientationCandidates(index, c, item, orients, n + 1)
         == OrientationCandidates(index, c, item, orients, n)
            + SpaceCandidates(index, c, item.Rotated(orients[n]), SearchOrder(c.free), |SearchOrder(c.free)|)
  {
  }

  lemma CandidatesUpToNext(containers: seq<Container>, item: Item, maxWeight: real, n: nat)
    requires n < |containers|
    ensures CandidatesUpTo(containers, item, maxWeight, n + 1)
         == CandidatesUpTo(containers, item, maxWeight, n) + ContainerCandidates(n, containers[n], item, maxWeight)
  {
  }

  /** The innermost loop of `step`: the free cuboids of one container, in
      search order, for one orientation. */
  method ScanSpaces(ci: nat, c: Container, rotated: Item, spaces: seq<Space>,
                    ghost prefix: seq<Candidate>, best0: Option<Candidate>)
    returns (best: Option<Candidate>, ghost seen: seq<Candidate>)
    requires best0 == FirstMin(prefix)
    ensures seen == prefix + SpaceCandidates(ci, c, rotated, spaces, |spaces|)
    ensures best == FirstMin(seen)
  {
    best := best0;
    seen := prefix;
    var si := 0;
    while si < |spaces|
      invariant 0 <= si <= |spaces|
      invariant seen == prefix + SpaceCandidates(ci, c, rotated, spaces, si)
      invariant best == FirstMin(seen)
    {
      var space := spaces[si];
      if CanPlace(c, rotated, space) {
        var score := Score(space, rotated);
        var cand := Candidate(ci, rotated, space, score);
        if best.None? || score < best.value.score {
          best := Some(cand);
        }
        assert (seen + [cand])[..|seen|] == seen;
        seen := seen + [cand];
      }
      si := si + 1;
    }
  }

  /** The middle loop of `step`: the orientations `orients` of the item on one container. */
  method ScanOrientations(ci: nat, c: Container, item: Item, orients: seq<Dims>,
                          ghost prefix: seq<Candidate>, best0: Option<Candidate>)
    returns (best: Option<Candidate>, ghost seen: seq<Candidate>)
    requires best0 == FirstMin(prefix)
    ensures seen == prefix + OrientationCandidates(ci, c, item, orients, |orients|)
    ensures best == FirstMin(seen)
  {
    best := best0;
    seen := prefix;
    var spaces := SearchOrder(c.free);
    var oi := 0;
    while oi < |orients|
      invariant 0 <= oi <= |orients|
      invariant seen == prefix + OrientationCandidates(ci, c, item, orients, oi)
      invariant best == FirstMin(seen)
    {
      best, seen := ScanOrientation(ci, c, item, orients, oi, spaces, prefix, seen, best);
      oi := oi + 1;
    }
  }

  /** One pass of the orientation loop: all free cuboids for `orients[oi]`. */
  method ScanOrientation(ci: nat, c: Container, item: Item, orients: seq<Dims>, oi: nat, spaces: seq<Space>,
                         ghost prefix: seq<Candidate>, ghost seen0: seq<Candidate>, best0: Option<Candidate>)
    returns (best: Option<Candidate>, ghost seen: seq<Candidate>)
    requires oi < |orients| && spaces == SearchOrder(c.free)
    requires seen0 == prefix + OrientationCandidates(ci, c, item, orients, oi)
    requires best0 == FirstMin(seen0)
    ensures seen == prefix + OrientationCandidates(ci, c, item, orients, oi + 1)
    ensures best == FirstMin(seen)
  {
    var rotated := item.Rotated(orients[oi]);
    ghost var mid := OrientationCandidates(ci, c, item, orients, oi);
    ghost var here := SpaceCandidates(ci, c, rotated, spaces, |spaces|);
    assert OrientationCandidates(ci, c, item, orients, oi + 1) == mid + here by {
      OrientationCandidatesNext(ci, c, item, orients, oi);
    }
    best, seen := ScanSpaces(ci, c, rotated, spaces, seen0, best0);
    AppendAssoc(prefix, mid, here);
  }

  /** One pass of the outer loop of `step`: skip the container without
      weight headroom, otherwise try every orientation on it. */
  method ScanContainer(ci: nat, c: Container, item: Item, maxWeight: real,
                       ghost prefix: seq<Candidate>, best0: Option<Candidate>)
    returns (best: Option<Candidate>, ghost seen: seq<Candidate>)
    requires best0 == FirstMin(prefix)
    ensures seen == prefix + ContainerCandidates(ci, c, item, maxWeight)
    ensures best == FirstMin(seen)
  {
    if c.weight + item.weight > maxWeight {
      assert prefix + [] == prefix;
      return best0, prefix;
    }
    var orients := item.Orientations();
    best, seen := ScanOrientations(ci, c, item, orients, prefix, best0);
  }

  /** The loops of `step`: visit containers in order, skip those without
      weight headroom, try each orientation on the free cuboids in search
      order, and keep the first candidate of least score. */
  method BestFit(containers: seq<Container>, item: Item, maxWeight: real) returns (best: Option<Candidate>)
    ensures best == FirstMin(AllCandidates(containers, item, maxWeight))
  {
    best := None;
    ghost var seen: seq<Candidate> := [];
    var ci := 0;
    while ci < |containers|
      invariant 0 <= ci <= |containers|
      invariant seen == CandidatesUpTo(containers, item, maxWeight, ci)
      invariant best == FirstMin(seen)
    {
      best, seen := ScanContainer(ci, containers[ci], item, maxWeight, seen, best);
      CandidatesUpToNext(containers, item, maxWeight, ci);
      ci := ci + 1;
    }
  }
}
