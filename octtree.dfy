// OctTree.cs: an octree over items with cuboid bounds. A node keeps its own
// items in a list; a node holding `maxNumItems` items splits into eight
// children on the next insertion and moves ("dumps") every item that one of
// them takes.
//
// As for the quadtree, a node is a value: the children array belongs to its
// node alone, so an operation that updates a node in place is a function
// from the old node to the new one. `children == null` is the empty
// sequence. `Insert` recurses through `split` with no bound in the source
// (with a threshold of 0, every item that fits a child keeps splitting), so
// it carries a depth bound `fuel`.
module OctTrees {
  import opened Numerics
  import opened Vectors

  /** A node: bounds, the eight children once split (none before), the split
      threshold `maxNumItems`, the counter `numItemsInChildren` and the own
      `items` list. */
  datatype Oct<T> = Oct(bounds: Cuboid, children: seq<Oct<T>>, max: int, inChildren: int, items: seq<T>)

  /** `Count`. */
  function Count<T>(t: Oct<T>): int
  {
    t.inChildren + |t.items|
  }

  /** Every node has no children or exactly eight. */
  predicate Valid<T>(t: Oct<T>)
    decreases t
  {
    (|t.children| == 0 || |t.children| == 8) &&
    forall k :: 0 <= k < |t.children| ==> Valid(t.children[k])
  }

  /** Eight valid children. */
  predicate Valid8<T>(cs: seq<Oct<T>>)
  {
    |cs| == 8 && forall k :: 0 <= k < 8 ==> Valid(cs[k])
  }

  /** The parts of a node no operation changes. */
  predicate Frame<T>(a: Oct<T>, b: Oct<T>)
  {
    a.bounds == b.bounds && a.max == b.max
  }

  /** The bounds of each child, in index order. */
  function BoundsOf<T>(cs: seq<Oct<T>>): (bs: seq<Cuboid>)
    ensures |bs| == |cs| && forall k :: 0 <= k < |cs| ==> bs[k] == cs[k].bounds
  {
    if |cs| == 0 then [] else [cs[0].bounds] + BoundsOf(cs[1..])
  }

  /** `OctTree(boundaries, maxItemsPerNode)`. */
  function Leaf<T>(bounds: Cuboid, max: int): (t: Oct<T>)
    ensures Valid(t) && Count(t) == 0 && Collect(t) == []
  {
    Oct(bounds, [], max, 0, [])
  }

  // ---------------------------------------------------------------------
  // Collect and the items of a subtree
  // ---------------------------------------------------------------------

  /** `Collect`: the node's own items, then each child's, in index order. */
  function Collect<T>(t: Oct<T>): seq<T>
    decreases t, 1
  {
    t.items + CollectFrom(t.children, 0)
  }

  /** `collectFromChildren`, from child `i` on. */
  function CollectFrom<T>(cs: seq<Oct<T>>, i: nat): seq<T>
    requires i <= |cs|
    decreases cs, |cs| - i
  {
    if i == |cs| then [] else Collect(cs[i]) + CollectFrom(cs, i + 1)
  }

  /** The items of a subtree, counted with multiplicity. */
  ghost function Bag<T>(t: Oct<T>): multiset<T>
    decreases t, 1
  {
    multiset(t.items) + BagFrom(t.children, 0)
  }

  ghost function BagFrom<T>(cs: seq<Oct<T>>, i: nat): multiset<T>
    requires i <= |cs|
    decreases cs, |cs| - i
  {
    if i == |cs| then multiset{} else Bag(cs[i]) + BagFrom(cs, i + 1)
  }

  /** `Collect` lists exactly the items of the subtree. */
  lemma {:induction false} CollectIsBag<T>(t: Oct<T>)
    ensures multiset(Collect(t)) == Bag(t)
    decreases t, 1
  {
    CollectFromIsBag(t.children, 0);
  }

  lemma {:induction false} CollectFromIsBag<T>(cs: seq<Oct<T>>, i: nat)
    requires i <= |cs|
    ensures multiset(CollectFrom(cs, i)) == BagFrom(cs, i)
    decreases cs, |cs| - i
  {
    if i < |cs| {
      CollectIsBag(cs[i]);
      CollectFromIsBag(cs, i + 1);
    }
  }

  /** Replacing child `j` replaces its items in the children's items. */
  lemma {:induction false} BagFromUpdate<T>(cs: seq<Oct<T>>, i: nat, j: nat, c: Oct<T>)
    requires i <= j < |cs|
    ensures BagFrom(cs[j := c], i) + Bag(cs[j]) == BagFrom(cs, i) + Bag(c)
    decreases |cs| - i
  {
    var cs' := cs[j := c];
    if i < j {
      BagFromUpdate(cs, i + 1, j, c);
      assert cs'[i] == cs[i];
      assert BagFrom(cs', i) == Bag(cs[i]) + BagFrom(cs', i + 1);
      assert BagFrom(cs, i) == Bag(cs[i]) + BagFrom(cs, i + 1);
      Regroup(Bag(cs[i]), BagFrom(cs', i + 1), Bag(cs[j]), BagFrom(cs, i + 1), Bag(c));
    } else {
      BagFromSame(cs', cs, i + 1);
      assert BagFrom(cs', i) == Bag(c) + BagFrom(cs', i + 1);
      assert BagFrom(cs, i) == Bag(cs[i]) + BagFrom(cs, i + 1);
      Swap(Bag(c), Bag(cs[i]), BagFrom(cs, i + 1));
    }
  }

  /** Adding the same bag to both sides of an equation. */
  lemma Regroup<T>(a: multiset<T>, x: multiset<T>, d: multiset<T>, y: multiset<T>, c: multiset<T>)
    requires x + d == y + c
    ensures (a + x) + d == (a + y) + c
  {
    forall z
      ensures ((a + x) + d)[z] == ((a + y) + c)[z]
    {
      assert (x + d)[z] == (y + c)[z];
    }
  }

  lemma Swap<T>(a: multiset<T>, b: multiset<T>, x: multiset<T>)
    ensures (a + x) + b == (b + x) + a
  {
    forall z
      ensures ((a + x) + b)[z] == ((b + x) + a)[z]
    {
    }
  }

  /** Replacing a bag by a larger one by `d` grows the sum by `d`. */
  lemma Uncancel<T>(s: multiset<T>, before: multiset<T>, t: multiset<T>, after: multiset<T>, d: multiset<T>)
    requires s + before == t + after && after + d == before
    ensures s + d == t
  {
    forall z
      ensures (s + d)[z] == t[z]
    {
      assert (s + before)[z] == (t + after)[z];
    }
  }

  lemma Cancel<T>(s: multiset<T>, before: multiset<T>, t: multiset<T>, after: multiset<T>, d: multiset<T>)
    requires s + before == t + after && after == before + d
    ensures s == t + d
  {
    forall z
      ensures s[z] == (t + d)[z]
    {
      assert (s + before)[z] == (t + after)[z];
    }
  }

  /** Children lists that agree from `i` on hold the same items from `i` on. */
  lemma {:induction false} BagFromSame<T>(cs: seq<Oct<T>>, ds: seq<Oct<T>>, i: nat)
    requires i <= |cs| == |ds| && forall k :: i <= k < |cs| ==> cs[k] == ds[k]
    ensures BagFrom(cs, i) == BagFrom(ds, i)
    decreases |cs| - i
  {
    if i < |cs| {
      BagFromSame(cs, ds, i + 1);
    }
  }

  /** Every item of a subtree lies within the subtree's bounds. */
  ghost predicate Placed<T>(t: Oct<T>, bnd: T -> Cuboid)
    decreases t
  {
    (forall x :: x in Bag(t) ==> t.bounds.Contains(bnd(x))) &&
    forall k :: 0 <= k < |t.children| ==> Placed(t.children[k], bnd)
  }

  /** Every child keeps its items within its bounds. */
  ghost predicate AllPlaced<T>(cs: seq<Oct<T>>, bnd: T -> Cuboid)
  {
    forall k :: 0 <= k < |cs| ==> Placed(cs[k], bnd)
  }

  /** A node that gained an item within its bounds, whose children all keep
      their items within their bounds, keeps its items within its own. */
  lemma GrownPlaced<T>(t: Oct<T>, u: Oct<T>, item: T, bnd: T -> Cuboid)
    requires u.bounds == t.bounds && Bag(u) == Bag(t) + multiset{item}
    ensures Placed(t, bnd) && t.bounds.Contains(bnd(item)) && AllPlaced(u.children, bnd) ==> Placed(u, bnd)
  {
  }

  /** The counter of every node equals the number of items its children
      hold. */
  ghost predicate Counted<T>(t: Oct<T>)
    decreases t
  {
    t.inChildren == |BagFrom(t.children, 0)| &&
    forall k :: 0 <= k < |t.children| ==> Counted(t.children[k])
  }

  ghost predicate AllCounted<T>(cs: seq<Oct<T>>)
  {
    forall k :: 0 <= k < |cs| ==> Counted(cs[k])
  }

  /** On a tree whose counters are right, `Count` is the number of items
      `Collect` lists. */
  lemma CountedCount<T>(t: Oct<T>)
    requires Counted(t)
    ensures Count(t) == |Collect(t)|
  {
    CollectIsBag(t);
    assert |multiset(Collect(t))| == |Collect(t)|;
    assert |Bag(t)| == |t.items| + |BagFrom(t.children, 0)|;
  }

  /** Empty leaves hold no items, within their bounds and counted. */
  lemma EmptyLeaves<T>(cs: seq<Oct<T>>, bnd: T -> Cuboid)
    requires forall k :: 0 <= k < |cs| ==> cs[k].items == [] && cs[k].children == [] && cs[k].inChildren == 0
    ensures AllPlaced(cs, bnd) && AllCounted(cs)
  {
    forall k | 0 <= k < |cs|
      ensures Placed(cs[k], bnd) && Counted(cs[k])
    {
      assert Bag(cs[k]) == multiset{};
    }
  }

  // ---------------------------------------------------------------------
  // Insert, split and dump
  // ---------------------------------------------------------------------

  /** The bounds of the eight children `split` creates. The source passes
      the half sizes where `Cuboid(l, t, n, r, b, f)` expects the far
      corner, so every child's far corner is (w/2, h/2, d/2). */
  function OctantBounds(b: Cuboid): (bs: seq<Cuboid>)
    ensures |bs| == 8
    ensures forall k :: 0 <= k < 8 ==>
              bs[k].r == b.Width() / 2.0 && bs[k].b == b.Height() / 2.0 && bs[k].f == b.Depth() / 2.0
  {
    var w2, h2, d2 := b.Width() / 2.0, b.Height() / 2.0, b.Depth() / 2.0;
    [Cuboid(b.l, b.t, b.n, w2, h2, d2),
     Cuboid(b.l + w2, b.t, b.n, w2, h2, d2),
     Cuboid(b.l + w2, b.t + h2, b.n, w2, h2, d2),
     Cuboid(b.l, b.t + h2, b.n, w2, h2, d2),
     Cuboid(b.l + w2, b.t + h2, b.n + d2, w2, h2, d2),
     Cuboid(b.l + w2, b.t, b.n + d2, w2, h2, d2),
     Cuboid(b.l, b.t + h2, b.n + d2, w2, h2, d2),
     Cuboid(b.l, b.t, b.n + d2, w2, h2, d2)]
  }

  /** Eight empty leaves with the bounds `split` computes. */
  function Octants<T>(b: Cuboid, max: int): (cs: seq<Oct<T>>)
    ensures Valid8(cs) && BoundsOf(cs) == OctantBounds(b) && BagFrom(cs, 0) == multiset{}
    ensures forall k :: 0 <= k < 8 ==> cs[k].max == max && cs[k].items == [] && cs[k].children == [] && cs[k].inChildren == 0
  {
    var bs := OctantBounds(b);
    var cs := [Leaf<T>(bs[0], max), Leaf(bs[1], max), Leaf(bs[2], max), Leaf(bs[3], max),
               Leaf(bs[4], max), Leaf(bs[5], max), Leaf(bs[6], max), Leaf(bs[7], max)];
    EmptyBagFrom(cs, 0);
    cs
  }

  lemma {:induction false} EmptyBagFrom<T>(cs: seq<Oct<T>>, i: nat)
    requires i <= |cs| && forall k :: 0 <= k < |cs| ==> cs[k].items == [] && cs[k].children == []
    ensures BagFrom(cs, i) == multiset{}
    decreases |cs| - i
  {
    if i < |cs| {
      EmptyBagFrom(cs, i + 1);
      assert Bag(cs[i]) == multiset{};
    }
  }

  /** A node whose left side lies beyond half its width never passes an
      item of non-negative width to a child: every child's right side lies
      left of its own left side. */
  lemma OctantsMissOffOrigin(b: Cuboid, small: Cuboid)
    requires 0.0 <= b.Width() && b.Width() / 2.0 < b.l && small.l <= small.r
    ensures forall k :: 0 <= k < 8 ==> !OctantBounds(b)[k].Contains(small)
  {
  }

  /** The first index from `i` on whose cuboid contains `box`, or `|bs|`. */
  function FirstFit(bs: seq<Cuboid>, i: nat, box: Cuboid): (k: nat)
    requires i <= |bs|
    ensures i <= k <= |bs| && (k < |bs| ==> bs[k].Contains(box))
    ensures forall j :: i <= j < k ==> !bs[j].Contains(box)
    decreases |bs| - i
  {
    if i == |bs| || bs[i].Contains(box) then i else FirstFit(bs, i + 1, box)
  }

  /** `Insert`: an item outside the bounds is refused. With children, the
      first of children 0..7 that takes it gets it and the counter goes up;
      if none does, the node keeps it. A leaf holding exactly `maxNumItems`
      items splits and inserts again; any other leaf keeps it. */
  function Insert<T>(t: Oct<T>, item: T, bnd: T -> Cuboid, fuel: nat): (r: Result<(bool, Oct<T>)>)
    requires Valid(t)
    ensures !t.bounds.Contains(bnd(item)) ==> r == Ok((false, t))
    ensures r.Ok? ==> r.value.0 == t.bounds.Contains(bnd(item))
    ensures r.Ok? ==> Valid(r.value.1) && Frame(t, r.value.1)
    ensures r.Ok? && r.value.0 ==> Bag(r.value.1) == Bag(t) + multiset{item}
    ensures r.Ok? && Placed(t, bnd) ==> Placed(r.value.1, bnd)
    ensures r.Ok? && Counted(t) ==> Counted(r.value.1)
    decreases fuel, 0, 0
  {
    if !t.bounds.Contains(bnd(item)) then Ok((false, t))
    else if |t.children| > 0 then
      if fuel == 0 then Err(Diverged)
      else
        match InsertFrom(t.children, 0, item, bnd, fuel - 1)
        case Err(e) => Err(e)
        case Ok((taken, cs)) =>
          var u := Keep(t, item, taken, cs);
          assert Placed(t, bnd) ==> AllPlaced(t.children, bnd);
          assert Counted(t) ==> AllCounted(t.children);
          GrownPlaced(t, u, item, bnd);
          Ok((true, u))
    else if |t.items| == t.max then
      if fuel == 0 then Err(Diverged)
      else
        match Split(t, bnd, fuel - 1)
        case Err(e) => Err(e)
        case Ok(s) => Insert(s, item, bnd, fuel - 1)
    else
      var u := t.(items := t.items + [item]);
      assert Bag(u) == Bag(t) + multiset{item};
      GrownPlaced(t, u, item, bnd);
      Ok((true, u))
  }

  /** The end of `Insert` on a node with children: count the item if a
      child took it, keep it otherwise. */
  function Keep<T>(t: Oct<T>, item: T, taken: bool, cs: seq<Oct<T>>): (u: Oct<T>)
    requires Valid(t) && |t.children| == 8 && Valid8(cs)
    requires !taken ==> cs == t.children
    requires taken ==> BagFrom(cs, 0) == BagFrom(t.children, 0) + multiset{item}
    ensures Valid(u) && Frame(t, u) && u.children == cs
    ensures Bag(u) == Bag(t) + multiset{item}
    ensures Counted(t) && AllCounted(cs) ==> Counted(u)
    ensures taken ==> u.inChildren == t.inChildren + 1 && u.items == t.items
    ensures !taken ==> u.inChildren == t.inChildren && u.items == t.items + [item]
  {
    if taken then t.(children := cs, inChildren := t.inChildren + 1)
    else t.(items := t.items + [item])
  }

  /** The loop of `Insert` over the children, from child `i` on: the first
      child that takes the item gets it. */
  function InsertFrom<T>(cs: seq<Oct<T>>, i: nat, item: T, bnd: T -> Cuboid, fuel: nat): (r: Result<(bool, seq<Oct<T>>)>)
    requires Valid8(cs) && i <= 8
    ensures r.Ok? ==> Valid8(r.value.1) && BoundsOf(r.value.1) == BoundsOf(cs)
    ensures r.Ok? ==> forall k :: 0 <= k < 8 ==> r.value.1[k].max == cs[k].max
    ensures r.Ok? ==> r.value.0 == (FirstFit(BoundsOf(cs), i, bnd(item)) < 8)
    ensures r.Ok? && !r.value.0 ==> r.value.1 == cs
    ensures r.Ok? && r.value.0 ==> forall k :: 0 <= k < 8 && k != FirstFit(BoundsOf(cs), i, bnd(item)) ==>
                                      r.value.1[k] == cs[k]
    ensures r.Ok? && r.value.0 ==> BagFrom(r.value.1, 0) == BagFrom(cs, 0) + multiset{item}
    ensures r.Ok? && AllPlaced(cs, bnd) ==> AllPlaced(r.value.1, bnd)
    ensures r.Ok? && AllCounted(cs) ==> AllCounted(r.value.1)
    decreases fuel, 1, 8 - i
  {
    if i == 8 then Ok((false, cs))
    else
      match Insert(cs[i], item, bnd, fuel)
      case Err(e) => Err(e)
      case Ok((a, c)) =>
        if a then Ok((true, Put(cs, i, item, bnd, c)))
        else InsertFrom(cs, i + 1, item, bnd, fuel)
  }

  /** Child `i` after it took the item. */
  function Put<T>(cs: seq<Oct<T>>, i: nat, item: T, bnd: T -> Cuboid, c: Oct<T>): (cs': seq<Oct<T>>)
    requires Valid8(cs) && i < 8 && Valid(c) && Frame(cs[i], c) && Bag(c) == Bag(cs[i]) + multiset{item}
    ensures Valid8(cs') && BoundsOf(cs') == BoundsOf(cs) && cs' == cs[i := c]
    ensures BagFrom(cs', 0) == BagFrom(cs, 0) + multiset{item}
    ensures AllPlaced(cs, bnd) && Placed(c, bnd) ==> AllPlaced(cs', bnd)
    ensures AllCounted(cs) && Counted(c) ==> AllCounted(cs')
  {
    var cs' := cs[i := c];
    BagFromUpdate(cs, 0, i, c);
    Cancel(BagFrom(cs', 0), Bag(cs[i]), BagFrom(cs, 0), Bag(c), multiset{item});
    UpdateKeeps(cs, i, c, bnd);
    cs'
  }

  /** Replacing child i by a node with the same frame that keeps the
      invariants keeps them for all eight. */
  lemma UpdateKeeps<T>(cs: seq<Oct<T>>, i: nat, c: Oct<T>, bnd: T -> Cuboid)
    requires Valid8(cs) && i < 8 && Valid(c) && Frame(cs[i], c)
    ensures Valid8(cs[i := c]) && BoundsOf(cs[i := c]) == BoundsOf(cs)
    ensures forall k :: 0 <= k < 8 ==> cs[i := c][k].max == cs[k].max
    ensures AllPlaced(cs, bnd) && Placed(c, bnd) ==> AllPlaced(cs[i := c], bnd)
    ensures AllCounted(cs) && Counted(c) ==> AllCounted(cs[i := c])
  {
    var cs' := cs[i := c];
    forall k | 0 <= k < 8 ensures Valid(cs'[k]) && BoundsOf(cs')[k] == BoundsOf(cs)[k] && cs'[k].max == cs[k].max {
      if k != i {
        assert cs'[k] == cs[k];
      }
    }
    if AllPlaced(cs, bnd) && Placed(c, bnd) {
      forall k | 0 <= k < 8 ensures Placed(cs'[k], bnd) {
        if k != i {
          assert cs'[k] == cs[k];
        }
      }
    }
    if AllCounted(cs) && Counted(c) {
      forall k | 0 <= k < 8 ensures Counted(cs'[k]) {
        if k != i {
          assert cs'[k] == cs[k];
        }
      }
    }
  }

  /** The items no child would take, in their order. */
  function Unfit<T>(xs: seq<T>, bs: seq<Cuboid>, bnd: T -> Cuboid): (ys: seq<T>)
    ensures |ys| <= |xs| && forall y :: y in ys ==> y in xs && FirstFit(bs, 0, bnd(y)) == |bs|
  {
    if |xs| == 0 then []
    else (if FirstFit(bs, 0, bnd(xs[0])) < |bs| then [] else [xs[0]]) + Unfit(xs[1..], bs, bnd)
  }

  /** `dump`: each item, in order, goes to the first child that takes it and
      is counted; the others stay, in their order. Returns the children, the
      items kept and the number moved. */
  function Dump<T>(cs: seq<Oct<T>>, xs: seq<T>, bnd: T -> Cuboid, fuel: nat): (r: Result<(seq<Oct<T>>, seq<T>, nat)>)
    requires Valid8(cs)
    ensures r.Ok? ==> Valid8(r.value.0) && BoundsOf(r.value.0) == BoundsOf(cs)
    ensures r.Ok? ==> forall k :: 0 <= k < 8 ==> r.value.0[k].max == cs[k].max
    ensures r.Ok? ==> r.value.1 == Unfit(xs, BoundsOf(cs), bnd) && r.value.2 == |xs| - |r.value.1|
    ensures r.Ok? ==> BagFrom(r.value.0, 0) + multiset(r.value.1) == BagFrom(cs, 0) + multiset(xs)
    ensures r.Ok? && AllPlaced(cs, bnd) ==> AllPlaced(r.value.0, bnd)
    ensures r.Ok? && AllCounted(cs) ==> AllCounted(r.value.0)
    decreases fuel, 2, |xs|
  {
    if |xs| == 0 then Ok((cs, [], 0))
    else
      match InsertFrom(cs, 0, xs[0], bnd, fuel)
      case Err(e) => Err(e)
      case Ok((taken, cs1)) =>
        match Dump(cs1, xs[1..], bnd, fuel)
        case Err(e) => Err(e)
        case Ok((cs2, kept, moved)) => Ok(DumpFirst(cs, xs, bnd, taken, cs1, cs2, kept, moved))
  }

  /** One item of `dump` after the rest: the first item is kept unless a
      child took it. */
  function DumpFirst<T>(cs: seq<Oct<T>>, xs: seq<T>, bnd: T -> Cuboid, taken: bool,
                        cs1: seq<Oct<T>>, cs2: seq<Oct<T>>, kept: seq<T>, moved: nat): (r: (seq<Oct<T>>, seq<T>, nat))
    requires Valid8(cs) && |xs| > 0 && Valid8(cs2)
    requires BoundsOf(cs1) == BoundsOf(cs) && BoundsOf(cs2) == BoundsOf(cs1)
    requires forall k :: 0 <= k < 8 ==> cs2[k].max == cs[k].max
    requires taken == (FirstFit(BoundsOf(cs), 0, bnd(xs[0])) < 8)
    requires !taken ==> cs1 == cs
    requires taken ==> BagFrom(cs1, 0) == BagFrom(cs, 0) + multiset{xs[0]}
    requires kept == Unfit(xs[1..], BoundsOf(cs1), bnd) && moved == |xs| - 1 - |kept|
    requires BagFrom(cs2, 0) + multiset(kept) == BagFrom(cs1, 0) + multiset(xs[1..])
    ensures r.0 == cs2
    ensures r.1 == Unfit(xs, BoundsOf(cs), bnd) && r.2 == |xs| - |r.1|
    ensures BagFrom(r.0, 0) + multiset(r.1) == BagFrom(cs, 0) + multiset(xs)
  {
    assert xs == [xs[0]] + xs[1..];
    assert [] + kept == kept;
    DumpStep(BagFrom(cs2, 0), multiset(kept), BagFrom(cs1, 0), multiset(xs[1..]), BagFrom(cs, 0), xs[0], taken);
    (cs2, if taken then kept else [xs[0]] + kept, if taken then moved + 1 else moved)
  }

  /** The bookkeeping of one step of `dump`. */
  lemma DumpStep<T>(after: multiset<T>, kept: multiset<T>, mid: multiset<T>, rest: multiset<T>,
                    before: multiset<T>, x: T, taken: bool)
    requires after + kept == mid + rest
    requires taken ==> mid == before + multiset{x}
    requires !taken ==> mid == before
    ensures after + (if taken then kept else multiset{x} + kept) == before + (multiset{x} + rest)
  {
    var lhs := after + (if taken then kept else multiset{x} + kept);
    var rhs := before + (multiset{x} + rest);
    forall y
      ensures lhs[y] == rhs[y]
    {
      assert (after + kept)[y] == (mid + rest)[y];
    }
  }

  /** `split`: eight new children, then `dump`; the counter grows by the
      number of items moved. */
  function Split<T>(t: Oct<T>, bnd: T -> Cuboid, fuel: nat): (r: Result<Oct<T>>)
    requires Valid(t) && |t.children| == 0
    ensures r.Ok? ==> Valid(r.value) && Frame(t, r.value) && |r.value.children| == 8
    ensures r.Ok? ==> BoundsOf(r.value.children) == OctantBounds(t.bounds)
    ensures r.Ok? ==> r.value.items == Unfit(t.items, OctantBounds(t.bounds), bnd)
    ensures r.Ok? ==> r.value.inChildren == t.inChildren + (|t.items| - |r.value.items|)
    ensures r.Ok? ==> Bag(r.value) == Bag(t)
    ensures r.Ok? && Placed(t, bnd) ==> Placed(r.value, bnd)
    ensures r.Ok? && Counted(t) ==> Counted(r.value)
    decreases fuel, 3, 0
  {
    var cs0 := Octants<T>(t.bounds, t.max);
    EmptyLeaves(cs0, bnd);
    match Dump(cs0, t.items, bnd, fuel)
    case Err(e) => Err(e)
    case Ok((cs, kept, moved)) =>
      MovedBag(BagFrom(cs, 0), multiset(kept), BagFrom(cs0, 0), multiset(t.items));
      Ok(Adopt(t, cs, kept, moved, bnd))
  }

  /** The end of `split`: the node takes the filled children, keeps what
      they did not take and counts what they did. */
  function Adopt<T>(t: Oct<T>, cs: seq<Oct<T>>, kept: seq<T>, moved: nat, bnd: T -> Cuboid): (u: Oct<T>)
    requires Valid(t) && |t.children| == 0 && Valid8(cs)
    requires multiset(kept) + BagFrom(cs, 0) == multiset(t.items) && moved == |t.items| - |kept|
    ensures Valid(u) && Frame(t, u) && u.children == cs && u.items == kept
    ensures u.inChildren == t.inChildren + moved && Bag(u) == Bag(t)
    ensures Placed(t, bnd) && AllPlaced(cs, bnd) ==> Placed(u, bnd)
    ensures Counted(t) && AllCounted(cs) ==> Counted(u)
  {
    assert Bag(t) == multiset(t.items);
    assert |multiset(kept)| + |BagFrom(cs, 0)| == |multiset(t.items)|;
    t.(children := cs, items := kept, inChildren := t.inChildren + moved)
  }

  /** What `dump` moved into empty children plus what it kept is what the
      node held. */
  lemma MovedBag<T>(moved: multiset<T>, kept: multiset<T>, empty: multiset<T>, held: multiset<T>)
    requires moved + kept == empty + held && empty == multiset{}
    ensures kept + moved == held
  {
    forall y
      ensures (kept + moved)[y] == held[y]
    {
      assert (moved + kept)[y] == (empty + held)[y];
    }
  }

  /** A leaf below its threshold appends the item. */
  lemma LeafInsert<T>(t: Oct<T>, item: T, bnd: T -> Cuboid, fuel: nat)
    requires Valid(t) && |t.children| == 0 && |t.items| != t.max && t.bounds.Contains(bnd(item))
    ensures Insert(t, item, bnd, fuel) == Ok((true, t.(items := t.items + [item])))
  {
  }

  /** A leaf holding more than `maxNumItems` items (as a merge can leave it)
      never splits again: it appends. */
  lemma OverfullLeafAppends<T>(t: Oct<T>, item: T, bnd: T -> Cuboid, fuel: nat)
    requires Valid(t) && |t.children| == 0 && |t.items| > t.max && t.bounds.Contains(bnd(item))
    ensures Insert(t, item, bnd, fuel) == Ok((true, t.(items := t.items + [item])))
  {
  }

  // ---------------------------------------------------------------------
  // Remove
  // ---------------------------------------------------------------------

  /** C#'s `/ 2` on `int`, which truncates toward zero. */
  function Half(n: int): (h: int)
    ensures n >= 0 ==> 0 <= n - 2 * h <= 1
    ensures n < 0 ==> -1 <= n - 2 * h <= 0
  {
    if n >= 0 then n / 2 else -((-n) / 2)
  }

  /** The first index of `x` in `xs`, or `|xs|`. */
  function IndexOf<T(==)>(xs: seq<T>, x: T): (i: nat)
    ensures i <= |xs| && (i < |xs| <==> x in xs)
    ensures i < |xs| ==> xs[i] == x && x !in xs[..i]
  {
    if |xs| == 0 then 0
    else if xs[0] == x then 0
    else
      var i := IndexOf(xs[1..], x);
      assert i < |xs| - 1 ==> xs[1..][..i] == xs[1..i + 1];
      1 + i
  }

  /** `items.Remove(item)`: drops the first equal item. */
  function RemoveOwn<T(==)>(t: Oct<T>, item: T): (r: (bool, Oct<T>))
    ensures r.0 <==> item in t.items
    ensures !r.0 ==> r.1 == t
    ensures r.0 ==> r.1 == t.(items := r.1.items) && multiset(r.1.items) + multiset{item} == multiset(t.items)
    ensures r.0 ==> var i := IndexOf(t.items, item);
                    r.1.items[..i] == t.items[..i] && r.1.items[i..] == t.items[i + 1..]
  {
    var i := IndexOf(t.items, item);
    if i < |t.items| then
      assert t.items == t.items[..i] + [item] + t.items[i + 1..];
      (true, t.(items := t.items[..i] + t.items[i + 1..]))
    else (false, t)
  }

  /** `Remove`: an item outside the bounds is refused. With children, the
      first of children 0..7 that removes it ends the search: the counter
      drops by one and, when `(numItemsInChildren + items.Count) / 2` is at
      most `maxNumItems`, the children's items are appended to the node's
      and the children dropped, the counter left as it is. Otherwise the
      first equal own item is removed. */
  function Remove<T(==)>(t: Oct<T>, item: T, bnd: T -> Cuboid): (r: (bool, Oct<T>))
    requires Valid(t)
    ensures !t.bounds.Contains(bnd(item)) ==> r == (false, t)
    ensures Valid(r.1) && Frame(t, r.1)
    ensures !r.0 ==> r.1 == t
    ensures r.0 ==> Bag(r.1) + multiset{item} == Bag(t)
    decreases t, 1
  {
    if !t.bounds.Contains(bnd(item)) then (false, t)
    else if |t.children| > 0 then RemoveBelow(t, item, bnd)
    else
      assert Bag(t) == multiset(t.items);
      var (b, u) := RemoveOwn(t, item);
      assert Bag(u) == multiset(u.items);
      (b, u)
  }

  /** `Remove` on a node with children. */
  function RemoveBelow<T(==)>(t: Oct<T>, item: T, bnd: T -> Cuboid): (r: (bool, Oct<T>))
    requires Valid(t) && |t.children| == 8
    ensures Valid(r.1) && Frame(t, r.1)
    ensures !r.0 ==> r.1 == t
    ensures r.0 ==> Bag(r.1) + multiset{item} == Bag(t)
    decreases t, 0
  {
    var (found, cs) := RemoveFrom(t.children, 0, item, bnd);
    if found then Merge(t, item, cs)
    else
      var (b, u) := RemoveOwn(t, item);
      assert b ==> Bag(u) == multiset(u.items) + BagFrom(t.children, 0);
      (b, u)
  }

  /** The end of `Remove` once child has removed the item: the counter drops
      by one and the children are merged when `Half(counter + items.Count)`
      is at most the threshold. */
  function Merge<T>(t: Oct<T>, item: T, cs: seq<Oct<T>>): (r: (bool, Oct<T>))
    requires Valid(t) && |t.children| == 8 && Valid8(cs)
    requires BagFrom(cs, 0) + multiset{item} == BagFrom(t.children, 0)
    ensures r.0 && Valid(r.1) && Frame(t, r.1) && r.1.inChildren == t.inChildren - 1
    ensures Bag(r.1) + multiset{item} == Bag(t)
    ensures Half(t.inChildren - 1 + |t.items|) <= t.max ==>
              r.1.children == [] && r.1.items == t.items + CollectFrom(cs, 0)
    ensures Half(t.inChildren - 1 + |t.items|) > t.max ==> r.1.children == cs && r.1.items == t.items
  {
    var c := t.inChildren - 1;
    if Half(c + |t.items|) <= t.max then
      var u := t.(children := [], inChildren := c, items := t.items + CollectFrom(cs, 0));
      CollectFromIsBag(cs, 0);
      assert Bag(u) == multiset(t.items) + BagFrom(cs, 0);
      assert Bag(t) == multiset(t.items) + BagFrom(t.children, 0);
      Regroup(multiset(t.items), BagFrom(cs, 0), multiset{item}, BagFrom(t.children, 0), multiset{});
      (true, u)
    else
      var u := t.(children := cs, inChildren := c);
      assert Bag(u) == multiset(t.items) + BagFrom(cs, 0);
      assert Bag(t) == multiset(t.items) + BagFrom(t.children, 0);
      Regroup(multiset(t.items), BagFrom(cs, 0), multiset{item}, BagFrom(t.children, 0), multiset{});
      (true, u)
  }

  /** The loop of `Remove` over the children, from child `i` on. */
  function RemoveFrom<T(==)>(cs: seq<Oct<T>>, i: nat, item: T, bnd: T -> Cuboid): (r: (bool, seq<Oct<T>>))
    requires Valid8(cs) && i <= 8
    ensures Valid8(r.1) && BoundsOf(r.1) == BoundsOf(cs)
    ensures forall k :: 0 <= k < 8 ==> r.1[k].max == cs[k].max
    ensures !r.0 ==> r.1 == cs
    ensures r.0 ==> BagFrom(r.1, 0) + multiset{item} == BagFrom(cs, 0)
    decreases cs, 8 - i
  {
    if i == 8 then (false, cs)
    else
      var (a, c) := Remove(cs[i], item, bnd);
      if a then
        var cs' := cs[i := c];
        BagFromUpdate(cs, 0, i, c);
        Uncancel(BagFrom(cs', 0), Bag(cs[i]), BagFrom(cs, 0), Bag(c), multiset{item});
        UpdateKeeps(cs, i, c, bnd);
        (true, cs')
      else RemoveFrom(cs, i + 1, item, bnd)
  }

  // ---------------------------------------------------------------------
  // CollectIntersection
  // ---------------------------------------------------------------------

  /** The items whose bounds intersect `vol`, in order. */
  function Intersecting<T>(xs: seq<T>, vol: Cuboid, bnd: T -> Cuboid): (ys: seq<T>)
    ensures forall y :: y in ys ==> y in xs && bnd(y).IntersectsWith(vol)
    ensures forall y :: y in xs && bnd(y).IntersectsWith(vol) ==> y in ys
  {
    if |xs| == 0 then []
    else (if bnd(xs[0]).IntersectsWith(vol) then [xs[0]] else []) + Intersecting(xs[1..], vol, bnd)
  }

  /** `CollectIntersection`: nothing from a node whose bounds the volume
      misses; otherwise each child's result in index order, then the node's
      own items that intersect the volume. */
  function CollectIntersection<T>(t: Oct<T>, vol: Cuboid, bnd: T -> Cuboid): (r: seq<T>)
    ensures forall x :: x in r ==> bnd(x).IntersectsWith(vol) && x in Bag(t)
    decreases t, 1
  {
    if !vol.IntersectsWith(t.bounds) then []
    else CollectIntersectionFrom(t.children, 0, vol, bnd) + Intersecting(t.items, vol, bnd)
  }

  function CollectIntersectionFrom<T>(cs: seq<Oct<T>>, i: nat, vol: Cuboid, bnd: T -> Cuboid): (r: seq<T>)
    requires i <= |cs|
    ensures forall x :: x in r ==> bnd(x).IntersectsWith(vol) && x in BagFrom(cs, i)
    decreases cs, |cs| - i
  {
    if i == |cs| then []
    else CollectIntersection(cs[i], vol, bnd) + CollectIntersectionFrom(cs, i + 1, vol, bnd)
  }

  // ---------------------------------------------------------------------
  // Properties across operations
  // ---------------------------------------------------------------------

  /** What `Collect` lists after an insertion: the items before, and the
      new one. */
  lemma InsertCollected<T>(t: Oct<T>, item: T, bnd: T -> Cuboid, fuel: nat)
    requires Valid(t)
    ensures var r := Insert(t, item, bnd, fuel);
            r.Ok? && r.value.0 ==> multiset(Collect(r.value.1)) == multiset(Collect(t)) + multiset{item}
  {
    var r := Insert(t, item, bnd, fuel);
    if r.Ok? && r.value.0 {
      CollectIsBag(t);
      CollectIsBag(r.value.1);
    }
  }

  /** `Remove` keeps every item within the bounds of each node holding it,
      and, on such a tree, reports true exactly when the item was in it. */
  lemma {:induction false} RemoveFinds<T>(t: Oct<T>, item: T, bnd: T -> Cuboid)
    requires Valid(t) && Placed(t, bnd)
    ensures Placed(Remove(t, item, bnd).1, bnd)
    ensures Remove(t, item, bnd).0 <==> item in Bag(t)
    decreases t, 1
  {
    var r := Remove(t, item, bnd);
    if !t.bounds.Contains(bnd(item)) {
    } else {
      if |t.children| > 0 {
        RemoveFromFinds(t.children, 0, item, bnd);
      }
      forall x | x in Bag(r.1)
        ensures x in Bag(t)
      {
        assert x in Bag(r.1) + multiset{item};
      }
    }
  }

  lemma {:induction false} RemoveFromFinds<T>(cs: seq<Oct<T>>, i: nat, item: T, bnd: T -> Cuboid)
    requires Valid8(cs) && i <= 8 && forall k :: 0 <= k < 8 ==> Placed(cs[k], bnd)
    ensures forall k :: 0 <= k < 8 ==> Placed(RemoveFrom(cs, i, item, bnd).1[k], bnd)
    ensures RemoveFrom(cs, i, item, bnd).0 <==> item in BagFrom(cs, i)
    decreases cs, 8 - i
  {
    if i < 8 {
      RemoveFinds(cs[i], item, bnd);
      if !Remove(cs[i], item, bnd).0 {
        RemoveFromFinds(cs, i + 1, item, bnd);
      }
    }
  }

  /** A merge keeps the decremented counter although the node has no
      children left, so `Count` then exceeds the number of items `Collect`
      lists by the old counter less one; a tree whose counters were right
      before has them wrong after. */
  lemma MergeMiscounts<T>(t: Oct<T>, item: T, bnd: T -> Cuboid)
    requires Valid(t) && |t.children| == 8
    ensures var r := Remove(t, item, bnd);
            r.1.children == [] ==> r.0 && Count(r.1) == |Collect(r.1)| + t.inChildren - 1
    ensures var r := Remove(t, item, bnd);
            r.1.children == [] && t.inChildren > 1 ==> !Counted(r.1)
  {
    var r := Remove(t, item, bnd);
    if r.1.children == [] {
      assert Collect(r.1) == r.1.items + [];
      if Counted(r.1) {
        CountedCount(r.1);
      }
    }
  }

  /** The reversed depth test of `Cuboid.IntersectsWith` lets
      `CollectIntersection` prune a node that holds an item intersecting the
      volume: a flat item intersects itself, but not the deeper root. */
  lemma PruneMissesIntersecting()
    ensures var root := Cuboid(0.0, 0.0, 0.0, 10.0, 10.0, 10.0);
            var box := Cuboid(0.0, 0.0, 5.0, 1.0, 1.0, 5.0);
            var id := (c: Cuboid) => c;
            var t := Oct(root, [], 1, 0, [box]);
            Insert(Leaf(root, 1), box, id, 1) == Ok((true, t)) &&
            box.IntersectsWith(box) && Collect(t) == [box] && CollectIntersection(t, box, id) == []
  {
    var root := Cuboid(0.0, 0.0, 0.0, 10.0, 10.0, 10.0);
    var box := Cuboid(0.0, 0.0, 5.0, 1.0, 1.0, 5.0);
    var t := Oct(root, [], 1, 0, [box]);
    assert [] + [box] == [box];
    assert Collect(t) == [box] + [];
  }
}
