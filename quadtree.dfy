// QuadTree.cs: a region quadtree over items with rectangular bounds. A node
// keeps its own items in a growable array; once it holds
// `numItemsBeforeSplit` items, the next insertion splits it into four
// midpoint quadrants and moves the items that fit one of them down.
//
// A node is a value here: the source never shares a node between two
// parents (children are created in `split` and dropped in `removeChildren`),
// so an operation that updates a node in place is a function from the old
// node to the new one. `Insert` recurses through `split` with no bound in
// the source (equal point items keep splitting the same quadrant, and with a
// threshold of 0 every item that fits a quadrant does), so it carries a depth
// bound `fuel`.
module QuadTrees {
  import opened Numerics
  import opened Vectors

  /** A node: its bounds, its four children once split (`hasChildren`), the
      split threshold `numItemsBeforeSplit`, the counter
      `numItemsInChildren`, the live entries `items[0 .. numItems)` and the
      length of the `items` array. Array slots past `numItems` are never read
      before they are written, so they are not kept. */
  datatype Tree<T> = Tree(bounds: Rect, children: Option<Quad<T>>, max: int,
                          inChildren: int, items: seq<T>, capacity: nat)

  datatype Quad<T> = Quad(tl: Tree<T>, tr: Tree<T>, bl: Tree<T>, br: Tree<T>)

  /** `ItemCount`. */
  function ItemCount<T>(t: Tree<T>): int
  {
    |t.items| + t.inChildren
  }

  /** What every node satisfies: a threshold that the array fits, a
      non-negative counter that is positive only with children. */
  predicate Valid<T>(t: Tree<T>)
    decreases t
  {
    0 <= t.max <= t.capacity && |t.items| <= t.capacity && 0 <= t.inChildren &&
    (t.inChildren > 0 ==> t.children.Some?) &&
    (t.children.Some? ==> ValidQuad(t.children.value))
  }

  predicate ValidQuad<T>(q: Quad<T>)
    decreases q
  {
    Valid(q.tl) && Valid(q.tr) && Valid(q.bl) && Valid(q.br)
  }

  /** The parts of a node no operation changes. */
  predicate Frame<T>(a: Tree<T>, b: Tree<T>)
  {
    a.bounds == b.bounds && a.max == b.max
  }

  predicate QuadFrame<T>(a: Quad<T>, b: Quad<T>)
  {
    Frame(a.tl, b.tl) && Frame(a.tr, b.tr) && Frame(a.bl, b.bl) && Frame(a.br, b.br)
  }

  /** Every item stored anywhere in the subtree, whatever the counters say. */
  ghost function Bag<T>(t: Tree<T>): multiset<T>
    decreases t
  {
    multiset(t.items) + if t.children.Some? then QuadBag(t.children.value) else multiset{}
  }

  ghost function QuadBag<T>(q: Quad<T>): multiset<T>
    decreases q
  {
    Bag(q.tl) + Bag(q.tr) + Bag(q.bl) + Bag(q.br)
  }

  /** Every item of a subtree lies within the subtree's bounds. */
  ghost predicate Placed<T>(t: Tree<T>, bnd: T -> Rect)
    decreases t
  {
    (forall x :: x in Bag(t) ==> t.bounds.Contains(bnd(x))) &&
    (t.children.Some? ==> PlacedQuad(t.children.value, bnd))
  }

  ghost predicate PlacedQuad<T>(q: Quad<T>, bnd: T -> Rect)
    decreases q
  {
    Placed(q.tl, bnd) && Placed(q.tr, bnd) && Placed(q.bl, bnd) && Placed(q.br, bnd)
  }

  /** `QuadTree(numItemsBeforeSplit, bounds)`: an empty leaf whose array has
      room for `numItemsBeforeSplit` items. */
  function Leaf<T>(max: nat, bounds: Rect): (t: Tree<T>)
    ensures Valid(t) && Bag(t) == multiset{} && ItemCount(t) == 0
    ensures t.bounds == bounds && t.max == max && t.children.None?
  {
    Tree(bounds, None, max, 0, [], max)
  }

  /** `new QuadTree<T>(numItemsBeforeSplit, bounds)` for any threshold: the
      item array of a negative length throws. */
  function Create<T>(max: int, bounds: Rect): (r: Result<Tree<T>>)
    ensures r.Err? <==> max < 0
    ensures r.Err? ==> r.error == Overflow
    ensures r.Ok? ==> Valid(r.value) && Bag(r.value) == multiset{} && ItemCount(r.value) == 0
    ensures r.Ok? ==> r.value.bounds == bounds && r.value.max == max && r.value.children.None?
  {
    if max < 0 then Err(Overflow) else Ok(Leaf(max, bounds))
  }

  // ---------------------------------------------------------------------
  // add
  // ---------------------------------------------------------------------

  /** `add`: a full array is replaced by one of twice the length (a length
      past `int.MaxValue / 2` wraps negative and throws); then the item is
      written at `numItems`, which fails only for an array of length 0. */
  function Add<T>(t: Tree<T>, item: T): (r: Result<Tree<T>>)
    ensures r.Ok? ==> r.value == t.(items := t.items + [item], capacity := r.value.capacity)
    ensures r.Ok? ==> t.capacity <= r.value.capacity
    ensures r.Err? ==> r.error == Overflow || r.error == IndexOutOfRange
    ensures Valid(t) && r.Ok? ==> Valid(r.value)
  {
    if |t.items| >= t.capacity then
      if t.capacity > IntMax / 2 then Err(Overflow)
      else if |t.items| < t.capacity * 2 then Ok(t.(items := t.items + [item], capacity := t.capacity * 2))
      else Err(IndexOutOfRange)
    else Ok(t.(items := t.items + [item]))
  }

  /** `add` doubles a full array of positive length and keeps its entries;
      an array of length 0 stays empty and the write fails. */
  lemma AddDoubles<T>(t: Tree<T>, item: T)
    requires |t.items| == t.capacity <= IntMax / 2
    ensures t.capacity > 0 ==> Add(t, item) == Ok(t.(items := t.items + [item], capacity := 2 * t.capacity))
    ensures t.capacity == 0 ==> Add(t, item) == Err(IndexOutOfRange)
  {
  }

  /** `add` over a list, in order. */
  function AddAll<T>(t: Tree<T>, xs: seq<T>): (r: Result<Tree<T>>)
    ensures r.Ok? ==> r.value == t.(items := t.items + xs, capacity := r.value.capacity)
    ensures Valid(t) && r.Ok? ==> Valid(r.value)
    decreases |xs|
  {
    if |xs| == 0 then Ok(t)
    else
      match Add(t, xs[0])
      case Err(e) => Err(e)
      case Ok(t1) =>
        var r := AddAll(t1, xs[1..]);
        assert r.Ok? ==> t.items + xs == t1.items + xs[1..];
        r
  }

  // ---------------------------------------------------------------------
  // Insert and split
  // ---------------------------------------------------------------------

  /** The child at position `k` in the order tl, tr, bl, br. */
  function Child<T>(q: Quad<T>, k: nat): Tree<T>
    requires k < 4
  {
    if k == 0 then q.tl else if k == 1 then q.tr else if k == 2 then q.bl else q.br
  }

  /** The quad with the child at position `k` replaced by `c`. */
  function With<T>(q: Quad<T>, k: nat, c: Tree<T>): (q': Quad<T>)
    requires k < 4
    ensures Child(q', k) == c && forall j :: 0 <= j < 4 && j != k ==> Child(q', j) == Child(q, j)
    ensures QuadBag(q') + Bag(Child(q, k)) == QuadBag(q) + Bag(c)
    ensures ValidQuad(q) && Valid(c) ==> ValidQuad(q')
    ensures Frame(Child(q, k), c) ==> QuadFrame(q, q')
    ensures forall x :: x in QuadBag(q') ==> x in QuadBag(q) || x in Bag(c)
  {
    var q' := if k == 0 then q.(tl := c) else if k == 1 then q.(tr := c) else if k == 2 then q.(bl := c) else q.(br := c);
    QuadBagSwap(q, q', k);
    SumMembers(QuadBag(q'), QuadBag(q), Bag(Child(q, k)), Bag(c));
    q'
  }

  /** Quads that differ only at position k: their sums differ by the
      children there. */
  lemma QuadBagSwap<T>(q: Quad<T>, q': Quad<T>, k: nat)
    requires k < 4 && forall j :: 0 <= j < 4 && j != k ==> Child(q', j) == Child(q, j)
    ensures QuadBag(q') + Bag(Child(q, k)) == QuadBag(q) + Bag(Child(q', k))
  {
    assert Child(q, 0) == q.tl && Child(q, 1) == q.tr && Child(q, 2) == q.bl && Child(q, 3) == q.br;
    assert Child(q', 0) == q'.tl && Child(q', 1) == q'.tr && Child(q', 2) == q'.bl && Child(q', 3) == q'.br;
  }

  /** From sum' + part == sum + part', an element of sum' is in sum or in
      part'. */
  lemma SumMembers<T>(sum': multiset<T>, sum: multiset<T>, part: multiset<T>, part': multiset<T>)
    requires sum' + part == sum + part'
    ensures forall x :: x in sum' ==> x in sum || x in part'
  {
    forall x | x in sum'
      ensures x in sum || x in part'
    {
      assert (sum' + part)[x] == (sum + part')[x];
    }
  }

  /** Replacing one part of a sum by a part with one more `item` adds one
      `item` to the sum. */
  lemma BagShift<T>(sum': multiset<T>, sum: multiset<T>, part: multiset<T>, part': multiset<T>, item: T)
    requires sum' + part == sum + part' && part' == part + multiset{item}
    ensures sum' == sum + multiset{item}
  {
    forall x
      ensures sum'[x] == (sum + multiset{item})[x]
    {
      assert (sum' + part)[x] == (sum + part')[x];
    }
  }

  /** Replacing a child by a placed one keeps the quad placed. */
  lemma WithPlaced<T>(q: Quad<T>, k: nat, c: Tree<T>, bnd: T -> Rect)
    requires k < 4
    ensures PlacedQuad(q, bnd) && Placed(c, bnd) ==> PlacedQuad(With(q, k, c), bnd)
  {
    if PlacedQuad(q, bnd) && Placed(c, bnd) {
      var q' := With(q, k, c);
      assert Placed(Child(q', 0), bnd) && Placed(Child(q', 1), bnd) && Placed(Child(q', 2), bnd) && Placed(Child(q', 3), bnd);
    }
  }

  /** The bounds of the four children, in the order tl, tr, bl, br. */
  function Bounds4<T>(q: Quad<T>): (bs: seq<Rect>)
    ensures |bs| == 4 && forall k :: 0 <= k < 4 ==> bs[k] == Child(q, k).bounds
  {
    [q.tl.bounds, q.tr.bounds, q.bl.bounds, q.br.bounds]
  }

  /** Some child on the list of positions `order` has bounds that contain
      `r`. */
  predicate Accepts(bs: seq<Rect>, order: seq<nat>, r: Rect)
    requires forall i :: 0 <= i < |order| ==> order[i] < |bs|
  {
    |order| > 0 && (bs[order[0]].Contains(r) || Accepts(bs, order[1..], r))
  }

  /** The order in which `Insert` offers an item to the children: tl, tl
      again, br, bl. */
  const InsertOrder: seq<nat> := [0, 0, 3, 2]

  /** The order in which `split` offers each item: tl, tr, bl, br. */
  const SplitOrder: seq<nat> := [0, 1, 2, 3]

  /** `Insert` offers an item to tl, br and bl, and never to tr. */
  lemma InsertOrderSkipsTr(bs: seq<Rect>, r: Rect)
    requires |bs| == 4
    ensures Accepts(bs, InsertOrder, r) <==> bs[0].Contains(r) || bs[3].Contains(r) || bs[2].Contains(r)
  {
    assert InsertOrder[1..] == [0, 3, 2] && [0, 3, 2][1..] == [3, 2] && [3, 2][1..] == [2] && [2][1..] == [];
    assert Accepts(bs, [2], r) == bs[2].Contains(r);
    assert Accepts(bs, [3, 2], r) == (bs[3].Contains(r) || bs[2].Contains(r));
    assert Accepts(bs, [0, 3, 2], r) == (bs[0].Contains(r) || bs[3].Contains(r) || bs[2].Contains(r));
  }

  /** `split` offers each item to all four children. */
  lemma SplitOrderTriesAll(bs: seq<Rect>, r: Rect)
    requires |bs| == 4
    ensures Accepts(bs, SplitOrder, r) <==> exists k :: 0 <= k < 4 && bs[k].Contains(r)
  {
    assert SplitOrder[1..] == [1, 2, 3] && [1, 2, 3][1..] == [2, 3] && [2, 3][1..] == [3] && [3][1..] == [];
    assert Accepts(bs, [3], r) == bs[3].Contains(r);
    assert Accepts(bs, [2, 3], r) == (bs[2].Contains(r) || bs[3].Contains(r));
    assert Accepts(bs, [1, 2, 3], r) == (bs[1].Contains(r) || bs[2].Contains(r) || bs[3].Contains(r));
    assert Accepts(bs, SplitOrder, r) == (bs[0].Contains(r) || bs[1].Contains(r) || bs[2].Contains(r) || bs[3].Contains(r));
  }

  /** The items that no child would take during `split`, in their order. */
  function Kept<T>(xs: seq<T>, bs: seq<Rect>, bnd: T -> Rect): (ks: seq<T>)
    requires |bs| == 4
    ensures |ks| <= |xs| && forall x :: x in ks ==> x in xs && !Accepts(bs, SplitOrder, bnd(x))
  {
    if |xs| == 0 then []
    else (if Accepts(bs, SplitOrder, bnd(xs[0])) then [] else [xs[0]]) + Kept(xs[1..], bs, bnd)
  }

  /** `Insert`: an item outside the bounds is refused. With children, it is
      offered to tl, tl again, br and bl (never to tr); a child that takes it
      is counted in `numItemsInChildren`, and otherwise the node keeps it. A
      leaf below the threshold keeps it; a full leaf splits and inserts
      again. */
  function Insert<T>(t: Tree<T>, item: T, bnd: T -> Rect, fuel: nat): (r: Result<(bool, Tree<T>)>)
    requires Valid(t)
    ensures !t.bounds.Contains(bnd(item)) ==> r == Ok((false, t))
    ensures r.Ok? ==> r.value.0 == t.bounds.Contains(bnd(item))
    ensures r.Ok? ==> Valid(r.value.1) && Frame(t, r.value.1)
    ensures r.Ok? && r.value.0 ==> Bag(r.value.1) == Bag(t) + multiset{item}
    ensures r.Ok? && Placed(t, bnd) ==> Placed(r.value.1, bnd)
    decreases fuel, 0, 0
  {
    if !t.bounds.Contains(bnd(item)) then Ok((false, t))
    else if t.children.Some? then
      if fuel == 0 then Err(Diverged)
      else
        match Offer(t.children.value, item, bnd, InsertOrder, fuel - 1)
        case Err(e) => Err(e)
        case Ok((taken, q)) => Settle(t, item, bnd, taken, q)
    else if |t.items| < t.max then
      match Add(t, item)
      case Err(e) => Err(e)
      case Ok(t1) => Ok((true, t1))
    else if fuel == 0 then Err(Diverged)
    else
      match Split(t, bnd, fuel - 1)
      case Err(e) => Err(e)
      case Ok(s) => Insert(s, item, bnd, fuel - 1)
  }

  /** The end of `Insert` on a node with children, once they have been
      offered the item: count it if one took it, keep it otherwise. */
  function Settle<T>(t: Tree<T>, item: T, bnd: T -> Rect, taken: bool, q: Quad<T>): (r: Result<(bool, Tree<T>)>)
    requires Valid(t) && t.children.Some? && ValidQuad(q) && QuadFrame(t.children.value, q)
    requires !taken ==> q == t.children.value
    requires taken ==> QuadBag(q) == QuadBag(t.children.value) + multiset{item}
    ensures r.Ok? ==> r.value.0 && Valid(r.value.1) && Frame(t, r.value.1)
    ensures r.Ok? ==> Bag(r.value.1) == Bag(t) + multiset{item}
    ensures r.Ok? && taken ==> r.value.1.inChildren == t.inChildren + 1 && r.value.1.items == t.items
    ensures r.Ok? && !taken ==> r.value.1.inChildren == t.inChildren && r.value.1.items == t.items + [item]
    ensures r.Ok? ==> r.value.1.children == Some(q)
    ensures r.Ok? && Placed(t, bnd) && PlacedQuad(q, bnd) && t.bounds.Contains(bnd(item)) ==> Placed(r.value.1, bnd)
  {
    if taken then Ok((true, t.(children := Some(q), inChildren := t.inChildren + 1)))
    else
      match Add(t, item)
      case Err(e) => Err(e)
      case Ok(t1) => Ok((true, t1))
  }

  /** Offers the item to the children at the positions of `order`, one after
      another, until one takes it: `Insert` chains these with `||`. */
  function Offer<T>(q: Quad<T>, item: T, bnd: T -> Rect, order: seq<nat>, fuel: nat): (r: Result<(bool, Quad<T>)>)
    requires ValidQuad(q) && forall i :: 0 <= i < |order| ==> order[i] < 4
    ensures r.Ok? ==> ValidQuad(r.value.1) && QuadFrame(q, r.value.1)
    ensures r.Ok? ==> r.value.0 == Accepts(Bounds4(q), order, bnd(item))
    ensures r.Ok? && !r.value.0 ==> r.value.1 == q
    ensures r.Ok? ==> forall j :: 0 <= j < 4 && j !in order ==> Child(r.value.1, j) == Child(q, j)
    ensures r.Ok? && r.value.0 ==> QuadBag(r.value.1) == QuadBag(q) + multiset{item}
    ensures r.Ok? && PlacedQuad(q, bnd) ==> PlacedQuad(r.value.1, bnd)
    decreases fuel, 1, |order|
  {
    if |order| == 0 then Ok((false, q))
    else
      var k := order[0];
      match Insert(Child(q, k), item, bnd, fuel)
      case Err(e) => Err(e)
      case Ok((a, c)) =>
        if a then
          assert PlacedQuad(q, bnd) ==> Placed(Child(q, k), bnd) && Placed(c, bnd);
          WithPlaced(q, k, c, bnd);
          BagShift(QuadBag(With(q, k, c)), QuadBag(q), Bag(Child(q, k)), Bag(c), item);
          Ok((true, With(q, k, c)))
        else
          var r := Offer(q, item, bnd, order[1..], fuel);
          assert forall j :: j !in order ==> j !in order[1..];
          r
  }

  /** The loop of `split`: each item, in order, is offered to the children;
      the items none takes are compacted to the front, in their order. */
  function Distribute<T>(q: Quad<T>, xs: seq<T>, bnd: T -> Rect, fuel: nat): (r: Result<(Quad<T>, seq<T>)>)
    requires ValidQuad(q)
    ensures r.Ok? ==> ValidQuad(r.value.0) && QuadFrame(q, r.value.0)
    ensures r.Ok? ==> r.value.1 == Kept(xs, Bounds4(q), bnd)
    ensures r.Ok? ==> QuadBag(r.value.0) + multiset(r.value.1) == QuadBag(q) + multiset(xs)
    ensures r.Ok? && PlacedQuad(q, bnd) ==> PlacedQuad(r.value.0, bnd)
    decreases fuel, 2, |xs|
  {
    if |xs| == 0 then Ok((q, []))
    else
      match Offer(q, xs[0], bnd, SplitOrder, fuel)
      case Err(e) => Err(e)
      case Ok((taken, q1)) =>
        match Distribute(q1, xs[1..], bnd, fuel)
        case Err(e) => Err(e)
        case Ok((q2, kept)) =>
          KeptStep(q, q1, xs, bnd, taken, kept);
          DistributeStep(QuadBag(q2), kept, QuadBag(q1), xs, QuadBag(q), taken);
          Ok((q2, if taken then kept else [xs[0]] + kept))
  }

  /** The items kept from the whole list: the first one unless a child
      took it, then those kept from the rest. */
  lemma KeptStep<T>(q: Quad<T>, q1: Quad<T>, xs: seq<T>, bnd: T -> Rect, taken: bool, kept: seq<T>)
    requires |xs| > 0 && QuadFrame(q, q1) && taken == Accepts(Bounds4(q), SplitOrder, bnd(xs[0]))
    requires kept == Kept(xs[1..], Bounds4(q1), bnd)
    ensures (if taken then kept else [xs[0]] + kept) == Kept(xs, Bounds4(q), bnd)
  {
    assert Bounds4(q1) == Bounds4(q);
    assert [] + kept == kept;
  }


  /** The bookkeeping of one step of `Distribute`: the item either went into
      the children or stays on the list. */
  lemma DistributeStep<T>(after: multiset<T>, kept: seq<T>, mid: multiset<T>, xs: seq<T>,
                          before: multiset<T>, taken: bool)
    requires |xs| > 0 && after + multiset(kept) == mid + multiset(xs[1..])
    requires taken ==> mid == before + multiset{xs[0]}
    requires !taken ==> mid == before
    ensures after + multiset(if taken then kept else [xs[0]] + kept) == before + multiset(xs)
  {
    assert xs == [xs[0]] + xs[1..];
    assert multiset(xs) == multiset{xs[0]} + multiset(xs[1..]);
    var lhs := after + multiset(if taken then kept else [xs[0]] + kept);
    var rhs := before + multiset(xs);
    forall y
      ensures lhs[y] == rhs[y]
    {
      assert (after + multiset(kept))[y] == (mid + multiset(xs[1..]))[y];
    }
  }

  /** The four midpoint quadrants of `b`, as empty leaves. */
  function Quadrants<T>(max: nat, b: Rect): (q: Quad<T>)
    ensures ValidQuad(q) && QuadBag(q) == multiset{}
  {
    var midX := (b.r - b.l) * 0.5 + b.l;
    var midY := (b.b - b.t) * 0.5 + b.t;
    Quad(Leaf(max, Rect(b.l, b.t, midX, midY)), Leaf(max, Rect(midX, b.t, b.r, midY)),
         Leaf(max, Rect(b.l, midY, midX, b.b)), Leaf(max, Rect(midX, midY, b.r, b.b)))
  }

  /** Empty quadrants are placed, whatever the bounds of the items. */
  lemma QuadrantsPlaced<T>(max: nat, b: Rect, bnd: T -> Rect)
    ensures PlacedQuad(Quadrants<T>(max, b), bnd)
  {
  }

  /** `split`: creates the four quadrants, moves every item that one of them
      takes, and compacts the rest in place. The moved items are not counted
      in `numItemsInChildren`. */
  function Split<T>(t: Tree<T>, bnd: T -> Rect, fuel: nat): (r: Result<Tree<T>>)
    requires Valid(t) && t.children.None?
    ensures r.Ok? ==> Valid(r.value) && Frame(t, r.value) && r.value.children.Some?
    ensures r.Ok? ==> r.value.inChildren == t.inChildren && r.value.capacity == t.capacity
    ensures r.Ok? ==> Bounds4(r.value.children.value) == Bounds4(Quadrants<T>(t.max, t.bounds))
    ensures r.Ok? ==> r.value.items == Kept(t.items, Bounds4(Quadrants<T>(t.max, t.bounds)), bnd)
    ensures r.Ok? ==> Bag(r.value) == Bag(t)
    ensures r.Ok? && Placed(t, bnd) ==> Placed(r.value, bnd)
    decreases fuel, 3, 0
  {
    var q0 := Quadrants<T>(t.max, t.bounds);
    QuadrantsPlaced<T>(t.max, t.bounds, bnd);
    match Distribute(q0, t.items, bnd, fuel)
    case Err(e) => Err(e)
    case Ok((q, kept)) =>
      MovedBag(QuadBag(q), multiset(kept), QuadBag(q0), multiset(t.items));
      Ok(t.(children := Some(q), items := kept))
  }

  /** What `split` moved into empty children plus what it kept is what the
      node held. */
  lemma MovedBag<T>(moved: multiset<T>, kept: multiset<T>, empty: multiset<T>, held: multiset<T>)
    requires moved + kept == empty + held && empty == multiset{}
    ensures kept + moved == held
  {
    forall y
      ensures (kept + moved)[y] == held[y]
    {
      assert (moved + kept)[y] == (empty + held)[y];
    }
  }

  /** The quadrants of a rectangle with ordered sides have the midpoints as
      corners and lie inside it. */
  lemma QuadrantsInside<T>(max: nat, b: Rect)
    requires b.l <= b.r && b.t <= b.b
    ensures var q := Quadrants<T>(max, b);
            b.Contains(q.tl.bounds) && b.Contains(q.tr.bounds) &&
            b.Contains(q.bl.bounds) && b.Contains(q.br.bounds)
    ensures var q := Quadrants<T>(max, b);
            q.tl.bounds.r == q.tr.bounds.l == q.bl.bounds.r == q.br.bounds.l == (b.l + b.r) / 2.0 &&
            q.tl.bounds.b == q.tr.bounds.b == q.bl.bounds.t == q.br.bounds.t == (b.t + b.b) / 2.0
  {
  }

  /** A leaf below its threshold stores the item at index `numItems` and
      increments it, whatever the depth bound. */
  lemma LeafInsert<T>(t: Tree<T>, item: T, bnd: T -> Rect, fuel: nat)
    requires Valid(t) && t.children.None? && |t.items| < t.max && t.bounds.Contains(bnd(item))
    ensures Insert(t, item, bnd, fuel) == Ok((true, t.(items := t.items + [item])))
  {
  }

  /** An item that fits tr but neither tl, br nor bl stays at the node: it
      is appended to the node's own items and the counter is unchanged. */
  lemma InsertSkipsTr<T>(t: Tree<T>, item: T, bnd: T -> Rect, fuel: nat)
    requires Valid(t) && t.children.Some? && t.bounds.Contains(bnd(item))
    requires var q := t.children.value;
             q.tr.bounds.Contains(bnd(item)) && !q.tl.bounds.Contains(bnd(item)) &&
             !q.br.bounds.Contains(bnd(item)) && !q.bl.bounds.Contains(bnd(item))
    ensures var r := Insert(t, item, bnd, fuel);
            r.Ok? ==> r.value.1.children == t.children && r.value.1.inChildren == t.inChildren &&
                      r.value.1.items == t.items + [item]
  {
    InsertOrderSkipsTr(Bounds4(t.children.value), bnd(item));
  }

  /** The constructors that take items: `Insert` of each, in order, into an
      empty leaf. */
  function InsertAll<T>(t: Tree<T>, xs: seq<T>, bnd: T -> Rect, fuel: nat): (r: Result<Tree<T>>)
    requires Valid(t)
    ensures r.Ok? ==> Valid(r.value) && Frame(t, r.value)
    ensures r.Ok? ==> Bag(r.value) == Bag(t) + multiset(Inside(xs, t.bounds, bnd))
    ensures r.Ok? && Placed(t, bnd) ==> Placed(r.value, bnd)
    decreases |xs|
  {
    if |xs| == 0 then Ok(t)
    else
      match Insert(t, xs[0], bnd, fuel)
      case Err(e) => Err(e)
      case Ok((_, t1)) => InsertAll(t1, xs[1..], bnd, fuel)
  }

  /** The items the bounds contain, in order. */
  function Inside<T>(xs: seq<T>, b: Rect, bnd: T -> Rect): (ys: seq<T>)
    ensures forall y :: y in ys ==> y in xs && b.Contains(bnd(y))
  {
    if |xs| == 0 then []
    else (if b.Contains(bnd(xs[0])) then [xs[0]] else []) + Inside(xs[1..], b, bnd)
  }

  /** `QuadTree(numItemsBeforeSplit, bounds, items)`. */
  function FromItems<T>(max: int, bounds: Rect, xs: seq<T>, bnd: T -> Rect, fuel: nat): (r: Result<Tree<T>>)
    ensures max < 0 ==> r == Err(Overflow)
    ensures r.Ok? ==> Valid(r.value) && Placed(r.value, bnd) && r.value.bounds == bounds
    ensures r.Ok? ==> Bag(r.value) == multiset(Inside(xs, bounds, bnd))
  {
    match Create(max, bounds)
    case Err(e) => Err(e)
    case Ok(t) => InsertAll(t, xs, bnd, fuel)
  }

  /** `QuadTree(numItemsBeforeSplit, bounds, item)`. */
  function FromItem<T>(max: int, bounds: Rect, item: T, bnd: T -> Rect, fuel: nat): (r: Result<Tree<T>>)
    ensures max < 0 ==> r == Err(Overflow)
    ensures r.Ok? ==> Valid(r.value) && Placed(r.value, bnd) && r.value.bounds == bounds
    ensures r.Ok? ==> Bag(r.value) == if bounds.Contains(bnd(item)) then multiset{item} else multiset{}
  {
    if max < 0 then Err(Overflow)
    else
      match Insert(Leaf(max, bounds), item, bnd, fuel)
      case Err(e) => Err(e)
      case Ok((_, t)) =>
        Ok(t)
  }

  // ---------------------------------------------------------------------
  // GetItems and GetIntersecting
  // ---------------------------------------------------------------------

  /** `GetItems`: the children's items, but only while
      `numItemsInChildren > 0`, then the node's own items in order. */
  function GetItems<T>(t: Tree<T>): (r: seq<T>)
    requires Valid(t)
    ensures forall x :: x in r ==> x in Bag(t)
    ensures t.inChildren == 0 ==> r == t.items
    decreases t
  {
    (if t.inChildren > 0 then QuadGetItems(t.children.value) else []) + t.items
  }

  function QuadGetItems<T>(q: Quad<T>): (r: seq<T>)
    requires ValidQuad(q)
    ensures forall x :: x in r ==> x in QuadBag(q)
    decreases q
  {
    GetItems(q.tl) + GetItems(q.tr) + GetItems(q.bl) + GetItems(q.br)
  }

  /** The items whose bounds intersect `rc`, in order. */
  function Intersecting<T>(xs: seq<T>, rc: Rect, bnd: T -> Rect): (ys: seq<T>)
    ensures forall y :: y in ys ==> y in xs && rc.IntersectsWith(bnd(y))
    ensures forall y :: y in xs && rc.IntersectsWith(bnd(y)) ==> y in ys
  {
    if |xs| == 0 then []
    else (if rc.IntersectsWith(bnd(xs[0])) then [xs[0]] else []) + Intersecting(xs[1..], rc, bnd)
  }

  /** `Intersecting` distributes over concatenation. */
  lemma {:induction false} IntersectingAppend<T>(xs: seq<T>, ys: seq<T>, rc: Rect, bnd: T -> Rect)
    ensures Intersecting(xs + ys, rc, bnd) == Intersecting(xs, rc, bnd) + Intersecting(ys, rc, bnd)
    decreases |xs|
  {
    if |xs| == 0 {
      assert xs + ys == ys;
    } else {
      assert (xs + ys)[0] == xs[0];
      assert (xs + ys)[1..] == xs[1..] + ys;
      IntersectingAppend(xs[1..], ys, rc, bnd);
    }
  }

  /** `GetIntersecting`: nothing from a node whose bounds miss `rc`;
      otherwise the children's results while `numItemsInChildren > 0`, then
      the node's own items that intersect `rc`. */
  function GetIntersecting<T>(t: Tree<T>, rc: Rect, bnd: T -> Rect): (r: seq<T>)
    requires Valid(t)
    ensures forall x :: x in r ==> rc.IntersectsWith(bnd(x)) && x in GetItems(t)
    decreases t
  {
    if !t.bounds.IntersectsWith(rc) then []
    else (if t.inChildren > 0 then QuadGetIntersecting(t.children.value, rc, bnd) else []) +
         Intersecting(t.items, rc, bnd)
  }

  function QuadGetIntersecting<T>(q: Quad<T>, rc: Rect, bnd: T -> Rect): (r: seq<T>)
    requires ValidQuad(q)
    ensures forall x :: x in r ==> rc.IntersectsWith(bnd(x)) && x in QuadGetItems(q)
    decreases q
  {
    GetIntersecting(q.tl, rc, bnd) + GetIntersecting(q.tr, rc, bnd) +
    GetIntersecting(q.bl, rc, bnd) + GetIntersecting(q.br, rc, bnd)
  }

  /** Skipping the nodes whose bounds miss the query loses nothing: when
      every item lies within its node's bounds, `GetIntersecting` is exactly
      the items of `GetItems` that intersect the query, in the same order. */
  lemma {:induction false} GetIntersectingIsFilter<T>(t: Tree<T>, rc: Rect, bnd: T -> Rect)
    requires Valid(t) && Placed(t, bnd)
    ensures GetIntersecting(t, rc, bnd) == Intersecting(GetItems(t), rc, bnd)
    decreases t
  {
    if !t.bounds.IntersectsWith(rc) {
      NothingIntersects(GetItems(t), t.bounds, rc, bnd);
    } else {
      IntersectingAppend(if t.inChildren > 0 then QuadGetItems(t.children.value) else [], t.items, rc, bnd);
      if t.inChildren > 0 {
        var q := t.children.value;
        GetIntersectingIsFilter(q.tl, rc, bnd);
        GetIntersectingIsFilter(q.tr, rc, bnd);
        GetIntersectingIsFilter(q.bl, rc, bnd);
        GetIntersectingIsFilter(q.br, rc, bnd);
        IntersectingAppend(GetItems(q.tl), GetItems(q.tr), rc, bnd);
        IntersectingAppend(GetItems(q.tl) + GetItems(q.tr), GetItems(q.bl), rc, bnd);
        IntersectingAppend(GetItems(q.tl) + GetItems(q.tr) + GetItems(q.bl), GetItems(q.br), rc, bnd);
      }
    }
  }

  /** Items inside a rectangle that misses the query miss it too. */
  lemma {:induction false} NothingIntersects<T>(xs: seq<T>, b: Rect, rc: Rect, bnd: T -> Rect)
    requires !b.IntersectsWith(rc) && forall x :: x in xs ==> b.Contains(bnd(x))
    ensures Intersecting(xs, rc, bnd) == []
    decreases |xs|
  {
    if |xs| > 0 {
      assert xs[0] in xs;
      NothingIntersects(xs[1..], b, rc, bnd);
    }
  }

  // ---------------------------------------------------------------------
  // Remove
  // ---------------------------------------------------------------------

  /** The first index of `x` in `xs`, or `|xs|`. */
  function IndexOf<T(==)>(xs: seq<T>, x: T): (i: nat)
    ensures i <= |xs| && (i < |xs| <==> x in xs)
    ensures i < |xs| ==> xs[i] == x && x !in xs[..i]
  {
    if |xs| == 0 then 0
    else if xs[0] == x then 0
    else
      var i := IndexOf(xs[1..], x);
      assert i < |xs| - 1 ==> xs[1..][..i] == xs[1..i + 1];
      1 + i
  }

  /** The own-item part of `Remove`: finds the first equal item and shifts
      the later ones one slot left; `numItems` is not decremented, so the
      last item stays and now appears twice. */
  function RemoveOwn<T(==)>(t: Tree<T>, item: T): (r: (bool, Tree<T>))
    ensures r.0 <==> item in t.items
    ensures !r.0 ==> r.1 == t
    ensures r.1 == t.(items := r.1.items) && |r.1.items| == |t.items|
    ensures forall x :: x in r.1.items ==> x in t.items
    ensures r.0 ==> var i := IndexOf(t.items, item);
                    (forall k :: 0 <= k < i ==> r.1.items[k] == t.items[k]) &&
                    (forall k :: i <= k < |t.items| - 1 ==> r.1.items[k] == t.items[k + 1]) &&
                    r.1.items[|t.items| - 1] == t.items[|t.items| - 1]
  {
    var i := IndexOf(t.items, item);
    if i < |t.items| then
      (true, t.(items := t.items[..i] + t.items[i + 1..] + [t.items[|t.items| - 1]]))
    else (false, t)
  }

  /** Removing the last own item changes nothing at all, though it
      reports success. */
  lemma RemoveLastOwnItem<T>(t: Tree<T>, item: T)
    requires |t.items| > 0 && IndexOf(t.items, item) == |t.items| - 1
    ensures RemoveOwn(t, item) == (true, t)
  {
    var n := |t.items|;
    assert t.items[..n - 1] + t.items[n..] + [t.items[n - 1]] == t.items;
  }

  /** The children's items `removeChildren` moves up: each child's
      `GetItems`, skipped when its `ItemCount` is 0. */
  function Collected<T>(q: Quad<T>): (xs: seq<T>)
    requires ValidQuad(q)
    ensures forall x :: x in xs ==> x in QuadBag(q)
  {
    var a := if ItemCount(q.tl) > 0 then GetItems(q.tl) else [];
    var b := if ItemCount(q.tr) > 0 then GetItems(q.tr) else [];
    var c := if ItemCount(q.bl) > 0 then GetItems(q.bl) else [];
    var d := if ItemCount(q.br) > 0 then GetItems(q.br) else [];
    QuadMembers(q, a, b, c, d);
    a + b + c + d
  }

  /** Items drawn from the four children are items of the quad. */
  lemma QuadMembers<T>(q: Quad<T>, a: seq<T>, b: seq<T>, c: seq<T>, d: seq<T>)
    requires forall x :: x in a ==> x in Bag(q.tl)
    requires forall x :: x in b ==> x in Bag(q.tr)
    requires forall x :: x in c ==> x in Bag(q.bl)
    requires forall x :: x in d ==> x in Bag(q.br)
    ensures forall x :: x in a + b + c + d ==> x in QuadBag(q)
  {
    forall x | x in a + b + c + d
      ensures x in QuadBag(q)
    {
      assert x in a || x in b || x in c || x in d;
    }
  }

  /** `removeChildren`: the counter to 0, the children dropped, and their
      items appended to the node's own with `add`. */
  function RemoveChildren<T>(t: Tree<T>): (r: Result<Tree<T>>)
    requires Valid(t) && t.children.Some?
    ensures r.Ok? ==> Valid(r.value) && Frame(t, r.value)
    ensures r.Ok? ==> r.value.children.None? && r.value.inChildren == 0
    ensures r.Ok? ==> r.value.items == t.items + Collected(t.children.value)
  {
    AddAll(t.(children := None, inChildren := 0), Collected(t.children.value))
  }

  /** `Remove`: an item outside the bounds is refused. While
      `numItemsInChildren > 0` the children are asked in the order tl, tr,
      bl, br; a removal there decrements the counter and, when the counter
      plus `numItems` falls below the threshold, pulls the children's items
      up. Otherwise the node's own items are searched. */
  function Remove<T(==)>(t: Tree<T>, item: T, bnd: T -> Rect): (r: Result<(bool, Tree<T>)>)
    requires Valid(t)
    ensures !t.bounds.Contains(bnd(item)) ==> r == Ok((false, t))
    ensures r.Ok? ==> Valid(r.value.1) && Frame(t, r.value.1)
    ensures r.Ok? && !r.value.0 ==> r.value.1 == t
    ensures r.Ok? ==> forall x :: x in Bag(r.value.1) ==> x in Bag(t)
    decreases t, 1
  {
    if !t.bounds.Contains(bnd(item)) then Ok((false, t))
    else if t.inChildren > 0 then RemoveBelow(t, item, bnd)
    else Ok(RemoveOwn(t, item))
  }

  /** `Remove` on a node whose counter is positive: the children first,
      then the node's own items. */
  function RemoveBelow<T(==)>(t: Tree<T>, item: T, bnd: T -> Rect): (r: Result<(bool, Tree<T>)>)
    requires Valid(t) && t.inChildren > 0
    ensures r.Ok? ==> Valid(r.value.1) && Frame(t, r.value.1)
    ensures r.Ok? && !r.value.0 ==> r.value.1 == t
    ensures r.Ok? ==> forall x :: x in Bag(r.value.1) ==> x in Bag(t)
    decreases t, 0
  {
    match Withdraw(t.children.value, item, bnd, SplitOrder)
    case Err(e) => Err(e)
    case Ok((found, q)) =>
      if found then
        match Shrink(t, q)
        case Err(e) => Err(e)
        case Ok(t1) => Ok((true, t1))
      else Ok(RemoveOwn(t, item))
  }

  /** The end of `Remove` once a child has removed the item: the counter
      drops by one, and the children are merged back into the node when the
      counter plus `numItems` falls below the threshold. */
  function Shrink<T>(t: Tree<T>, q: Quad<T>): (r: Result<Tree<T>>)
    requires Valid(t) && t.inChildren > 0 && ValidQuad(q)
    ensures r.Ok? ==> Valid(r.value) && r.value.bounds == t.bounds && r.value.max == t.max
    ensures r.Ok? ==> forall x :: x in Bag(r.value) ==> x in multiset(t.items) || x in QuadBag(q)
    ensures t.inChildren - 1 + |t.items| >= t.max ==> r == Ok(t.(children := Some(q), inChildren := t.inChildren - 1))
    ensures r.Ok? && t.inChildren - 1 + |t.items| < t.max ==>
              r.value.children.None? && r.value.inChildren == 0 && r.value.items == t.items + Collected(q)
  {
    var t1 := t.(children := Some(q), inChildren := t.inChildren - 1);
    if t1.inChildren + |t1.items| < t1.max then RemoveChildren(t1) else Ok(t1)
  }

  /** `Shrink` keeps a node placed when the children it is given are. */
  lemma ShrinkPlaced<T>(t: Tree<T>, q: Quad<T>, bnd: T -> Rect)
    requires Valid(t) && t.inChildren > 0 && ValidQuad(q)
    ensures Shrink(t, q).Ok? && Placed(t, bnd) && PlacedQuad(q, bnd) &&
            (forall x :: x in QuadBag(q) ==> x in QuadBag(t.children.value)) ==>
            Placed(Shrink(t, q).value, bnd)
  {
  }

  /** `tl.Remove(item) || tr.Remove(item) || bl.Remove(item) || br.Remove(item)`:
      the children at the positions of `order` are asked in turn until one
      removes the item. */
  function Withdraw<T(==)>(q: Quad<T>, item: T, bnd: T -> Rect, order: seq<nat>): (r: Result<(bool, Quad<T>)>)
    requires ValidQuad(q) && forall i :: 0 <= i < |order| ==> order[i] < 4
    ensures r.Ok? ==> ValidQuad(r.value.1) && QuadFrame(q, r.value.1)
    ensures r.Ok? && !r.value.0 ==> r.value.1 == q
    ensures r.Ok? ==> forall x :: x in QuadBag(r.value.1) ==> x in QuadBag(q)
    decreases q, |order|
  {
    if |order| == 0 then Ok((false, q))
    else
      var k := order[0];
      var child := if k == 0 then q.tl else if k == 1 then q.tr else if k == 2 then q.bl else q.br;
      assert child == Child(q, k);
      match Remove(child, item, bnd)
      case Err(e) => Err(e)
      case Ok((a, c)) =>
        if a then Ok((true, With(q, k, c)))
        else Withdraw(q, item, bnd, order[1..])
  }

  /** When every item lies within its node's bounds, `Remove` keeps it so,
      and it reports success exactly for the items `GetItems` lists. */
  lemma {:induction false} RemoveFinds<T>(t: Tree<T>, item: T, bnd: T -> Rect)
    requires Valid(t) && Placed(t, bnd)
    ensures var r := Remove(t, item, bnd);
            r.Ok? ==> Placed(r.value.1, bnd) && (r.value.0 <==> item in GetItems(t))
    decreases t, 1
  {
    if !t.bounds.Contains(bnd(item)) {
      assert item !in GetItems(t);
    } else if t.inChildren > 0 {
      RemoveBelowFinds(t, item, bnd);
    }
  }

  lemma {:induction false} RemoveBelowFinds<T>(t: Tree<T>, item: T, bnd: T -> Rect)
    requires Valid(t) && t.inChildren > 0 && Placed(t, bnd)
    ensures var r := RemoveBelow(t, item, bnd);
            r.Ok? ==> Placed(r.value.1, bnd) && (r.value.0 <==> item in GetItems(t))
    decreases t, 0
  {
    var q0 := t.children.value;
    assert PlacedQuad(q0, bnd);
    ListedInFour(q0, item);
    WithdrawFinds(q0, item, bnd, SplitOrder);
    assert GetItems(t) == QuadGetItems(q0) + t.items;
    var w := Withdraw(q0, item, bnd, SplitOrder);
    if w.Ok? {
      var (found, q) := w.value;
      if found {
        ShrinkPlaced(t, q, bnd);
      } else {
        var t1 := RemoveOwn(t, item).1;
        assert Bag(t1) == multiset(t1.items) + QuadBag(q0);
      }
    }
  }

  lemma {:induction false} WithdrawFinds<T>(q: Quad<T>, item: T, bnd: T -> Rect, order: seq<nat>)
    requires ValidQuad(q) && PlacedQuad(q, bnd) && forall i :: 0 <= i < |order| ==> order[i] < 4
    ensures var r := Withdraw(q, item, bnd, order);
            r.Ok? ==> PlacedQuad(r.value.1, bnd) && (r.value.0 <==> Listed(q, order, item))
    decreases q, |order|
  {
    if |order| > 0 {
      var k := order[0];
      var child := if k == 0 then q.tl else if k == 1 then q.tr else if k == 2 then q.bl else q.br;
      assert child == Child(q, k) && Placed(child, bnd);
      RemoveFinds(child, item, bnd);
      var r := Remove(child, item, bnd);
      if r.Ok? {
        if r.value.0 {
          WithPlaced(q, k, r.value.1, bnd);
        } else {
          WithdrawFinds(q, item, bnd, order[1..]);
        }
      }
    }
  }

  /** Some child at the positions of `order` lists the item in `GetItems`. */
  predicate Listed<T(==)>(q: Quad<T>, order: seq<nat>, item: T)
    requires ValidQuad(q) && forall i :: 0 <= i < |order| ==> order[i] < 4
  {
    |order| > 0 && (item in GetItems(Child(q, order[0])) || Listed(q, order[1..], item))
  }

  /** Asking the four children in order finds exactly the items that
      `GetItems` lists for them. */
  lemma ListedInFour<T>(q: Quad<T>, item: T)
    requires ValidQuad(q)
    ensures Listed(q, SplitOrder, item) <==> item in QuadGetItems(q)
  {
    assert SplitOrder[1..] == [1, 2, 3] && [1, 2, 3][1..] == [2, 3] && [2, 3][1..] == [3] && [3][1..] == [];
    assert Listed(q, [3], item) == (item in GetItems(q.br));
    assert Listed(q, [2, 3], item) == (item in GetItems(q.bl) || item in GetItems(q.br));
    assert Listed(q, [1, 2, 3], item) == (item in GetItems(q.tr) || item in GetItems(q.bl) || item in GetItems(q.br));
  }

  // ---------------------------------------------------------------------
  // The uncounted moves of split
  // ---------------------------------------------------------------------

  /** With threshold 1, an item A in the top-left quadrant followed by an
      item C that fits no quadrant: the second insertion splits the node and
      moves A down without counting it, then keeps C at the node. `GetItems`
      and `ItemCount` then see only C, though A is still stored. */
  lemma SplitHidesMovedItems()
    ensures var b, a, c := Rect(0.0, 0.0, 4.0, 4.0), Rect(0.0, 0.0, 1.0, 1.0), Rect(0.0, 0.0, 3.0, 3.0);
            var t := Tree(b, None, 1, 0, [a], 1);
            var r := Insert(t, c, (x: Rect) => x, 2);
            r.Ok? && r.value.0 &&
            GetItems(r.value.1) == [c] && ItemCount(r.value.1) == 1 &&
            Bag(r.value.1) == multiset{a, c}
  {
    var b, a, c := Rect(0.0, 0.0, 4.0, 4.0), Rect(0.0, 0.0, 1.0, 1.0), Rect(0.0, 0.0, 3.0, 3.0);
    var id := (x: Rect) => x;
    var t := Tree(b, None, 1, 0, [a], 1);
    var q1 := SplitMovesFirst(b, a, id);
    var s := t.(children := Some(q1), items := []);
    KeepsSecond(b, a, c, id, q1);
    var u := s.(items := [c]);
    assert Insert(t, c, id, 2) == Ok((true, u));
    assert Bag(u) == multiset{c} + QuadBag(q1);
  }

  /** The split in `SplitHidesMovedItems`: A moves into tl, nothing stays. */
  lemma SplitMovesFirst(b: Rect, a: Rect, id: Rect -> Rect) returns (q1: Quad<Rect>)
    requires b == Rect(0.0, 0.0, 4.0, 4.0) && a == Rect(0.0, 0.0, 1.0, 1.0) && id(a) == a
    ensures q1 == Quadrants<Rect>(1, b).(tl := Leaf<Rect>(1, Rect(0.0, 0.0, 2.0, 2.0)).(items := [a]))
    ensures Split(Tree(b, None, 1, 0, [a], 1), id, 1) == Ok(Tree(b, Some(q1), 1, 0, [], 1))
    ensures QuadBag(q1) == multiset{a}
  {
    var t := Tree(b, None, 1, 0, [a], 1);
    var q0 := Quadrants<Rect>(1, b);
    assert q0.tl.bounds == Rect(0.0, 0.0, 2.0, 2.0);
    var tl1 := q0.tl.(items := [a]);
    assert q0.tl.items + [a] == [a];
    assert Insert(q0.tl, a, id, 1) == Ok((true, tl1));
    q1 := q0.(tl := tl1);
    assert With(q0, 0, tl1) == q1;
    assert Offer(q0, a, id, SplitOrder, 1) == Ok((true, q1));
    assert Distribute(q1, [], id, 1) == Ok((q1, []));
    assert Distribute(q0, [a], id, 1) == Ok((q1, []));
  }

  /** The insertion of C after the split: no child is offered a rectangle
      that fits, so the node keeps C. */
  lemma KeepsSecond(b: Rect, a: Rect, c: Rect, id: Rect -> Rect, q1: Quad<Rect>)
    requires b == Rect(0.0, 0.0, 4.0, 4.0) && a == Rect(0.0, 0.0, 1.0, 1.0) && c == Rect(0.0, 0.0, 3.0, 3.0)
    requires id(c) == c
    requires q1 == Quadrants<Rect>(1, b).(tl := Leaf<Rect>(1, Rect(0.0, 0.0, 2.0, 2.0)).(items := [a]))
    ensures Insert(Tree(b, Some(q1), 1, 0, [], 1), c, id, 1) == Ok((true, Tree(b, Some(q1), 1, 0, [c], 1)))
  {
    var s := Tree(b, Some(q1), 1, 0, [], 1);
    assert !q1.tl.bounds.Contains(c) && !q1.br.bounds.Contains(c) && !q1.bl.bounds.Contains(c);
    InsertOrderSkipsTr(Bounds4(q1), c);
    assert s.items + [c] == [c];
  }
}
