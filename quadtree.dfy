/** The quadtree builder: the split/stop decision, the fixed quadrant tiling, the
    recursive decomposition as a specification function, and the source's
    recursive builder that also bumps the run's node and depth counters. */
module Quadtree {
  import opened Raster
  import opened RegionStats

  datatype Option<T> = None | Some(value: T)

  /** One node of the tree (the source's `QuadtreeNode`): the region it covers, the
      region's average colour, its depth (root 0), whether it is a leaf, and four
      child slots in the order NW, NE, SW, SE, where `None` is a null pointer. */
  datatype Node = Node(region: Region, avgColor: RGB, depth: nat, isLeaf: bool, children: seq<Option<Node>>)

  const NoChildren: seq<Option<Node>> := [None, None, None, None]

  // ---------------------------------------------------------------------------
  // Split policy

  /** The four quadrants NW, NE, SW, SE of a region, split at (width/2, height/2);
      the east and south quadrants take the odd remainder. */
  function Quadrants(rg: Region): (qs: seq<Region>)
    ensures |qs| == 4
  {
    var w1, h1 := rg.width / 2, rg.height / 2;
    var w2, h2 := rg.width - w1, rg.height - h1;
    [Region(rg.x, rg.y, w1, h1), Region(rg.x + w1, rg.y, w2, h1),
     Region(rg.x, rg.y + h1, w1, h2), Region(rg.x + w1, rg.y + h1, w2, h2)]
  }

  /** The homogeneity score of a region under the selected metric: 1 is variance,
      2 is mean absolute deviation; the unimplemented metrics 3, 4, 5 and every
      invalid selector score 0. */
  function RegionError(img: Image, rg: Region, avg: RGB, errorMethod: int): real
    requires rg.Within(img)
  {
    if errorMethod == 1 then VarianceError(img, rg, avg)
    else if errorMethod == 2 then MadError(img, rg, avg)
    else 0.0
  }

  /** The stop rule: a region becomes a leaf when it is uniform enough, when it is
      no larger than the minimum block, or when halving it would leave a zero-sized
      half. */
  predicate StopsAt(error: real, threshold: real, rg: Region, minBlockSize: int) {
    error < threshold || rg.width * rg.height <= minBlockSize || rg.width / 2 == 0 || rg.height / 2 == 0
  }

  /** The tree the builder produces for `rg` at `depth`. */
  function Decomposition(img: Image, rg: Region, threshold: real, minBlockSize: int, depth: nat, errorMethod: int): Node
    requires rg.Within(img)
    decreases rg.width + rg.height, 2
  {
    var avg := MeanColor(img, rg);
    if StopsAt(RegionError(img, rg, avg, errorMethod), threshold, rg, minBlockSize) then
      Node(rg, avg, depth, true, NoChildren)
    else
      Node(rg, avg, depth, false, Children(img, rg, threshold, minBlockSize, depth + 1, errorMethod))
  }

  /** The four child slots of a split region, NW, NE, SW, SE, at the next depth. */
  function Children(img: Image, rg: Region, threshold: real, minBlockSize: int, depth: nat, errorMethod: int)
    : seq<Option<Node>>
    requires rg.Within(img) && rg.width >= 2 && rg.height >= 2
    decreases rg.width + rg.height, 1
  {
    var qs := Quadrants(rg);
    [Child(img, qs[0], threshold, minBlockSize, depth, errorMethod),
     Child(img, qs[1], threshold, minBlockSize, depth, errorMethod),
     Child(img, qs[2], threshold, minBlockSize, depth, errorMethod),
     Child(img, qs[3], threshold, minBlockSize, depth, errorMethod)]
  }

  /** A child slot: filled only when the quadrant has positive width and height. */
  function Child(img: Image, q: Region, threshold: real, minBlockSize: int, depth: nat, errorMethod: int): Option<Node>
    requires q.Within(img)
    decreases q.width + q.height, 3
  {
    if q.width > 0 && q.height > 0 then Some(Decomposition(img, q, threshold, minBlockSize, depth, errorMethod))
    else None
  }

  // ---------------------------------------------------------------------------
  // Tree measures

  /** The number of nodes in the tree. */
  function NodeCount(n: Node): nat {
    1 + ChildrenCount(n.children)
  }

  function ChildrenCount(cs: seq<Option<Node>>): nat {
    if cs == [] then 0 else ChildrenCount(cs[..|cs| - 1]) + SlotCount(cs[|cs| - 1])
  }

  function SlotCount(o: Option<Node>): nat {
    match o
    case None => 0
    case Some(c) => NodeCount(c)
  }

  /** The largest depth of any node in the tree. */
  function MaxDepth(n: Node): nat {
    Max(n.depth, ChildrenMaxDepth(n.children))
  }

  function ChildrenMaxDepth(cs: seq<Option<Node>>): nat {
    if cs == [] then 0 else Max(ChildrenMaxDepth(cs[..|cs| - 1]), SlotMaxDepth(cs[|cs| - 1]))
  }

  function SlotMaxDepth(o: Option<Node>): nat {
    match o
    case None => 0
    case Some(c) => MaxDepth(c)
  }

  /** The structural invariant of a quadtree: a leaf has four empty slots; an
      internal node is at least 2 x 2 and has all four children, whose regions are
      its quadrants in NW, NE, SW, SE order and whose depth is one more than its own. */
  ghost predicate WellFormed(n: Node) {
    |n.children| == 4 &&
    (n.isLeaf ==> n.children == NoChildren) &&
    (!n.isLeaf ==>
      n.region.width >= 2 && n.region.height >= 2 &&
      forall k | 0 <= k < 4 ::
        n.children[k].Some? &&
        n.children[k].value.region == Quadrants(n.region)[k] &&
        n.children[k].value.depth == n.depth + 1 &&
        WellFormed(n.children[k].value))
  }

  /** Every node lies inside the image and carries its region's average colour. */
  ghost predicate Summarises(img: Image, n: Node) {
    n.region.Within(img) && n.avgColor == MeanColor(img, n.region) &&
    forall k | 0 <= k < |n.children| :: n.children[k].Some? ==> Summarises(img, n.children[k].value)
  }

  // ---------------------------------------------------------------------------
  // The source's builder

  /** The run-wide counters (the source's globals `nodeCount` and `maxDepth`). */
  class RunCounters {
    var nodeCount: nat
    var maxDepth: nat

    constructor ()
      ensures nodeCount == 0 && maxDepth == 0
    {
      nodeCount := 0;
      maxDepth := 0;
    }
  }

  method BuildQuadtree(img: Image, x: nat, y: nat, width: nat, height: nat, threshold: real,
                       minBlockSize: int, currentDepth: nat, errorMethod: int, run: RunCounters)
    returns (node: Node)
    requires Region(x, y, width, height).Within(img)
    modifies run
    decreases width + height, 2
    ensures node == Decomposition(img, Region(x, y, width, height), threshold, minBlockSize, currentDepth, errorMethod)
    ensures run.nodeCount == old(run.nodeCount) + NodeCount(node)
    ensures run.maxDepth == Max(old(run.maxDepth), MaxDepth(node))
  {
    run.nodeCount := run.nodeCount + 1;
    if currentDepth > run.maxDepth {
      run.maxDepth := currentDepth;
    }
    var rg := Region(x, y, width, height);
    var avgColor := CalculateAverageColor(img, x, y, width, height);

    var error := CalculateError(img, rg, avgColor, errorMethod);

    var nextWidth := width / 2;
    var nextHeight := height / 2;
    var subBlocksTooSmall := nextWidth == 0 || nextHeight == 0;

    var isLeaf: bool;
    var children := NoChildren;
    if error < threshold || width * height <= minBlockSize || subBlocksTooSmall {
      isLeaf := true;
    } else {
      isLeaf := false;
      children := BuildChildren(img, rg, threshold, minBlockSize, currentDepth + 1, errorMethod, run);
    }
    assert isLeaf == StopsAt(error, threshold, rg, minBlockSize);
    assert ChildrenCount(NoChildren) == 0 && ChildrenMaxDepth(NoChildren) == 0 by {
      ChildrenMeasures(NoChildren);
    }
    MaxJoin(old(run.maxDepth), currentDepth, ChildrenMaxDepth(children));
    DecompositionOf(img, rg, threshold, minBlockSize, currentDepth, errorMethod, avgColor, isLeaf, children);
    node := Node(rg, avgColor, currentDepth, isLeaf, children);
  }

  /** The builder's metric selection: 1 is variance, 2 is mean absolute deviation;
      the stubs 3, 4, 5 and every other selector leave the error at 0. */
  method CalculateError(img: Image, rg: Region, avgColor: RGB, errorMethod: int) returns (error: real)
    requires rg.Within(img)
    ensures error == RegionError(img, rg, avgColor, errorMethod)
    ensures errorMethod != 1 && errorMethod != 2 ==> error == 0.0
  {
    error := 0.0;
    if errorMethod == 1 {
      error := CalculateErrorVariance(img, rg.x, rg.y, rg.width, rg.height, avgColor);
    } else if errorMethod == 2 {
      error := CalculateErrorMad(img, rg.x, rg.y, rg.width, rg.height, avgColor);
    } else if errorMethod == 3 || errorMethod == 4 || errorMethod == 5 {
      error := 0.0;  // metrics not implemented
    } else {
      error := 0.0;  // invalid selector
    }
  }

  /** The split branch of the builder: the four quadrants NW, NE, SW, SE are built one
      after another at the next depth, each only when it is non-empty. */
  method BuildChildren(img: Image, rg: Region, threshold: real, minBlockSize: int, depth: nat, errorMethod: int,
                       run: RunCounters)
    returns (children: seq<Option<Node>>)
    requires rg.Within(img) && rg.width >= 2 && rg.height >= 2
    modifies run
    decreases rg.width + rg.height, 1
    ensures children == Children(img, rg, threshold, minBlockSize, depth, errorMethod)
    ensures run.nodeCount == old(run.nodeCount) + ChildrenCount(children)
    ensures run.maxDepth == Max(old(run.maxDepth), ChildrenMaxDepth(children))
  {
    var x, y := rg.x, rg.y;
    var w1, h1 := rg.width / 2, rg.height / 2;
    var w2, h2 := rg.width - w1, rg.height - h1;
    assert Quadrants(rg) == [Region(x, y, w1, h1), Region(x + w1, y, w2, h1), Region(x, y + h1, w1, h2), Region(x + w1, y + h1, w2, h2)];
    ghost var m0, c0 := run.maxDepth, run.nodeCount;
    children := NoChildren;
    var nw := BuildSlot(img, Region(x, y, w1, h1), threshold, minBlockSize, depth, errorMethod, run);
    children := children[0 := nw];
    ghost var m1, c1 := run.maxDepth, run.nodeCount;
    assert m1 == Max(m0, SlotMaxDepth(nw)) && c1 == c0 + SlotCount(nw);
    var ne := BuildSlot(img, Region(x + w1, y, w2, h1), threshold, minBlockSize, depth, errorMethod, run);
    children := children[1 := ne];
    ghost var m2, c2 := run.maxDepth, run.nodeCount;
    assert m2 == Max(m1, SlotMaxDepth(ne)) && c2 == c1 + SlotCount(ne);
    var sw := BuildSlot(img, Region(x, y + h1, w1, h2), threshold, minBlockSize, depth, errorMethod, run);
    children := children[2 := sw];
    ghost var m3, c3 := run.maxDepth, run.nodeCount;
    assert m3 == Max(m2, SlotMaxDepth(sw)) && c3 == c2 + SlotCount(sw);
    var se := BuildSlot(img, Region(x + w1, y + h1, w2, h2), threshold, minBlockSize, depth, errorMethod, run);
    children := children[3 := se];
    assert run.maxDepth == Max(m3, SlotMaxDepth(se)) && run.nodeCount == c3 + SlotCount(se);
    assert children == [nw, ne, sw, se];
    ChildrenMeasures(children);
    MaxJoin4(m0, SlotMaxDepth(nw), SlotMaxDepth(ne), SlotMaxDepth(sw), SlotMaxDepth(se));
  }

  lemma MaxJoin(a: int, b: int, c: int)
    ensures Max(Max(a, b), c) == Max(a, Max(b, c))
  {
  }

  lemma MaxJoin4(a: int, b: int, c: int, d: int, e: int)
    ensures Max(Max(Max(Max(a, b), c), d), e) == Max(a, Max(Max(Max(b, c), d), e))
  {
  }

  /** One guarded recursive call of the builder: a quadrant of zero width or height
      leaves its slot null. */
  method BuildSlot(img: Image, q: Region, threshold: real, minBlockSize: int, depth: nat, errorMethod: int,
                   run: RunCounters)
    returns (slot: Option<Node>)
    requires q.Within(img)
    modifies run
    decreases q.width + q.height, 3
    ensures slot == Child(img, q, threshold, minBlockSize, depth, errorMethod)
    ensures run.nodeCount == old(run.nodeCount) + SlotCount(slot)
    ensures run.maxDepth == Max(old(run.maxDepth), SlotMaxDepth(slot))
  {
    if q.width > 0 && q.height > 0 {
      var c := BuildQuadtree(img, q.x, q.y, q.width, q.height, threshold, minBlockSize, depth, errorMethod, run);
      slot := Some(c);
    } else {
      slot := None;
    }
  }

  /** A node assembled from its region's average, the stop decision and the child
      slots the decomposition prescribes is that region's decomposition. */
  lemma {:induction false} DecompositionOf(img: Image, rg: Region, threshold: real, minBlockSize: int, depth: nat, errorMethod: int,
                        avg: RGB, isLeaf: bool, children: seq<Option<Node>>)
    requires rg.Within(img)
    requires avg == MeanColor(img, rg)
    requires isLeaf == StopsAt(RegionError(img, rg, avg, errorMethod), threshold, rg, minBlockSize)
    requires isLeaf ==> children == NoChildren
    requires !isLeaf ==> rg.width >= 2 && rg.height >= 2 && children == Children(img, rg, threshold, minBlockSize, depth + 1, errorMethod)
    ensures Decomposition(img, rg, threshold, minBlockSize, depth, errorMethod) == Node(rg, avg, depth, isLeaf, children)
  {
  }

  /** The measures of four child slots, unfolded. */
  lemma ChildrenMeasures(cs: seq<Option<Node>>)
    requires |cs| == 4
    ensures ChildrenCount(cs) == SlotCount(cs[0]) + SlotCount(cs[1]) + SlotCount(cs[2]) + SlotCount(cs[3])
    ensures ChildrenMaxDepth(cs) == Max(Max(Max(SlotMaxDepth(cs[0]), SlotMaxDepth(cs[1])), SlotMaxDepth(cs[2])), SlotMaxDepth(cs[3]))
  {
    assert cs[..3][..2] == cs[..2] && cs[..2][..1] == cs[..1] && cs[..1][..0] == [];
    assert ChildrenCount(cs[..1]) == SlotCount(cs[0]);
    assert ChildrenCount(cs[..2]) == ChildrenCount(cs[..1]) + SlotCount(cs[1]);
    assert ChildrenCount(cs[..3]) == ChildrenCount(cs[..2]) + SlotCount(cs[2]);
    assert ChildrenMaxDepth(cs[..1]) == SlotMaxDepth(cs[0]);
    assert ChildrenMaxDepth(cs[..2]) == Max(ChildrenMaxDepth(cs[..1]), SlotMaxDepth(cs[1]));
    assert ChildrenMaxDepth(cs[..3]) == Max(ChildrenMaxDepth(cs[..2]), SlotMaxDepth(cs[2]));
  }

  /** The source's run: reset the counters, then build from the whole image at depth 0. */
  method Decompose(img: Image, threshold: real, minBlockSize: int, errorMethod: int, run: RunCounters)
    returns (root: Node)
    modifies run
    ensures root == Decomposition(img, Full(img), threshold, minBlockSize, 0, errorMethod)
    ensures run.nodeCount == NodeCount(root)
    ensures run.maxDepth == MaxDepth(root)
  {
    run.nodeCount := 0;
    run.maxDepth := 0;
    root := BuildQuadtree(img, 0, 0, img.width, img.height, threshold, minBlockSize, 0, errorMethod, run);
  }

  // ---------------------------------------------------------------------------
  // Properties of the decomposition

  /** How many of the rectangles `qs` contain the pixel at column `i`, row `j`. */
  function Covering(qs: seq<Region>, i: int, j: int): nat {
    if qs == [] then 0
    else Covering(qs[..|qs| - 1], i, j) + (if qs[|qs| - 1].Contains(i, j) then 1 else 0)
  }

  /** The four quadrants tile the parent: a pixel of the parent lies in exactly one
      quadrant, and a pixel outside it in none. */
  lemma QuadrantsTile(rg: Region, i: int, j: int)
    ensures Covering(Quadrants(rg), i, j) == if rg.Contains(i, j) then 1 else 0
  {
    CoveringOfFour(Quadrants(rg), i, j);
  }

  /** The covering count of four rectangles, unfolded. */
  lemma CoveringOfFour(qs: seq<Region>, i: int, j: int)
    requires |qs| == 4
    ensures Covering(qs, i, j) ==
      (if qs[0].Contains(i, j) then 1 else 0) + (if qs[1].Contains(i, j) then 1 else 0) +
      (if qs[2].Contains(i, j) then 1 else 0) + (if qs[3].Contains(i, j) then 1 else 0)
  {
    assert qs[..3][..2] == qs[..2] && qs[..2][..1] == qs[..1] && qs[..1][..0] == [];
    assert Covering(qs[..1], i, j) == if qs[0].Contains(i, j) then 1 else 0;
    assert Covering(qs[..2], i, j) == Covering(qs[..1], i, j) + if qs[1].Contains(i, j) then 1 else 0;
    assert Covering(qs[..3], i, j) == Covering(qs[..2], i, j) + if qs[2].Contains(i, j) then 1 else 0;
  }

  /** The areas of the four quadrants add up to the parent's area. */
  lemma QuadrantsArea(rg: Region)
    ensures var qs := Quadrants(rg);
      qs[0].Area() + qs[1].Area() + qs[2].Area() + qs[3].Area() == rg.Area()
  {
    var w1, h1 := rg.width / 2, rg.height / 2;
    var w2, h2 := rg.width - w1, rg.height - h1;
    calc {
      w1 * h1 + w2 * h1 + w1 * h2 + w2 * h2;
      (w1 + w2) * h1 + (w1 + w2) * h2;
      (w1 + w2) * (h1 + h2);
    }
  }

  /** Splitting a region of at least 2 x 2 gives four non-empty quadrants inside it,
      each strictly narrower and strictly lower than the parent. */
  lemma QuadrantsShrink(rg: Region)
    requires rg.width >= 2 && rg.height >= 2
    ensures forall k | 0 <= k < 4 ::
      0 < Quadrants(rg)[k].width < rg.width && 0 < Quadrants(rg)[k].height < rg.height &&
      Quadrants(rg)[k].Inside(rg)
  {
  }

  /** `n` is a well-formed quadtree over `rg` rooted at `depth` whose nodes all carry
      their regions' average colours. */
  ghost predicate Shaped(img: Image, n: Node, rg: Region, depth: nat) {
    n.region == rg && n.depth == depth && WellFormed(n) && Summarises(img, n)
  }

  /** The root of a decomposition covers the given region at the given depth with
      its average colour, and is a leaf exactly when the stop rule holds. */
  lemma StopRule(img: Image, rg: Region, threshold: real, minBlockSize: int, depth: nat, errorMethod: int)
    requires rg.Within(img)
    ensures var n := Decomposition(img, rg, threshold, minBlockSize, depth, errorMethod);
      n.region == rg && n.depth == depth && n.avgColor == MeanColor(img, rg) &&
      (n.isLeaf <==>
        RegionError(img, rg, n.avgColor, errorMethod) < threshold || rg.width * rg.height <= minBlockSize ||
        rg.width / 2 == 0 || rg.height / 2 == 0) &&
      (n.isLeaf ==> n.children == NoChildren)
  {
  }

  /** The decomposition of a region inside the image is a well-formed quadtree over
      that region, rooted at the given depth, whose nodes all carry their regions'
      average colours. */
  lemma {:induction false} DecompositionShape(img: Image, rg: Region, threshold: real, minBlockSize: int, depth: nat,
                                              errorMethod: int)
    requires rg.Within(img)
    decreases rg.width + rg.height
    ensures Shaped(img, Decomposition(img, rg, threshold, minBlockSize, depth, errorMethod), rg, depth)
  {
    var n := Decomposition(img, rg, threshold, minBlockSize, depth, errorMethod);
    if n.isLeaf {
      AssembleLeaf(img, n);
    } else {
      var qs := Quadrants(rg);
      QuadrantsShrink(rg);
      ChildrenOfSplit(img, rg, threshold, minBlockSize, depth + 1, errorMethod);
      DecompositionShape(img, qs[0], threshold, minBlockSize, depth + 1, errorMethod);
      DecompositionShape(img, qs[1], threshold, minBlockSize, depth + 1, errorMethod);
      DecompositionShape(img, qs[2], threshold, minBlockSize, depth + 1, errorMethod);
      DecompositionShape(img, qs[3], threshold, minBlockSize, depth + 1, errorMethod);
      AssembleInternal(img, n,
                       Decomposition(img, qs[0], threshold, minBlockSize, depth + 1, errorMethod),
                       Decomposition(img, qs[1], threshold, minBlockSize, depth + 1, errorMethod),
                       Decomposition(img, qs[2], threshold, minBlockSize, depth + 1, errorMethod),
                       Decomposition(img, qs[3], threshold, minBlockSize, depth + 1, errorMethod));
    }
  }

  /** The slots of a split region hold the decompositions of its four quadrants. */
  lemma {:induction false} ChildrenOfSplit(img: Image, rg: Region, threshold: real, minBlockSize: int, depth: nat,
                                           errorMethod: int)
    requires rg.Within(img) && rg.width >= 2 && rg.height >= 2
    ensures var qs := Quadrants(rg);
      qs[0].Within(img) && qs[1].Within(img) && qs[2].Within(img) && qs[3].Within(img) &&
      Children(img, rg, threshold, minBlockSize, depth, errorMethod) ==
        [Some(Decomposition(img, qs[0], threshold, minBlockSize, depth, errorMethod)),
         Some(Decomposition(img, qs[1], threshold, minBlockSize, depth, errorMethod)),
         Some(Decomposition(img, qs[2], threshold, minBlockSize, depth, errorMethod)),
         Some(Decomposition(img, qs[3], threshold, minBlockSize, depth, errorMethod))]
  {
    var qs := Quadrants(rg);
    assert qs[0].width > 0 && qs[0].height > 0 && qs[1].width > 0 && qs[1].height > 0;
    assert qs[2].width > 0 && qs[2].height > 0 && qs[3].width > 0 && qs[3].height > 0;
  }

  /** A leaf inside the image carrying its region's average is a one-node tree. */
  lemma {:induction false} AssembleLeaf(img: Image, n: Node)
    requires n.isLeaf && n.children == NoChildren
    requires n.region.Within(img) && n.avgColor == MeanColor(img, n.region)
    ensures Shaped(img, n, n.region, n.depth)
  {
  }

  /** An internal node whose four children are well-formed trees over its quadrants,
      one level deeper, is well formed. */
  lemma {:induction false} AssembleInternal(img: Image, n: Node, c0: Node, c1: Node, c2: Node, c3: Node)
    requires !n.isLeaf && n.children == [Some(c0), Some(c1), Some(c2), Some(c3)]
    requires n.region.width >= 2 && n.region.height >= 2
    requires n.region.Within(img) && n.avgColor == MeanColor(img, n.region)
    requires Shaped(img, c0, Quadrants(n.region)[0], n.depth + 1) && Shaped(img, c1, Quadrants(n.region)[1], n.depth + 1)
    requires Shaped(img, c2, Quadrants(n.region)[2], n.depth + 1) && Shaped(img, c3, Quadrants(n.region)[3], n.depth + 1)
    ensures Shaped(img, n, n.region, n.depth)
  {
    var cs, qs := n.children, Quadrants(n.region);
    forall k | 0 <= k < 4
      ensures cs[k].Some? && cs[k].value.region == qs[k] && cs[k].value.depth == n.depth + 1
      ensures WellFormed(cs[k].value) && Summarises(img, cs[k].value)
    {
      if k == 0 { assert cs[k] == Some(c0); }
      else if k == 1 { assert cs[k] == Some(c1); }
      else if k == 2 { assert cs[k] == Some(c2); }
      else { assert cs[k] == Some(c3); }
    }
  }

  /** The unimplemented metrics and every invalid selector score 0, so such a region
      stops exactly when the threshold is positive or a size condition holds. */
  lemma MetricFallback(img: Image, rg: Region, threshold: real, minBlockSize: int, depth: nat, errorMethod: int)
    requires rg.Within(img) && errorMethod != 1 && errorMethod != 2
    ensures Decomposition(img, rg, threshold, minBlockSize, depth, errorMethod).isLeaf <==>
      0.0 < threshold || rg.width * rg.height <= minBlockSize || rg.width < 2 || rg.height < 2
  {
    assert RegionError(img, rg, MeanColor(img, rg), errorMethod) == 0.0;
  }

  /** A non-empty region painted in one colour scores 0 under every metric, so with
      a positive threshold it is never split. */
  lemma UniformRegionIsLeaf(img: Image, rg: Region, threshold: real, minBlockSize: int, depth: nat, errorMethod: int,
                            p: Pixel)
    requires rg.Within(img) && rg.Area() > 0 && Uniform(img, rg, p) && threshold > 0.0
    ensures Decomposition(img, rg, threshold, minBlockSize, depth, errorMethod).isLeaf
  {
    var avg := MeanColor(img, rg);
    MeanColorUniform(img, rg, p);
    assert forall i: nat, j: nat | rg.Contains(i, j) :: Matches(At(img, i, j), avg);
    VarianceZeroIff(img, rg, avg);
    MadZeroIff(img, rg, avg);
    assert RegionError(img, rg, avg, errorMethod) == 0.0;
  }

  /** Each quadrant of a region no wider and no taller than 2p is no wider and no
      taller than p. */
  lemma QuadrantsHalve(rg: Region, p: nat)
    requires rg.width <= 2 * p && rg.height <= 2 * p
    ensures forall m | 0 <= m < 4 :: Quadrants(rg)[m].width <= p && Quadrants(rg)[m].height <= p
  {
  }

  function Pow2(k: nat): nat {
    if k == 0 then 1 else 2 * Pow2(k - 1)
  }

  /** Each split halves both sides (rounding up), so a well-formed tree over a
      region no wider and no taller than 2^k reaches at most k levels below its root. */
  lemma {:induction false} DepthBound(n: Node, k: nat)
    requires WellFormed(n) && n.region.width <= Pow2(k) && n.region.height <= Pow2(k)
    decreases n
    ensures n.depth <= MaxDepth(n) <= n.depth + k
  {
    if n.isLeaf {
      ChildrenMeasures(n.children);
    } else {
      var cs, qs := n.children, Quadrants(n.region);
      QuadrantsHalve(n.region, Pow2(k - 1));
      assert cs[0].Some? && cs[0].value.region == qs[0] && WellFormed(cs[0].value);
      assert cs[1].Some? && cs[1].value.region == qs[1] && WellFormed(cs[1].value);
      assert cs[2].Some? && cs[2].value.region == qs[2] && WellFormed(cs[2].value);
      assert cs[3].Some? && cs[3].value.region == qs[3] && WellFormed(cs[3].value);
      assert cs == [Some(cs[0].value), Some(cs[1].value), Some(cs[2].value), Some(cs[3].value)];
      DepthBound(cs[0].value, k - 1);
      DepthBound(cs[1].value, k - 1);
      DepthBound(cs[2].value, k - 1);
      DepthBound(cs[3].value, k - 1);
      DepthOfInternal(n, cs[0].value, cs[1].value, cs[2].value, cs[3].value, k);
    }
  }

  /** An internal node whose four children reach between one and k levels below it
      reaches at most k levels below itself. */
  lemma {:induction false} DepthOfInternal(n: Node, c0: Node, c1: Node, c2: Node, c3: Node, k: nat)
    requires n.children == [Some(c0), Some(c1), Some(c2), Some(c3)]
    requires n.depth + 1 <= MaxDepth(c0) <= n.depth + k && n.depth + 1 <= MaxDepth(c1) <= n.depth + k
    requires n.depth + 1 <= MaxDepth(c2) <= n.depth + k && n.depth + 1 <= MaxDepth(c3) <= n.depth + k
    ensures n.depth <= MaxDepth(n) <= n.depth + k
  {
    ChildrenMeasures(n.children);
  }

}
