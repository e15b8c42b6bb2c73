/** Rendering: leaves paint their rectangles into an output raster in depth-first
    order, each with its average colour clamped to [0, 255] and truncated; and the
    compression run that resets the counters, builds the tree and renders it. */
module Render {
  import opened Raster
  import opened RegionStats
  import opened Quadtree

  /** `static_cast<unsigned char>(max(0.0, min(255.0, v)))`: clamp to [0, 255], then
      drop the fraction (truncation equals flooring on the non-negative clamped value). */
  function Truncate8(v: real): (s: Sample)
    ensures v <= 0.0 ==> s == 0
    ensures v >= 255.0 ==> s == 255
    ensures 0.0 <= v <= 255.0 ==> s as real <= v < s as real + 1.0
  {
    var clamped := if v < 0.0 then 0.0 else if v > 255.0 then 255.0 else v;
    clamped.Floor
  }

  /** The colour a leaf paints: its average colour, channel by channel, clamped and truncated. */
  function LeafColour(avg: RGB): Pixel {
    Pixel(Truncate8(avg.r), Truncate8(avg.g), Truncate8(avg.b))
  }

  /** An average that is exactly a pixel's colour is painted as that pixel. */
  lemma LeafColourExact(p: Pixel)
    ensures LeafColour(RGB(p.r as real, p.g as real, p.b as real)) == p
  {
    Truncate8Exact(p.r);
    Truncate8Exact(p.g);
    Truncate8Exact(p.b);
  }

  /** Clamping and truncating a whole sample value gives it back. */
  lemma Truncate8Exact(v: Sample)
    ensures Truncate8(v as real) == v
  {
    assert (v as real).Floor == v;
  }

  // ---------------------------------------------------------------------------
  // What rendering paints

  /** The leaves of a tree in the order the renderer visits them (depth first,
      children NW, NE, SW, SE). */
  function Leaves(n: Node): seq<Node> {
    if n.isLeaf then [n] else ChildrenLeaves(n.children)
  }

  function ChildrenLeaves(cs: seq<Option<Node>>): seq<Node> {
    if cs == [] then [] else ChildrenLeaves(cs[..|cs| - 1]) + SlotLeaves(cs[|cs| - 1])
  }

  function SlotLeaves(o: Option<Node>): seq<Node> {
    match o
    case None => []
    case Some(c) => Leaves(c)
  }

  /** The colour of the pixel at column `i`, row `j` after the leaves `ls` are drawn in
      order over a pixel that was `prior`: the colour of the last leaf containing it. */
  function Paint(ls: seq<Node>, i: int, j: int, prior: Pixel): Pixel {
    if ls == [] then prior
    else
      var l := ls[|ls| - 1];
      if l.region.Contains(i, j) then LeafColour(l.avgColor) else Paint(ls[..|ls| - 1], i, j, prior)
  }

  /** How many of the leaves `ls` contain the pixel at column `i`, row `j`. */
  function Count(ls: seq<Node>, i: int, j: int): nat {
    if ls == [] then 0
    else Count(ls[..|ls| - 1], i, j) + (if ls[|ls| - 1].region.Contains(i, j) then 1 else 0)
  }

  // ---------------------------------------------------------------------------
  // Properties of painting

  /** Drawing `a` and then `b` is drawing `a + b`. */
  lemma {:induction false} PaintAppend(a: seq<Node>, b: seq<Node>, i: int, j: int, prior: Pixel)
    ensures Paint(a + b, i, j, prior) == Paint(b, i, j, Paint(a, i, j, prior))
    decreases |b|
  {
    if b != [] {
      assert (a + b)[..|a + b| - 1] == a + b[..|b| - 1];
      PaintAppend(a, b[..|b| - 1], i, j, prior);
    } else {
      assert a + b == a;
    }
  }

  /** Leaves are counted additively over a concatenation. */
  lemma {:induction false} CountAppend(a: seq<Node>, b: seq<Node>, i: int, j: int)
    ensures Count(a + b, i, j) == Count(a, i, j) + Count(b, i, j)
    decreases |b|
  {
    if b != [] {
      assert (a + b)[..|a + b| - 1] == a + b[..|b| - 1];
      CountAppend(a, b[..|b| - 1], i, j);
    } else {
      assert a + b == a;
    }
  }

  /** A pixel that no leaf contains keeps its prior colour. */
  lemma {:induction false} PaintUncovered(ls: seq<Node>, i: int, j: int, prior: Pixel)
    requires Count(ls, i, j) == 0
    ensures Paint(ls, i, j, prior) == prior
  {
    if ls != [] {
      PaintUncovered(ls[..|ls| - 1], i, j, prior);
    }
  }

  /** A pixel that exactly one leaf contains takes that leaf's colour. */
  lemma {:induction false} PaintCovered(ls: seq<Node>, i: int, j: int, prior: Pixel, k: nat)
    requires Count(ls, i, j) == 1 && k < |ls| && ls[k].region.Contains(i, j)
    ensures Paint(ls, i, j, prior) == LeafColour(ls[k].avgColor)
  {
    var init := ls[..|ls| - 1];
    if k == |ls| - 1 {
    } else {
      assert init[k] == ls[k];
      if ls[|ls| - 1].region.Contains(i, j) {
        CountWitness(init, i, j, k);
        assert false;
      }
      PaintCovered(init, i, j, prior, k);
    }
  }

  /** A leaf containing the pixel is counted. */
  lemma {:induction false} CountWitness(ls: seq<Node>, i: int, j: int, k: nat)
    requires k < |ls| && ls[k].region.Contains(i, j)
    ensures Count(ls, i, j) >= 1
  {
    if k < |ls| - 1 {
      assert ls[..|ls| - 1][k] == ls[k];
      CountWitness(ls[..|ls| - 1], i, j, k);
    }
  }

  /** A pixel some leaf contains is contained by a leaf at some position. */
  lemma {:induction false} CountPositive(ls: seq<Node>, i: int, j: int) returns (k: nat)
    requires Count(ls, i, j) >= 1
    ensures k < |ls| && ls[k].region.Contains(i, j)
  {
    if ls[|ls| - 1].region.Contains(i, j) {
      k := |ls| - 1;
    } else {
      k := CountPositive(ls[..|ls| - 1], i, j);
      assert ls[..|ls| - 1][k] == ls[k];
    }
  }

  /** The leaves of four slots, unfolded. */
  lemma ChildrenLeavesOfFour(cs: seq<Option<Node>>)
    requires |cs| == 4
    ensures ChildrenLeaves(cs) == SlotLeaves(cs[0]) + SlotLeaves(cs[1]) + SlotLeaves(cs[2]) + SlotLeaves(cs[3])
  {
    assert cs[..3][..2] == cs[..2] && cs[..2][..1] == cs[..1] && cs[..1][..0] == [];
    assert ChildrenLeaves(cs[..1]) == SlotLeaves(cs[0]);
    assert ChildrenLeaves(cs[..2]) == ChildrenLeaves(cs[..1]) + SlotLeaves(cs[1]);
    assert ChildrenLeaves(cs[..3]) == ChildrenLeaves(cs[..2]) + SlotLeaves(cs[2]);
    assert ChildrenLeaves(cs) == ChildrenLeaves(cs[..3]) + SlotLeaves(cs[3]);
  }

  /** The leaves of a well-formed quadtree tile its region exactly: every pixel of
      the region lies in exactly one leaf, every other pixel in none. */
  lemma {:induction false} LeavesTile(n: Node, i: int, j: int)
    requires WellFormed(n)
    decreases n
    ensures Count(Leaves(n), i, j) == if n.region.Contains(i, j) then 1 else 0
  {
    if n.isLeaf {
      assert Leaves(n)[..0] == [];
    } else {
      var cs, qs := n.children, Quadrants(n.region);
      assert cs[0].Some? && cs[0].value.region == qs[0] && WellFormed(cs[0].value);
      assert cs[1].Some? && cs[1].value.region == qs[1] && WellFormed(cs[1].value);
      assert cs[2].Some? && cs[2].value.region == qs[2] && WellFormed(cs[2].value);
      assert cs[3].Some? && cs[3].value.region == qs[3] && WellFormed(cs[3].value);
      var l0, l1, l2, l3 := Leaves(cs[0].value), Leaves(cs[1].value), Leaves(cs[2].value), Leaves(cs[3].value);
      ChildrenLeavesOfFour(cs);
      assert Leaves(n) == l0 + l1 + l2 + l3;
      LeavesTile(cs[0].value, i, j);
      LeavesTile(cs[1].value, i, j);
      LeavesTile(cs[2].value, i, j);
      LeavesTile(cs[3].value, i, j);
      CountAppend(l0 + l1 + l2, l3, i, j);
      CountAppend(l0 + l1, l2, i, j);
      CountAppend(l0, l1, i, j);
      QuadrantsTile(n.region, i, j);
      CoveringOfFour(qs, i, j);
    }
  }

  /** Every leaf of a summarising tree is a leaf node covering part of the image
      and carries that part's average colour. */
  lemma {:induction false} LeavesSummarise(img: Image, n: Node)
    requires WellFormed(n) && Summarises(img, n)
    decreases n
    ensures forall l | l in Leaves(n) :: l.isLeaf && l.region.Within(img) && l.avgColor == MeanColor(img, l.region)
  {
    if !n.isLeaf {
      var cs := n.children;
      assert cs[0].Some? && WellFormed(cs[0].value) && Summarises(img, cs[0].value);
      assert cs[1].Some? && WellFormed(cs[1].value) && Summarises(img, cs[1].value);
      assert cs[2].Some? && WellFormed(cs[2].value) && Summarises(img, cs[2].value);
      assert cs[3].Some? && WellFormed(cs[3].value) && Summarises(img, cs[3].value);
      ChildrenLeavesOfFour(cs);
      LeavesSummarise(img, cs[0].value);
      LeavesSummarise(img, cs[1].value);
      LeavesSummarise(img, cs[2].value);
      LeavesSummarise(img, cs[3].value);
    }
  }

  // ---------------------------------------------------------------------------
  // The renderer

  /** CImg's `draw_rectangle(x0, y0, x1, y1, colour)` at full opacity: every pixel of
      the raster with `x0 <= i <= x1` and `y0 <= j <= y1` becomes `colour`. */
  method DrawRectangle(out: array2<Pixel>, x0: int, y0: int, x1: int, y1: int, colour: Pixel)
    modifies out
    ensures forall i, j | 0 <= i < out.Length0 && 0 <= j < out.Length1 ::
      out[i, j] == if x0 <= i <= x1 && y0 <= j <= y1 then colour else old(out[i, j])
  {
    var iLo, iHi := Max(0, x0), Min(x1 + 1, out.Length0);
    var jLo, jHi := Max(0, y0), Min(y1 + 1, out.Length1);
    var j := jLo;
    while j < jHi
      invariant jLo <= j && (j <= jHi || j == jLo)
      invariant forall i', j' | 0 <= i' < out.Length0 && 0 <= j' < out.Length1 ::
        out[i', j'] == if x0 <= i' <= x1 && y0 <= j' < j then colour else old(out[i', j'])
    {
      var i := iLo;
      while i < iHi
        invariant iLo <= i && (i <= iHi || i == iLo)
        invariant forall i', j' | 0 <= i' < out.Length0 && 0 <= j' < out.Length1 ::
          out[i', j'] == if x0 <= i' <= x1 && (y0 <= j' < j || (j' == j && i' < i)) then colour else old(out[i', j'])
      {
        out[i, j] := colour;
        i := i + 1;
      }
      j := j + 1;
    }
  }

  /** The source's `reconstructImage`: a missing slot paints nothing, a leaf paints its
      rectangle, an internal node renders its children in order. Every pixel ends up
      as if the node's leaves had been drawn over it in order. */
  method ReconstructImage(out: array2<Pixel>, node: Option<Node>)
    modifies out
    decreases node
    ensures forall i, j | 0 <= i < out.Length0 && 0 <= j < out.Length1 ::
      out[i, j] == Paint(SlotLeaves(node), i, j, old(out[i, j]))
  {
    if node.None? {
      return;
    }
    var n := node.value;
    if n.isLeaf {
      var colour := LeafColour(n.avgColor);
      DrawRectangle(out, n.region.x, n.region.y, n.region.x + n.region.width - 1, n.region.y + n.region.height - 1,
                    colour);
      assert Leaves(n) == [n] && [n][..0] == [];
    } else {
      var cs := n.children;
      for k := 0 to |cs|
        invariant forall i, j | 0 <= i < out.Length0 && 0 <= j < out.Length1 ::
          out[i, j] == Paint(ChildrenLeaves(cs[..k]), i, j, old(out[i, j]))
      {
        ReconstructImage(out, cs[k]);
        assert cs[..k + 1][..k] == cs[..k];
        forall i, j | 0 <= i < out.Length0 && 0 <= j < out.Length1
          ensures out[i, j] == Paint(ChildrenLeaves(cs[..k + 1]), i, j, old(out[i, j]))
        {
          PaintAppend(ChildrenLeaves(cs[..k]), SlotLeaves(cs[k]), i, j, old(out[i, j]));
        }
      }
      assert cs[..|cs|] == cs;
    }
  }

  // ---------------------------------------------------------------------------
  // The compression run

  /** The core of one compression: a black output raster of the image's size, the
      counters reset, the tree built from the whole image at depth 0, and rendered.
      Every pixel of the output lies in exactly one leaf of the tree and carries that
      leaf's average colour, clamped and truncated. */
  method Compress(img: Image, threshold: real, minBlockSize: int, errorMethod: int, run: RunCounters)
    returns (out: array2<Pixel>, root: Node)
    modifies run
    ensures fresh(out) && out.Length0 == img.width && out.Length1 == img.height
    ensures root == Decomposition(img, Full(img), threshold, minBlockSize, 0, errorMethod)
    ensures run.nodeCount == NodeCount(root) && run.maxDepth == MaxDepth(root)
    ensures forall i, j | 0 <= i < img.width && 0 <= j < img.height ::
      Count(Leaves(root), i, j) == 1 &&
      exists k | 0 <= k < |Leaves(root)| ::
        Leaves(root)[k].region.Contains(i, j) && Leaves(root)[k].region.Within(img) &&
        out[i, j] == LeafColour(MeanColor(img, Leaves(root)[k].region))
  {
    out := new Pixel[img.width, img.height]((i, j) => Pixel(0, 0, 0));
    root := Decompose(img, threshold, minBlockSize, errorMethod, run);
    ReconstructImage(out, Some(root));
    forall i, j | 0 <= i < img.width && 0 <= j < img.height
      ensures Count(Leaves(root), i, j) == 1
      ensures exists k | 0 <= k < |Leaves(root)| ::
        Leaves(root)[k].region.Contains(i, j) && Leaves(root)[k].region.Within(img) &&
        out[i, j] == LeafColour(MeanColor(img, Leaves(root)[k].region))
    {
      var k := RenderedPixel(img, threshold, minBlockSize, errorMethod, i, j);
    }
  }

  /** Rendering the decomposition of an image over a black raster gives each pixel the
      clamped, truncated average colour of the one leaf that contains it. */
  lemma RenderedPixel(img: Image, threshold: real, minBlockSize: int, errorMethod: int, i: nat, j: nat)
    returns (k: nat)
    requires i < img.width && j < img.height
    ensures var ls := Leaves(Decomposition(img, Full(img), threshold, minBlockSize, 0, errorMethod));
      Count(ls, i, j) == 1 && k < |ls| && ls[k].isLeaf && ls[k].region.Contains(i, j) && ls[k].region.Within(img) &&
      Paint(ls, i, j, Pixel(0, 0, 0)) == LeafColour(MeanColor(img, ls[k].region))
  {
    var root := Decomposition(img, Full(img), threshold, minBlockSize, 0, errorMethod);
    DecompositionShape(img, Full(img), threshold, minBlockSize, 0, errorMethod);
    LeavesSummarise(img, root);
    LeavesTile(root, i, j);
    k := CountPositive(Leaves(root), i, j);
    assert Leaves(root)[k] in Leaves(root);
    PaintCovered(Leaves(root), i, j, Pixel(0, 0, 0), k);
  }

  /** Rendering a well-formed tree leaves every pixel outside its region untouched. */
  lemma OutsideUnchanged(n: Node, i: int, j: int, prior: Pixel)
    requires WellFormed(n) && !n.region.Contains(i, j)
    ensures Paint(Leaves(n), i, j, prior) == prior
  {
    LeavesTile(n, i, j);
    PaintUncovered(Leaves(n), i, j, prior);
  }

  /** An image painted in one colour comes back unchanged: every leaf is non-empty
      and uniform, so its average is that colour and truncation keeps it. */
  lemma UniformImageReproduced(img: Image, threshold: real, minBlockSize: int, errorMethod: int, p: Pixel,
                               i: nat, j: nat)
    requires Uniform(img, Full(img), p) && i < img.width && j < img.height
    ensures var root := Decomposition(img, Full(img), threshold, minBlockSize, 0, errorMethod);
      Paint(Leaves(root), i, j, Pixel(0, 0, 0)) == p
  {
    var root := Decomposition(img, Full(img), threshold, minBlockSize, 0, errorMethod);
    var k := RenderedPixel(img, threshold, minBlockSize, errorMethod, i, j);
    var rg := Leaves(root)[k].region;
    PositiveProduct(rg.width, rg.height);
    assert Uniform(img, rg, p);
    MeanColorUniform(img, rg, p);
    LeafColourExact(p);
  }
}
