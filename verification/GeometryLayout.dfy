/**
  Where the announced dimensions put an element.  A block layout addresses an element by its block,
  its layer, its outer component and its place within a page row; the tensor stores it in row-major
  order.  The two must be the same place.
 */
module GeometryLayout {
  import opened Wrappers
  import opened Geometry

  type Index = seq<nat>

  predicate InBounds(shape: Shape, index: Index) {
    |index| == |shape| && forall k :: 0 <= k < |shape| ==> index[k] < shape[k]
  }

  /** The r-th element of the a-th run of n elements. */
  function At(a: nat, n: nat, r: nat): nat {
    a * n + r
  }

  lemma AtNested(a: nat, n: nat, b: nat, t: nat, r: nat)
    ensures At(a, n * t, At(b, t, r)) == At(At(a, n, b), t, r)
  {
    Assoc(a, n, t);
    assert (a * n + b) * t == a * n * t + b * t;
  }

  /** The position of an element of a tensor stored in row-major order. */
  function RowMajor(shape: Shape, index: Index): nat
    requires |index| == |shape|
  {
    if shape == [] then 0 else At(index[0], Product(shape[1..]), RowMajor(shape[1..], index[1..]))
  }

  lemma {:induction false} RowMajorBound(shape: Shape, index: Index)
    requires InBounds(shape, index)
    ensures RowMajor(shape, index) < Product(shape)
  {
    if shape != [] {
      assert InBounds(shape[1..], index[1..]) by {
        assert forall k :: 0 <= k < |shape| - 1 ==> index[1..][k] == index[k + 1] && shape[1..][k] == shape[k + 1];
      }
      RowMajorBound(shape[1..], index[1..]);
      MulMonotone(Product(shape[1..]), index[0] + 1, shape[0]);
      assert (index[0] + 1) * Product(shape[1..]) == index[0] * Product(shape[1..]) + Product(shape[1..]);
    }
  }

  /** Where an element lies, in the terms of the block layout: rest counts the elements of one outer
      component of one layer of one block. */
  datatype Place = Place(block: nat, layer: nat, outer: nat, rest: nat)

  /** In range for the announced dimensions. */
  predicate InRange(c: Config, d: Dims, blocks: nat, p: Place) {
    p.block < blocks && p.layer < d.numLayers && p.outer < d.outerDim && p.rest < c.pageSize * d.innerDim
  }

  /** The element offset computed from the announced dimensions, from the start of the tensor that
      holds the layer. */
  function Offset(c: Config, d: Dims, blocks: nat, p: Place): nat {
    var row := c.pageSize * d.innerDim;
    match c.layoutType
    case FullyContiguous => At(At(At(p.block, d.numLayers, p.layer), d.outerDim, p.outer), row, p.rest)
    case LayerSeparate(outerContiguous) =>
      if outerContiguous then At(At(p.outer, blocks, p.block), row, p.rest)
      else At(At(p.block, d.outerDim, p.outer), row, p.rest)
  }

  /** The leading axes of the tensor, in each conserving layout. */
  function Leading(c: Config, shape: Shape, p: Place): Index
    requires |shape| >= 3
  {
    match c.layoutType
    case FullyContiguous => [p.block, p.layer, p.outer]
    case LayerSeparate(outerContiguous) =>
      if outerContiguous then [p.outer, p.block]
      else if shape[1] <= 2 then [p.block, p.outer]
      else [p.block]
  }

  lemma Peel(shape: Shape, a: nat, tail: Index)
    requires |shape| >= 1 && |tail| == |shape| - 1
    ensures RowMajor(shape, [a] + tail) == At(a, Product(shape[1..]), RowMajor(shape[1..], tail))
  {
    assert ([a] + tail)[1..] == tail;
  }

  lemma PeelTwo(shape: Shape, a: nat, b: nat, tail: Index)
    requires |shape| >= 2 && |tail| == |shape| - 2
    ensures RowMajor(shape, [a, b] + tail) == At(At(a, shape[1], b), Product(shape[2..]), RowMajor(shape[2..], tail))
  {
    assert [a, b] + tail == [a] + ([b] + tail);
    Peel(shape, a, [b] + tail);
    Peel(shape[1..], b, tail);
    assert shape[1..][1..] == shape[2..];
    AtNested(a, shape[1], b, Product(shape[2..]), RowMajor(shape[2..], tail));
  }

  lemma PeelThree(shape: Shape, a: nat, b: nat, e: nat, tail: Index)
    requires |shape| >= 3 && |tail| == |shape| - 3
    ensures RowMajor(shape, [a, b, e] + tail) ==
            At(At(At(a, shape[1], b), shape[2], e), Product(shape[3..]), RowMajor(shape[3..], tail))
  {
    assert [a, b, e] + tail == [a, b] + ([e] + tail);
    PeelTwo(shape, a, b, [e] + tail);
    Peel(shape[2..], e, tail);
    assert shape[2..][1..] == shape[3..];
    AtNested(At(a, shape[1], b), shape[2], e, Product(shape[3..]), RowMajor(shape[3..], tail));
  }

  lemma WholePages(c: Config, shape: Shape, numTensors: nat)
    requires InferredFrom(c, shape, numTensors) && Trailing(c, shape) % c.pageSize == 0
    ensures c.pageSize * Infer(c, shape, numTensors).value.innerDim == Trailing(c, shape)
  {
    var d := Infer(c, shape, numTensors).value;
    assert d.innerDim == Trailing(c, shape) / c.pageSize;
  }

  /** The address law, for every inferred layout.  When the page size divides, an element in range of the announced dimensions is
      an element of the tensor, and the announced dimensions put it exactly where the tensor has it. */
  lemma AddressLaw(c: Config, shape: Shape, numTensors: nat, p: Place, tail: Index)
    requires InferredFrom(c, shape, numTensors)
    requires Trailing(c, shape) % c.pageSize == 0
    requires InRange(c, Infer(c, shape, numTensors).value, BlockCount(c, shape), p)
    requires InBounds(shape[|Leading(c, shape, p)|..], tail) && p.rest == RowMajor(shape[|Leading(c, shape, p)|..], tail)
    ensures var index := Leading(c, shape, p) + tail;
            && InBounds(shape, index)
            && (c.layoutType.FullyContiguous? || p.layer < numTensors)
            && Offset(c, Infer(c, shape, numTensors).value, BlockCount(c, shape), p) == RowMajor(shape, index)
            && RowMajor(shape, index) < Product(shape)
  {
    WholePages(c, shape, numTensors);
    var leading := Leading(c, shape, p);
    var index := leading + tail;
    forall k | 0 <= k < |shape| ensures index[k] < shape[k] {
      if k >= |leading| {
        assert index[k] == tail[k - |leading|] < shape[|leading|..][k - |leading|];
      }
    }
    RowMajorBound(shape, index);
    match c.layoutType
    case FullyContiguous => PeelThree(shape, p.block, p.layer, p.outer, tail);
    case LayerSeparate(outerContiguous) =>
      if outerContiguous {
        PeelTwo(shape, p.outer, p.block, tail);
      } else if shape[1] <= 2 {
        PeelTwo(shape, p.block, p.outer, tail);
      } else {
        Peel(shape, p.block, tail);
      }
  }

  /** The place of an element of the tensor that holds the layer. */
  function PlaceOf(c: Config, shape: Shape, layer: nat, index: Index): Place
    requires |shape| >= 3 && |index| == |shape|
  {
    match c.layoutType
    case FullyContiguous => Place(index[0], index[1], index[2], RowMajor(shape[3..], index[3..]))
    case LayerSeparate(outerContiguous) =>
      if outerContiguous then Place(index[1], layer, index[0], RowMajor(shape[2..], index[2..]))
      else if shape[1] <= 2 then Place(index[0], layer, index[1], RowMajor(shape[2..], index[2..]))
      else Place(index[0], layer, 0, RowMajor(shape[1..], index[1..]))
  }

  /** Conversely, in the conserving layouts, every element of every layer tensor has a place in range
      and is addressed there. */
  lemma EveryElementIsAddressed(c: Config, shape: Shape, numTensors: nat, layer: nat, index: Index)
    requires InferredFrom(c, shape, numTensors) && !OuterContiguousMla(c, shape)
    requires Trailing(c, shape) % c.pageSize == 0
    requires InBounds(shape, index) && (c.layoutType.FullyContiguous? || layer < numTensors)
    ensures var p := PlaceOf(c, shape, layer, index);
            && InRange(c, Infer(c, shape, numTensors).value, BlockCount(c, shape), p)
            && Offset(c, Infer(c, shape, numTensors).value, BlockCount(c, shape), p) == RowMajor(shape, index)
  {
    WholePages(c, shape, numTensors);
    var p := PlaceOf(c, shape, layer, index);
    var leading := Leading(c, shape, p);
    var tail := index[|leading|..];
    assert index == leading + tail;
    assert InBounds(shape[|leading|..], tail);
    RowMajorBound(shape[|leading|..], tail);
    AddressLaw(c, shape, numTensors, p, tail);
  }

  /** In the fully contiguous layout the announced bytes per block are the distance of two blocks, so
      all of a block lies within the bytes announced for it, and blocks do not overlap. */
  lemma BlocksAreBytesPerBlockApart(c: Config, shape: Shape, numTensors: nat, p: Place)
    requires InferredFrom(c, shape, numTensors) && c.layoutType.FullyContiguous?
    requires InRange(c, Infer(c, shape, numTensors).value, BlockCount(c, shape), p)
    ensures var d := Infer(c, shape, numTensors).value;
            var at := Offset(c, d, BlockCount(c, shape), p) * c.dtypeWidthBytes;
            && p.block * d.bytesPerBlock <= at
            && at + c.dtypeWidthBytes <= (p.block + 1) * d.bytesPerBlock
  {
    var d, w := Infer(c, shape, numTensors).value, c.dtypeWidthBytes;
    var row := c.pageSize * d.innerDim;
    var inBlock := (p.layer * d.outerDim + p.outer) * row + p.rest;
    var size := d.numLayers * d.outerDim * row;
    Nested(d.numLayers, d.outerDim, row, p.layer, p.outer, p.rest);
    assert Offset(c, d, BlockCount(c, shape), p) == p.block * size + inBlock by {
      AtNested(p.block, d.numLayers, p.layer, d.outerDim, p.outer);
      AtNested(p.block, d.numLayers * d.outerDim, At(p.layer, d.outerDim, p.outer), row, p.rest);
    }
    assert d.bytesPerBlock == size * w by {
      Assoc(d.numLayers * d.outerDim, c.pageSize, d.innerDim);
    }
    Scale(p.block, size, inBlock, w);
  }

  lemma Nested(layers: nat, outers: nat, row: nat, l: nat, o: nat, r: nat)
    requires l < layers && o < outers && r < row
    ensures (l * outers + o) * row + r < layers * outers * row
  {
    MulMonotone(outers, l + 1, layers);
    MulMonotone(row, l * outers + o + 1, layers * outers);
    assert (l * outers + o + 1) * row == (l * outers + o) * row + row;
  }

  lemma Scale(b: nat, size: nat, inBlock: nat, w: nat)
    requires inBlock < size
    ensures b * (size * w) <= (b * size + inBlock) * w
    ensures (b * size + inBlock) * w + w <= (b + 1) * (size * w)
  {
    Assoc(b, size, w);
    MulMonotone(w, inBlock + 1, size);
    assert (b * size + inBlock) * w == b * size * w + inBlock * w;
    assert (b + 1) * (size * w) == b * (size * w) + size * w;
  }
}
