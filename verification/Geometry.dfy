/**
  KV-block geometry of a worker: loading the layer tensors, validating the configuration,
  inferring the block dimensions from the tensor shape, and what the resulting
  bytes-per-block accounts for.
 */
module Geometry {
  import opened Wrappers

  type Shape = seq<nat>

  function Product(s: Shape): nat {
    if s == [] then 1 else s[0] * Product(s[1..])
  }

  // ----- Loading the tensors -----

  /** A layer tensor, and whether building its device storage succeeds. */
  datatype Tensor = Tensor(shape: Shape, storageOk: bool)

  datatype LoadOutcome =
    | Loaded(storages: seq<Tensor>, shape: Shape)
    | NoAllocator
    | ShapeMismatch(index: nat)
    | StorageFailed(index: nat)
    | NoTensors // unwrapping the missing shape panics

  predicate Loads(tensors: seq<Tensor>, k: nat)
    requires k < |tensors|
  {
    tensors[k].shape == tensors[0].shape && tensors[k].storageOk
  }

  method LoadAndValidateTensors(tensors: seq<Tensor>, allocatorOk: bool) returns (r: LoadOutcome)
    ensures r == NoAllocator <==> !allocatorOk
    ensures r == NoTensors <==> allocatorOk && tensors == []
    ensures r.Loaded? <==> allocatorOk && tensors != [] && forall k :: 0 <= k < |tensors| ==> Loads(tensors, k)
    ensures r.Loaded? ==> r.storages == tensors && r.shape == tensors[0].shape
    ensures r.ShapeMismatch? || r.StorageFailed? ==>
              r.index < |tensors| && !Loads(tensors, r.index) && forall k :: 0 <= k < r.index ==> Loads(tensors, k)
    ensures r.ShapeMismatch? ==> tensors[r.index].shape != tensors[0].shape
    ensures r.StorageFailed? ==> tensors[r.index].shape == tensors[0].shape
  {
    if !allocatorOk {
      return NoAllocator;
    }
    var shape: Option<Shape> := None;
    var storages := [];
    for i := 0 to |tensors|
      invariant shape == if i == 0 then None else Some(tensors[0].shape)
      invariant storages == tensors[..i]
      invariant forall k :: 0 <= k < i ==> Loads(tensors, k)
    {
      if shape.Some? {
        if shape.value != tensors[i].shape {
          assert !Loads(tensors, i);
          return ShapeMismatch(i);
        }
      } else {
        shape := Some(tensors[i].shape);
      }
      if !tensors[i].storageOk {
        assert !Loads(tensors, i);
        return StorageFailed(i);
      }
      storages := storages + [tensors[i]];
    }
    r := if shape.Some? then Loaded(storages, shape.value) else NoTensors;
  }

  // ----- Configuration -----

  datatype LayoutType = FullyContiguous | LayerSeparate(outerContiguous: bool)

  datatype Config = Config(
    numDeviceBlocks: nat,
    pageSize: nat,
    dtypeWidthBytes: nat,
    layoutType: LayoutType,
    outerDim: Option<nat>,
    innerDim: Option<nat>)

  datatype GeometryError = FieldOutOfRange | UncoupledDims | NoDeviceBlocks | UnsupportedShape

  predicate IsPowerOfTwo(n: nat) {
    n == 1 || (n > 1 && n % 2 == 0 && IsPowerOfTwo(n / 2))
  }

  function Pow2(k: nat): nat {
    if k == 0 then 1 else 2 * Pow2(k - 1)
  }

  predicate FieldsInRange(c: Config) {
    IsPowerOfTwo(c.pageSize) && c.pageSize <= 1024 &&
    (c.outerDim.Some? ==> 1 <= c.outerDim.value <= 2) &&
    (c.innerDim.Some? ==> 1 <= c.innerDim.value)
  }

  function Validate(c: Config): Result<(), GeometryError> {
    if !FieldsInRange(c) then Err(FieldOutOfRange)
    else if c.outerDim.Some? != c.innerDim.Some? then Err(UncoupledDims)
    else Ok(())
  }

  lemma {:induction false} PowerOfTwoExponent(n: nat) returns (k: nat)
    requires IsPowerOfTwo(n)
    ensures n == Pow2(k)
  {
    if n == 1 {
      k := 0;
    } else {
      var j := PowerOfTwoExponent(n / 2);
      k := j + 1;
    }
  }

  lemma {:induction false} Pow2IsPowerOfTwo(k: nat)
    ensures Pow2(k) >= 1 && IsPowerOfTwo(Pow2(k))
  {
    if k > 0 {
      Pow2IsPowerOfTwo(k - 1);
      assert Pow2(k) / 2 == Pow2(k - 1);
    }
  }

  lemma {:induction false} Pow2Grows(j: nat, k: nat)
    requires j <= k
    ensures Pow2(j) <= Pow2(k)
  {
    if j < k {
      Pow2Grows(j, k - 1);
    }
  }

  predicate ValidPageSize(n: nat) {
    exists k: nat :: k <= 10 && n == Pow2(k)
  }

  lemma PageSizesInRange(n: nat)
    ensures IsPowerOfTwo(n) && n <= 1024 <==> ValidPageSize(n)
  {
    assert Pow2(10) == 1024 by {
      assert Pow2(5) == 32;
    }
    if IsPowerOfTwo(n) && n <= 1024 {
      var k := PowerOfTwoExponent(n);
      assert Pow2(11) == 2 * Pow2(10);
      if k > 10 {
        Pow2Grows(11, k);
      }
    }
    if ValidPageSize(n) {
      var k: nat :| k <= 10 && n == Pow2(k);
      Pow2IsPowerOfTwo(k);
      Pow2Grows(k, 10);
    }
  }

  /** The valid configurations: the page size is one of the eleven powers of two up to 1024, so it
      is never zero and no inferred dimension divides by zero; and the explicit dimensions are
      either both absent or both given, the outer one 1 or 2 and the inner one positive. */
  lemma ValidConfigurations(c: Config)
    ensures Validate(c).Ok? <==>
            && ValidPageSize(c.pageSize)
            && ((c.outerDim == None && c.innerDim == None) ||
                (c.outerDim in {Some(1), Some(2)} && c.innerDim.Some? && c.innerDim != Some(0)))
  {
    PageSizesInRange(c.pageSize);
  }

  // ----- Inference -----

  datatype Dims = Dims(numLayers: nat, outerDim: nat, innerDim: nat, bytesPerBlock: nat)

  function BytesPerBlock(numLayers: nat, outerDim: nat, pageSize: nat, innerDim: nat, width: nat): nat {
    numLayers * outerDim * pageSize * innerDim * width
  }

  function GetOr(o: Option<nat>, default: nat): nat {
    if o.Some? then o.value else default
  }

  function OuterAndInner(c: Config, shape: Shape): (nat, nat)
    requires |shape| >= 3 && c.pageSize > 0
  {
    match c.layoutType
    case FullyContiguous =>
      (GetOr(c.outerDim, shape[2]), GetOr(c.innerDim, Product(shape[3..]) / c.pageSize))
    case LayerSeparate(outerContiguous) =>
      if c.outerDim.Some? && c.innerDim.Some? then (c.outerDim.value, c.innerDim.value)
      else
        var candidate := if outerContiguous then shape[0] else shape[1];
        if candidate <= 2 then (candidate, Product(shape[2..]) / c.pageSize)
        else
          var dimsStart := if outerContiguous then 2 else 1;
          (1, Product(shape[dimsStart..]) / c.pageSize)
  }

  /** The dimensions a worker with this configuration and these tensors announces. */
  function Infer(c: Config, shape: Shape, numTensors: nat): Result<Dims, GeometryError> {
    if Validate(c).Err? then Err(Validate(c).error)
    else if c.numDeviceBlocks == 0 then Err(NoDeviceBlocks)
    else if |shape| < 3 then Err(UnsupportedShape)
    else
      var numLayers := if c.layoutType.FullyContiguous? then shape[1] else numTensors;
      var (outerDim, innerDim) := OuterAndInner(c, shape);
      Ok(Dims(numLayers, outerDim, innerDim,
              BytesPerBlock(numLayers, outerDim, c.pageSize, innerDim, c.dtypeWidthBytes)))
  }

  /** Inference needs a valid configuration, at least one block and three axes, and nothing else of
      the tensors. */
  lemma InferenceSucceeds(c: Config, shape: Shape, numTensors: nat)
    ensures Infer(c, shape, numTensors).Ok? <==>
            && ValidPageSize(c.pageSize)
            && ((c.outerDim == None && c.innerDim == None) ||
                (c.outerDim in {Some(1), Some(2)} && c.innerDim.Some? && c.innerDim != Some(0)))
            && c.numDeviceBlocks >= 1
            && |shape| >= 3
    ensures Validate(c).Ok? ==>
              && (Infer(c, shape, numTensors) == Err(NoDeviceBlocks) <==> c.numDeviceBlocks == 0)
              && (Infer(c, shape, numTensors) == Err(UnsupportedShape) <==> c.numDeviceBlocks >= 1 && |shape| < 3)
  {
    ValidConfigurations(c);
  }

  /** Explicit dimensions are used as they are, whatever the tensors; and giving the very dimensions
      that would be inferred changes nothing, where they are allowed. */
  lemma ExplicitDimensions(c: Config, outer: nat, inner: nat, shape: Shape, numTensors: nat)
    requires Infer(c, shape, numTensors).Ok? && 1 <= outer <= 2 && inner >= 1
    ensures var r := Infer(c.(outerDim := Some(outer), innerDim := Some(inner)), shape, numTensors);
            var inferred := Infer(c.(outerDim := None, innerDim := None), shape, numTensors);
            && r.Ok? && inferred.Ok?
            && r.value.outerDim == outer && r.value.innerDim == inner
            && r.value.numLayers == inferred.value.numLayers
            && (inferred.value.outerDim == outer && inferred.value.innerDim == inner ==> r == inferred)
            && (inferred.value.outerDim * inferred.value.innerDim == outer * inner ==>
                  r.value.bytesPerBlock == inferred.value.bytesPerBlock)
  {
    var r := Infer(c.(outerDim := Some(outer), innerDim := Some(inner)), shape, numTensors).value;
    var inferred := Infer(c.(outerDim := None, innerDim := None), shape, numTensors).value;
    Regrouped(r.numLayers, outer, c.pageSize, inner, c.dtypeWidthBytes);
    Regrouped(r.numLayers, inferred.outerDim, c.pageSize, inferred.innerDim, c.dtypeWidthBytes);
  }

  lemma Regrouped(n: nat, o: nat, p: nat, i: nat, w: nat)
    ensures n * o * p * i * w == n * p * w * (o * i)
  {
  }

  // ----- Conservation -----

  /** The outer axis comes first, and is too large to be a K/V axis. */
  predicate OuterContiguousMla(c: Config, shape: Shape) {
    |shape| >= 3 && c.layoutType == LayerSeparate(true) && shape[0] > 2
  }

  predicate InferredFrom(c: Config, shape: Shape, numTensors: nat) {
    c.outerDim == c.innerDim == None && Infer(c, shape, numTensors).Ok?
  }

  /** The number of blocks the shape itself holds. */
  function BlockCount(c: Config, shape: Shape): nat
    requires |shape| >= 3
  {
    if c.layoutType == LayerSeparate(true) then shape[1] else shape[0]
  }

  /** The elements of one block that belong to one layer and one outer component. */
  function Trailing(c: Config, shape: Shape): nat
    requires |shape| >= 3
  {
    match c.layoutType
    case FullyContiguous => Product(shape[3..])
    case LayerSeparate(outerContiguous) =>
      if outerContiguous || shape[1] <= 2 then Product(shape[2..]) else Product(shape[1..])
  }

  /** Bytes held by all layer tensors: one tensor per layer, or one holding every layer. */
  function TensorBytes(c: Config, shape: Shape, numTensors: nat): nat {
    (if c.layoutType.FullyContiguous? then 1 else numTensors) * Product(shape) * c.dtypeWidthBytes
  }

  lemma ProductSplits(s: Shape)
    requires |s| >= 3
    ensures Product(s) == s[0] * Product(s[1..])
    ensures Product(s[1..]) == s[1] * Product(s[2..])
    ensures Product(s[2..]) == s[2] * Product(s[3..])
  {
  }

  lemma ProductFactors(s: Shape)
    requires |s| >= 3
    ensures Product(s) == s[0] * s[1] * Product(s[2..])
    ensures Product(s) == s[0] * s[1] * s[2] * Product(s[3..])
  {
    ProductSplits(s);
    Assoc(s[0], s[1], Product(s[2..]));
    Assoc(s[0] * s[1], s[2], Product(s[3..]));
  }

  lemma Assoc(a: nat, b: nat, c: nat)
    ensures a * (b * c) == a * b * c
  {
  }

  /** Of a block's worth of elements, what flooring by the page size drops. */
  lemma BlockFloor(layers: nat, outer: nat, page: nat, trail: nat, width: nat)
    requires page > 0
    ensures BytesPerBlock(layers, outer, page, trail / page, width) + layers * outer * (trail % page) * width ==
            layers * outer * trail * width
    ensures layers * outer * (trail % page) * width <= layers * outer * page * width
    ensures layers * outer * width > 0 ==> layers * outer * (trail % page) * width < layers * outer * page * width
  {
  }

  lemma MulMonotone(a: nat, b: nat, c: nat)
    requires b <= c
    ensures a * b <= a * c
    ensures a > 0 && b < c ==> a * b < a * c
  {
  }

  /** The geometry of every conserving branch, as factors of the tensors' bytes. */
  lemma TensorFactors(c: Config, shape: Shape, numTensors: nat)
    requires InferredFrom(c, shape, numTensors) && !OuterContiguousMla(c, shape)
    ensures c.pageSize > 0 && |shape| >= 3
    ensures var d := Infer(c, shape, numTensors).value;
            d.innerDim == Trailing(c, shape) / c.pageSize &&
            TensorBytes(c, shape, numTensors) ==
            BlockCount(c, shape) * (d.numLayers * d.outerDim * Trailing(c, shape) * c.dtypeWidthBytes)
  {
    ProductFactors(shape);
    var d := Infer(c, shape, numTensors).value;
    var b, t, w := BlockCount(c, shape), Trailing(c, shape), c.dtypeWidthBytes;
    match c.layoutType
    case FullyContiguous =>
      RegroupAll(shape[0], shape[1], shape[2], t, w);
    case LayerSeparate(outerContiguous) =>
      if outerContiguous {
        RegroupSwapped(numTensors, shape[0], shape[1], t, w);
      } else if shape[1] <= 2 {
        Regroup(numTensors, shape[0], shape[1], t, w);
      } else {
        ProductSplits(shape);
        Regroup(numTensors, shape[0], 1, t, w);
      }
  }

  lemma RegroupAll(b: nat, layers: nat, o: nat, t: nat, w: nat)
    ensures 1 * (b * layers * o * t) * w == b * (layers * o * t * w)
  {
  }

  lemma RegroupSwapped(n: nat, o: nat, b: nat, t: nat, w: nat)
    ensures n * (o * b * t) * w == b * (n * o * t * w)
  {
  }

  lemma Regroup(n: nat, b: nat, o: nat, t: nat, w: nat)
    ensures n * (b * o * t) * w == b * (n * o * t * w)
  {
  }

  /** Conservation with its exact loss: every inferred branch but the outer-contiguous MLA one
      accounts for all bytes of all layer tensors except the flooring remainder of each block,
      which is less than one page; nothing is lost exactly when the page size divides the
      trailing elements (or the tensors are empty anyway). */
  lemma GeometryConservation(c: Config, shape: Shape, numTensors: nat)
    requires InferredFrom(c, shape, numTensors) && !OuterContiguousMla(c, shape)
    ensures c.pageSize > 0
    ensures var d := Infer(c, shape, numTensors).value;
            var perBlock := d.numLayers * d.outerDim;
            var lost := perBlock * (Trailing(c, shape) % c.pageSize) * c.dtypeWidthBytes;
            && TensorBytes(c, shape, numTensors) == BlockCount(c, shape) * (d.bytesPerBlock + lost)
            && lost <= perBlock * c.pageSize * c.dtypeWidthBytes
            && (perBlock * c.dtypeWidthBytes > 0 ==> lost < perBlock * c.pageSize * c.dtypeWidthBytes)
            && (BlockCount(c, shape) * d.bytesPerBlock == TensorBytes(c, shape, numTensors) <==>
                Trailing(c, shape) % c.pageSize == 0 || BlockCount(c, shape) * (perBlock * c.dtypeWidthBytes) == 0)
  {
    TensorFactors(c, shape, numTensors);
    var d := Infer(c, shape, numTensors).value;
    Conservation(BlockCount(c, shape), d.numLayers, d.outerDim, c.pageSize, Trailing(c, shape), c.dtypeWidthBytes);
  }

  lemma Conservation(b: nat, layers: nat, outer: nat, page: nat, trail: nat, width: nat)
    requires page > 0
    ensures var perBlock := layers * outer;
            var bytes := BytesPerBlock(layers, outer, page, trail / page, width);
            var lost := perBlock * (trail % page) * width;
            && b * (layers * outer * trail * width) == b * (bytes + lost)
            && lost <= perBlock * page * width
            && (perBlock * width > 0 ==> lost < perBlock * page * width)
            && (b * bytes == b * (layers * outer * trail * width) <==> trail % page == 0 || b * (perBlock * width) == 0)
  {
    BlockFloor(layers, outer, page, trail, width);
    var perBlock, r := layers * outer, trail % page;
    var bytes := BytesPerBlock(layers, outer, page, trail / page, width);
    var lost := perBlock * r * width;
    Distribute(b, bytes, lost);
    LossVanishes(b, perBlock, r, width);
  }

  lemma Distribute(a: nat, x: nat, y: nat)
    ensures a * (x + y) == a * x + a * y
  {
  }

  lemma LossVanishes(b: nat, p: nat, r: nat, w: nat)
    ensures b * (p * r * w) == 0 <==> r == 0 || b * (p * w) == 0
  {
  }

  /** The remaining branch does not conserve: with the outer axis first and longer than 2 the
      announced blocks cover one outer slice only, so they hold at most 1/shape[0] of the bytes,
      exactly that when the page size divides, and all bytes only of empty tensors. */
  lemma OuterContiguousMlaCoversOneSlice(c: Config, shape: Shape, numTensors: nat)
    requires InferredFrom(c, shape, numTensors) && OuterContiguousMla(c, shape)
    ensures c.pageSize > 0
    ensures var covered := BlockCount(c, shape) * Infer(c, shape, numTensors).value.bytesPerBlock;
            && shape[0] * covered <= TensorBytes(c, shape, numTensors)
            && (Trailing(c, shape) % c.pageSize == 0 ==> shape[0] * covered == TensorBytes(c, shape, numTensors))
            && (covered == TensorBytes(c, shape, numTensors) <==> TensorBytes(c, shape, numTensors) == 0)
  {
    ProductFactors(shape);
    var d := Infer(c, shape, numTensors).value;
    var t, w := Trailing(c, shape), c.dtypeWidthBytes;
    FloorBounds(numTensors, 1, c.pageSize, t, w);
    var slice := numTensors * t * w;
    MulMonotone(shape[1], d.bytesPerBlock, slice);
    var covered := shape[1] * d.bytesPerBlock;
    MulMonotone(shape[0], covered, shape[1] * slice);
    RegroupSlices(numTensors, shape[0], shape[1], t, w);
    Scaled(shape[0], covered, TensorBytes(c, shape, numTensors));
  }

  lemma RegroupSlices(n: nat, o: nat, b: nat, t: nat, w: nat)
    ensures n * (o * b * t) * w == o * (b * (n * t * w))
  {
  }

  lemma Scaled(k: nat, x: nat, y: nat)
    requires k > 1 && k * x <= y
    ensures x == y <==> y == 0
  {
  }

  // ----- Logical and physical pages -----

  /** Whatever page size is configured, as long as it divides: the announced bytes per block do
      not depend on it.  The worker therefore cannot notice a page size the tensors do not have. */
  lemma BytesPerBlockIgnoresPageSize(c: Config, page: nat, shape: Shape, numTensors: nat)
    requires InferredFrom(c, shape, numTensors) && InferredFrom(c.(pageSize := page), shape, numTensors)
    requires Trailing(c, shape) % c.pageSize == 0 && page > 0 && Trailing(c, shape) % page == 0
    ensures Infer(c, shape, numTensors).value.bytesPerBlock ==
            Infer(c.(pageSize := page), shape, numTensors).value.bytesPerBlock
  {
    var d := Infer(c, shape, numTensors).value;
    BlockFloor(d.numLayers, d.outerDim, c.pageSize, Trailing(c, shape), c.dtypeWidthBytes);
    BlockFloor(d.numLayers, d.outerDim, page, Trailing(c, shape), c.dtypeWidthBytes);
  }

  /** Where the code expects the blocks, and where the tokens of a page lie in the shape. */
  function BlockAxis(c: Config): nat {
    if c.layoutType == LayerSeparate(true) then 1 else 0
  }

  function PageAxis(c: Config, shape: Shape): nat
    requires |shape| >= 3
  {
    match c.layoutType
    case FullyContiguous => 3
    case LayerSeparate(outerContiguous) => if outerContiguous || shape[1] <= 2 then 2 else 1
  }

  /** The same tensor paged k times finer: k times as many blocks of 1/k the page. */
  function Repage(c: Config, shape: Shape, k: nat): Shape
    requires |shape| >= 3 && PageAxis(c, shape) < |shape| && k > 0
  {
    var (b, p) := (BlockAxis(c), PageAxis(c, shape));
    shape[p := shape[p] / k][b := shape[b] * k]
  }

  lemma {:induction false} ScaleAt(s: Shape, i: nat, k: nat)
    requires i < |s|
    ensures Product(s[i := s[i] * k]) == k * Product(s)
    decreases i
  {
    var t := s[i := s[i] * k];
    if i == 0 {
      assert t[1..] == s[1..];
      ScaledFactor(k, s[0], Product(s[1..]));
    } else {
      assert t[1..] == s[1..][i - 1 := s[1..][i - 1] * k];
      ScaleAt(s[1..], i - 1, k);
      SwapFactors(s[0], k, Product(s[1..]));
    }
  }

  lemma ScaledFactor(k: nat, x: nat, y: nat)
    ensures x * k * y == k * (x * y)
  {
  }

  lemma SwapFactors(x: nat, k: nat, y: nat)
    ensures x * (k * y) == k * (x * y)
  {
  }

  lemma RepageFacts(c: Config, shape: Shape, k: nat, j: nat)
    requires |shape| >= 3 && k > 0 && PageAxis(c, shape) < |shape| && shape[PageAxis(c, shape)] % k == 0
    requires BlockAxis(c) < j <= PageAxis(c, shape)
    ensures Product(Repage(c, shape, k)) == Product(shape)
    ensures Product(shape[j..]) == k * Product(Repage(c, shape, k)[j..])
  {
    var b, p, physical := BlockAxis(c), PageAxis(c, shape), Repage(c, shape, k);
    var finer := shape[p := shape[p] / k];
    ExactQuotient(shape[p], k);
    assert finer[p := finer[p] * k] == shape;
    ScaleAt(finer, p, k);
    ScaleAt(finer, b, k);
    assert physical == finer[b := finer[b] * k];
    assert finer[j..][p - j := finer[j..][p - j] * k] == shape[j..];
    ScaleAt(finer[j..], p - j, k);
    assert physical[j..] == finer[j..];
  }

  lemma ExactQuotient(x: nat, k: nat)
    requires k > 0 && x % k == 0
    ensures (x / k) * k == x
  {
  }

  /** What the outer dimension and the trailing elements lose together is exactly the factor k. */
  lemma RepageDims(c: Config, shape: Shape, numTensors: nat, k: nat)
    requires |shape| >= 3 && PageAxis(c, shape) < |shape|
    requires k > 0 && shape[PageAxis(c, shape)] == c.pageSize && c.pageSize % k == 0
    requires InferredFrom(c, shape, numTensors)
    ensures var physical := Repage(c, shape, k);
            && InferredFrom(c, physical, numTensors)
            && Infer(c, physical, numTensors).value.numLayers == Infer(c, shape, numTensors).value.numLayers
            && Infer(c, shape, numTensors).value.outerDim * Trailing(c, shape) ==
               k * (Infer(c, physical, numTensors).value.outerDim * Trailing(c, physical))
  {
    var physical, j := Repage(c, shape, k), if c.layoutType.FullyContiguous? then 3 else PageAxis(c, shape);
    RepageFacts(c, shape, k, j);
    ProductSplits(physical);
    SwapFactors(Infer(c, shape, numTensors).value.outerDim, k, Product(physical[j..]));
  }

  lemma PageDividesTrailing(c: Config, shape: Shape)
    requires |shape| >= 3 && PageAxis(c, shape) < |shape| && shape[PageAxis(c, shape)] == c.pageSize > 0
    ensures Trailing(c, shape) % c.pageSize == 0
  {
    var p := PageAxis(c, shape);
    assert shape[p..][1..] == shape[p + 1..];
    MultipleDivides(c.pageSize, Product(shape[p + 1..]));
  }

  /** The mismatch law, for every inferred layout.  Tensors whose logical shape has pages of the
      configured size are physically paged k times finer.  They hold the same bytes; but a block
      announced from the physical shape is at most 1/k of a logical block, and exactly that when
      the page size still divides, so that k ids for each logical one carry all.  Whether or not it
      divides, M unexpanded logical ids carry the bytes of M logical blocks only if k = 1 or there
      are none. */
  lemma MismatchLaw(c: Config, shape: Shape, numTensors: nat, k: nat, m: nat)
    requires |shape| >= 3 && PageAxis(c, shape) < |shape|
    requires k > 0 && shape[PageAxis(c, shape)] == c.pageSize && c.pageSize % k == 0
    requires InferredFrom(c, shape, numTensors)
    ensures InferredFrom(c, Repage(c, shape, k), numTensors)
    ensures var physical := Repage(c, shape, k);
            var announced := Infer(c, physical, numTensors).value.bytesPerBlock;
            var logical := Infer(c, shape, numTensors).value.bytesPerBlock;
            && TensorBytes(c, physical, numTensors) == TensorBytes(c, shape, numTensors)
            && k * announced <= logical
            && (m * announced == m * logical <==> k == 1 || m * logical == 0)
            && (Trailing(c, physical) % c.pageSize == 0 ==>
                  k * announced == logical && (m * k) * announced == m * logical)
  {
    var physical := Repage(c, shape, k);
    RepageFacts(c, shape, k, PageAxis(c, shape));
    RepageDims(c, shape, numTensors, k);
    PageDividesTrailing(c, shape);
    var d, d' := Infer(c, shape, numTensors).value, Infer(c, physical, numTensors).value;
    MismatchArithmetic(d.numLayers, d.outerDim, d'.outerDim, c.pageSize, Trailing(c, shape), Trailing(c, physical),
                       c.dtypeWidthBytes, k);
    if k == 1 {
      assert physical == shape;
    }
    IdsCarry(k, m, d'.bytesPerBlock, d.bytesPerBlock);
  }

  lemma MismatchArithmetic(layers: nat, outer: nat, outer': nat, page: nat, trail: nat, trail': nat, width: nat, k: nat)
    requires page > 0 && k > 0 && trail % page == 0 && outer * trail == k * (outer' * trail')
    ensures var announced := BytesPerBlock(layers, outer', page, trail' / page, width);
            var logical := BytesPerBlock(layers, outer, page, trail / page, width);
            && k * announced <= logical
            && (trail' % page == 0 ==> k * announced == logical)
  {
    FloorBounds(layers, outer', page, trail', width);
    FloorBounds(layers, outer, page, trail, width);
    Grouped(layers, outer, trail, width);
    Grouped(layers, outer', trail', width);
    FactorOut(layers, k, outer' * trail', width);
    MulMonotone(k, BytesPerBlock(layers, outer', page, trail' / page, width), layers * outer' * trail' * width);
  }

  lemma Grouped(a: nat, b: nat, c: nat, d: nat)
    ensures a * b * c * d == a * (b * c) * d
  {
  }

  /** A flat layout is not recognised from a physical page of one or two tokens: the page axis is
      then read as the K/V axis, one token each for what is announced as key and value. */
  lemma MlaPageReadAsKv(c: Config, shape: Shape, numTensors: nat, k: nat)
    requires |shape| >= 3 && c.layoutType == LayerSeparate(false) && k > 0
    requires shape[1] == c.pageSize && c.pageSize % k == 0 && c.pageSize > 2
    requires InferredFrom(c, shape, numTensors)
    ensures Infer(c, shape, numTensors).value.outerDim == 1
    ensures Infer(c, Repage(c, shape, k), numTensors).Ok?
    ensures var d' := Infer(c, Repage(c, shape, k), numTensors).value;
            && d'.outerDim == (if c.pageSize <= 2 * k then c.pageSize / k else 1)
            && (c.pageSize <= 2 * k ==> d'.innerDim == Product(shape[2..]) / c.pageSize)
  {
    ExactQuotient(c.pageSize, k);
    assert c.pageSize <= 2 * k <==> c.pageSize / k <= 2 by {
      if c.pageSize / k <= 2 {
        MulMonotone(k, c.pageSize / k, 2);
      } else {
        MulMonotone(k, 3, c.pageSize / k);
      }
    }
    assert Repage(c, shape, k)[2..] == shape[2..];
  }

  lemma FloorBounds(layers: nat, outer: nat, page: nat, trail: nat, width: nat)
    requires page > 0
    ensures BytesPerBlock(layers, outer, page, trail / page, width) <= layers * outer * trail * width
    ensures trail % page == 0 ==>
              BytesPerBlock(layers, outer, page, trail / page, width) == layers * outer * trail * width
  {
  }

  lemma IdsCarry(k: nat, m: nat, x: nat, y: nat)
    requires k > 0 && k * x <= y && (k == 1 ==> x == y)
    ensures k * x == y ==> (m * k) * x == m * y
    ensures m * x == m * y <==> k == 1 || m * y == 0
  {
    MulMonotone(m, k * x, y);
    SwapFactors(m, k, x);
    if m * x == m * y && k > 1 {
      MulMonotone(m * x, 2, k);
      assert k * (m * x) == (m * x) * k;
    }
    if m * y == 0 && m > 0 {
      assert y == 0;
    }
  }

  lemma FactorOut(p: nat, k: nat, t: nat, w: nat)
    ensures p * (k * t) * w == k * (p * t * w)
  {
  }

  lemma MultipleDivides(p: nat, q: nat)
    requires p > 0
    ensures (p * q) % p == 0
  {
    var d := (p * q) / p;
    if q > d {
      MulMonotone(p, d + 1, q);
    } else {
      MulMonotone(p, q, d);
    }
  }

  const MIB: nat := 1024 * 1024

  /** The archived half-KV run: 40 FP8 layers of [n, 2, 64, 8, 128] registered with page size 128.
      The worker announced 5 MiB blocks with inner dimension 512, and the 312 logical blocks of a
      39936-token prefix moved 1560 MiB of their 3120 MiB, for every tensor length n. */
  lemma HalfKvIncident(n: nat)
    ensures var c := Config(n + 1, 128, 1, LayerSeparate(false), None, None);
            var logical: Shape := [n, 2, 128, 8, 128];
            && Repage(c, logical, 2) == [n * 2, 2, 64, 8, 128]
            && Infer(c, Repage(c, logical, 2), 40) == Ok(Dims(40, 2, 512, 5 * MIB))
            && Infer(c, logical, 40) == Ok(Dims(40, 2, 1024, 10 * MIB))
            && 312 * 128 == 39936
            && 312 * (5 * MIB) == 1560 * MIB && 312 * (10 * MIB) == 3120 * MIB
  {
    var c := Config(n + 1, 128, 1, LayerSeparate(false), None, None);
    assert IsPowerOfTwo(128) by {
      Pow2IsPowerOfTwo(7);
      assert Pow2(4) == 16;
      assert Pow2(7) == 128;
    }
    var logical: Shape := [n, 2, 128, 8, 128];
    var physical: Shape := [n * 2, 2, 64, 8, 128];
    assert Repage(c, logical, 2) == physical;
    assert logical[2..] == [128, 8, 128] && physical[2..] == [64, 8, 128];
    assert Product([128, 8, 128]) == 128 * 8 * 128 by { ThreeFactors(128, 8, 128); }
    assert Product([64, 8, 128]) == 64 * 8 * 128 by { ThreeFactors(64, 8, 128); }
  }

  lemma ThreeFactors(a: nat, b: nat, c: nat)
    ensures Product([a, b, c]) == a * b * c
  {
    assert [a, b, c][1..] == [b, c] && [b, c][1..] == [c] && [c][1..] == [];
    assert Product([c]) == c;
    assert Product([b, c]) == b * c;
    Assoc(a, b, c);
  }
}
