/**
  The parts a sparse buffer type is made of. A sub-buffer (data, sparsity map or
  storage-element table) is a memref, a distributed buffer or some other type,
  with a shape, an element type, a dims order, a memory space and a layout;
  the layout stands for everything else the sub-buffer type carries (strides,
  tiling information). The NDTypeInterface and ClusterTypeInterface operations
  of a sub-buffer set the field they name and update the layout through the
  environment; the collaborators whose code is foreign (the storage-element
  attribute, the weights sparsity-map shape inference, compression tiling,
  allocation sizes and the explicit-distribution policies) are functions of
  the environment.
*/
module SparseTypes {
  import opened Wrappers
  import Layers

  type Shape = seq<nat>

  // Opaque attribute and type handles; only their identity matters here.
  datatype ElemType = ElemType(code: int)
  datatype DimsOrder = DimsOrder(code: int)
  datatype MemSpace = MemSpace(code: int)
  datatype Layout = Layout(code: int)
  datatype Distribution = Distribution(code: int)
  datatype SEAttr = SEAttr(code: int)
  datatype Compression = Compression(code: int)

  datatype BufferKind = MemRef | DistributedBuffer(distribution: Distribution) | OtherType(code: int)

  datatype Buffer = Buffer(kind: BufferKind, shape: Shape, elemType: ElemType, order: DimsOrder,
                           memSpace: MemSpace, layout: Layout)
  {
    /** `isa<mlir::MemRefType, VPUIP::DistributedBufferType>` */
    predicate IsBuffer() {
      !kind.OtherType?
    }

    /** `isa<VPUIP::DistributedBufferType>` */
    predicate IsDistributed() {
      kind.DistributedBuffer?
    }
  }

  /** vpux::TypeComponents: every component is optional. */
  datatype TypeComponents = TypeComponents(shape: Option<Shape>, dimsOrder: Option<DimsOrder>,
                                           memSpace: Option<MemSpace>, elemType: Option<ElemType>)

  const NoComponents := TypeComponents(None, None, None, None)

  /** The sub-buffer operations a sparse buffer forwards to its parts. */
  datatype BufferOp =
    | ChangeShapeOp(shape: Shape)
    | ChangeElemTypeOp(elemType: ElemType)
    | ChangeShapeElemTypeOp(shape: Shape, elemType: ElemType)
    | ChangeDimsOrderOp(order: DimsOrder)
    | ChangeMemSpaceOp(memSpace: MemSpace)
    | ChangeStridesOp(strides: Shape)
    | ChangeTypeComponentsOp(components: TypeComponents)
    | ExtractDenseTileOp(offsets: Shape, tileShape: Shape)
    | ExtractViewTileOp(offsets: Shape, tileShape: Shape, elemStrides: Shape)
    | EraseTiledInfoOp
    | PadOp(padBefore: Shape, padAfter: Shape)
    | ChangeShapeExplicitOp(shape: Shape, distribution: Distribution)
    | ChangeShapeElemTypeExplicitOp(shape: Shape, elemType: ElemType, distribution: Distribution)
    | ChangeTypeComponentsExplicitOp(components: TypeComponents, distribution: Distribution)
    | ExtractDenseTileExplicitOp(offsets: Shape, tileShape: Shape, distribution: Distribution)
    | ExtractViewTileExplicitOp(offsets: Shape, tileShape: Shape, elemStrides: Shape, distribution: Distribution)

  /** Which tile extraction: a dense tile, or a view tile with element strides. */
  datatype TileKind = DenseTile | ViewTile(strides: Shape)

  /** The sub-buffer operation of a tile extraction of the given kind. */
  function TileOp(kind: TileKind, offsets: Shape, tileShape: Shape): BufferOp {
    match kind
    case DenseTile => ExtractDenseTileOp(offsets, tileShape)
    case ViewTile(strides) => ExtractViewTileOp(offsets, tileShape, strides)
  }

  /** The same, giving the tile an explicit distribution. */
  function ExplicitTileOp(kind: TileKind, offsets: Shape, tileShape: Shape, distribution: Distribution): BufferOp {
    match kind
    case DenseTile => ExtractDenseTileExplicitOp(offsets, tileShape, distribution)
    case ViewTile(strides) => ExtractViewTileExplicitOp(offsets, tileShape, strides, distribution)
  }

  /** What `SEAttr::extractTile` produces: the tiled attribute and the input tile it needs. */
  datatype SETile = SETile(attr: SEAttr, inputOffsets: Shape, inputShape: Shape)

  /** The foreign collaborators of SparseBufferType. */
  datatype Env = Env(
    inferOutputShape: (SEAttr, Shape) -> Shape,                   // SEAttr::inferOutputShape
    backInferInputShape: (SEAttr, Shape) -> Shape,                // SEAttr::backInferInputShape
    extractTile: (SEAttr, Shape, Shape, Shape) -> SETile,         // SEAttr::extractTile(offsets, shape, dataShape)
    inferWeightsSparsityMapShape: Shape -> Shape,                 // NCESparsity::inferWeightsSparsityMapShape
    tileCompression: (Compression, Shape, Shape) -> Compression,  // tileSparsityCompression(attr, offsets, shape)
    compressionAllocSize: (Compression, ElemType) -> nat,         // SparsityCompressionAttr::getAllocSize
    compressionNumElems: Compression -> nat,                      // SparsityCompressionAttr::getTotalNumElems
    allocSize: Buffer -> nat,                                     // getTotalAllocSize of a sub-buffer
    compactAllocSize: Buffer -> nat,                              // getCompactAllocSize of a sub-buffer
    strides: Buffer -> Shape,                                     // getStrides of a sub-buffer
    isCompact: Buffer -> bool,                                    // StrideReqs::compact(rank).checkStrides
    relayout: (Layout, BufferOp) -> Layout,                       // the layout a sub-buffer operation leaves
    distrForSparseData: (Distribution, Shape, Option<SEAttr>) -> Distribution,
    distrForSparsityMap: (Distribution, Shape, bool) -> Distribution,
    distrForSETable: (Distribution, nat) -> Distribution
  )

  function At(s: Shape, i: nat): nat {
    if i < |s| then s[i] else 0
  }

  /** The shape of a padded sub-buffer; pad amounts missing for a dim count as zero. */
  function PaddedShape(s: Shape, padBefore: Shape, padAfter: Shape): (r: Shape)
    ensures |r| == |s|
    ensures forall i :: 0 <= i < |s| ==> r[i] == s[i] + At(padBefore, i) + At(padAfter, i)
  {
    seq(|s|, i requires 0 <= i < |s| => s[i] + At(padBefore, i) + At(padAfter, i))
  }

  function WithComponents(b: Buffer, c: TypeComponents): Buffer {
    b.(shape := c.shape.GetOr(b.shape), order := c.dimsOrder.GetOr(b.order),
       memSpace := c.memSpace.GetOr(b.memSpace), elemType := c.elemType.GetOr(b.elemType))
  }

  /** The effect of a sub-buffer operation. */
  function Apply(env: Env, b: Buffer, op: BufferOp): Buffer {
    var b' := b.(layout := env.relayout(b.layout, op));
    match op
    case ChangeShapeOp(s) => b'.(shape := s)
    case ChangeElemTypeOp(e) => b'.(elemType := e)
    case ChangeShapeElemTypeOp(s, e) => b'.(shape := s, elemType := e)
    case ChangeDimsOrderOp(o) => b'.(order := o)
    case ChangeMemSpaceOp(m) => b'.(memSpace := m)
    case ChangeStridesOp(_) => b'
    case ChangeTypeComponentsOp(c) => WithComponents(b', c)
    case ExtractDenseTileOp(_, s) => b'.(shape := s)
    case ExtractViewTileOp(_, s, _) => b'.(shape := s)
    case EraseTiledInfoOp => b'
    case PadOp(before, after) => b'.(shape := PaddedShape(b.shape, before, after))
    case ChangeShapeExplicitOp(s, d) => b'.(shape := s, kind := DistributedBuffer(d))
    case ChangeShapeElemTypeExplicitOp(s, e, d) => b'.(shape := s, elemType := e, kind := DistributedBuffer(d))
    case ChangeTypeComponentsExplicitOp(c, d) => WithComponents(b', c).(kind := DistributedBuffer(d))
    case ExtractDenseTileExplicitOp(_, s, d) => b'.(shape := s, kind := DistributedBuffer(d))
    case ExtractViewTileExplicitOp(_, s, _, d) => b'.(shape := s, kind := DistributedBuffer(d))
  }

  // Dims4D::Act indices a storage-element table is addressed with.
  const C: nat := Layers.Dims4DActC
  const H: nat := Layers.Dims4DActH
  const W: nat := Layers.Dims4DActW

  /** The shape has the H and W dims of a 4D activation. */
  predicate HasHW(s: Shape) {
    |s| > W
  }

  /** `s` with its H and W dims taken from `from`. */
  function WithHW(s: Shape, from: Shape): (r: Shape)
    requires HasHW(s) && HasHW(from)
    ensures |r| == |s|
    ensures r[H] == from[H] && r[W] == from[W]
    ensures forall i :: 0 <= i < |s| && i != H && i != W ==> r[i] == s[i]
  {
    s[H := from[H]][W := from[W]]
  }

  /** The storage-element table tile offsets: zero in every dim except H and W. */
  function SETileOffsets(offsets: Shape): (r: Shape)
    requires HasHW(offsets)
    ensures |r| == |offsets|
    ensures r[H] == offsets[H] && r[W] == offsets[W]
    ensures forall i :: 0 <= i < |r| && i != H && i != W ==> r[i] == 0
  {
    seq(|offsets|, i requires 0 <= i < |offsets| => if i == H || i == W then offsets[i] else 0)
  }

  /** Two sub-buffers agree on everything but shape and layout. */
  predicate SameButShape(a: Buffer, b: Buffer) {
    a.kind == b.kind && a.elemType == b.elemType && a.order == b.order && a.memSpace == b.memSpace
  }
}
