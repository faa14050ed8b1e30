/**
  VPUIP::SparseBufferType: a data buffer with an optional sparsity map, an
  optional storage-element table (SET), an `is_weights` flag, an optional
  sparsity-compression attribute and an optional storage-element attribute
  (seAttr). Every structural operation rebuilds the three sub-buffers and goes
  through `get`, which checks them with `verify` as an assertion; the model
  returns the diagnostic of a failed check as the operation's error.
*/
module SparseBuffer {
  import opened Wrappers
  import opened SparseTypes

  datatype SparseBuffer = SparseBuffer(
    data: Buffer,
    sparsityMap: Option<Buffer>,
    storageElementTable: Option<Buffer>,
    isWeights: bool,
    sparsityCompression: Option<Compression>,
    seAttr: Option<SEAttr>)

  /** The diagnostics of `verify`, one per check, in the order they are made. */
  datatype VerifyError =
    | DataNotBuffer
    | SparsityMapNotBuffer
    | StorageElementTableNotBuffer
    | SeAttrWithWeightsAttributes
    | SparsityMapNotDistributed
    | StorageElementTableNotDistributed

  datatype Part = DataPart | SparsityMapPart | StorageElementTablePart

  /** Why an operation on a sparse buffer fails (a thrown error or a failed `get`). */
  datatype Failure =
    | Invalid(error: VerifyError)
    | StridesNotCompact
    | NotDistributed(part: Part)
    | SeSizeMismatch(prevSeSize: nat, newSeSize: nat)
    | StridedViewWithSeAttr

  predicate IsBufferOrAbsent(b: Option<Buffer>) {
    b.None? || b.value.IsBuffer()
  }

  predicate IsDistributedOrAbsent(b: Option<Buffer>) {
    b.None? || b.value.IsDistributed()
  }

  /** The conditions `verify` accepts. */
  predicate Valid(t: SparseBuffer) {
    && t.data.IsBuffer()
    && IsBufferOrAbsent(t.sparsityMap)
    && IsBufferOrAbsent(t.storageElementTable)
    && (t.seAttr.Some? ==> !t.isWeights && t.sparsityCompression.None?)
    && (t.data.IsDistributed() ==> IsDistributedOrAbsent(t.sparsityMap) && IsDistributedOrAbsent(t.storageElementTable))
  }

  /** SparseBufferType::verify: None on success, otherwise the first check that fails. */
  function Verify(data: Buffer, sparsityMap: Option<Buffer>, seTable: Option<Buffer>, isWeights: bool,
                  compression: Option<Compression>, seAttr: Option<SEAttr>): (r: Option<VerifyError>)
    ensures r.None? <==> Valid(SparseBuffer(data, sparsityMap, seTable, isWeights, compression, seAttr))
    ensures r == Some(DataNotBuffer) <==> !data.IsBuffer()
    ensures r == Some(SparsityMapNotBuffer) <==> data.IsBuffer() && !IsBufferOrAbsent(sparsityMap)
    ensures r == Some(StorageElementTableNotBuffer) <==>
              data.IsBuffer() && IsBufferOrAbsent(sparsityMap) && !IsBufferOrAbsent(seTable)
    ensures r == Some(SeAttrWithWeightsAttributes) <==>
              data.IsBuffer() && IsBufferOrAbsent(sparsityMap) && IsBufferOrAbsent(seTable) &&
              seAttr.Some? && (isWeights || compression.Some?)
    ensures r == Some(SparsityMapNotDistributed) <==>
              data.IsBuffer() && IsBufferOrAbsent(sparsityMap) && IsBufferOrAbsent(seTable) &&
              !(seAttr.Some? && (isWeights || compression.Some?)) &&
              data.IsDistributed() && !IsDistributedOrAbsent(sparsityMap)
    ensures r == Some(StorageElementTableNotDistributed) <==>
              data.IsBuffer() && IsBufferOrAbsent(sparsityMap) && IsBufferOrAbsent(seTable) &&
              !(seAttr.Some? && (isWeights || compression.Some?)) &&
              data.IsDistributed() && IsDistributedOrAbsent(sparsityMap) && !IsDistributedOrAbsent(seTable)
  {
    if !data.IsBuffer() then Some(DataNotBuffer)
    else if sparsityMap.Some? && !sparsityMap.value.IsBuffer() then Some(SparsityMapNotBuffer)
    else if seTable.Some? && !seTable.value.IsBuffer() then Some(StorageElementTableNotBuffer)
    else if seAttr.Some? && (isWeights || compression.Some?) then Some(SeAttrWithWeightsAttributes)
    else if data.IsDistributed() then
      if sparsityMap.Some? && !sparsityMap.value.IsDistributed() then Some(SparsityMapNotDistributed)
      else if seTable.Some? && !seTable.value.IsDistributed() then Some(StorageElementTableNotDistributed)
      else None
    else None
  }

  /** SparseBufferType::get with its `verify` check: the source asserts that check, the model returns
      the diagnostic of a failed one as the error. */
  function Rebuild(data: Buffer, sparsityMap: Option<Buffer>, seTable: Option<Buffer>, isWeights: bool,
                   compression: Option<Compression>, seAttr: Option<SEAttr>): (r: Result<SparseBuffer, Failure>)
    ensures r.Ok? <==> Valid(SparseBuffer(data, sparsityMap, seTable, isWeights, compression, seAttr))
    ensures r.Ok? ==> r.value == SparseBuffer(data, sparsityMap, seTable, isWeights, compression, seAttr)
    ensures r.Err? ==> r.error.Invalid? && Verify(data, sparsityMap, seTable, isWeights, compression, seAttr) == Some(r.error.error)
  {
    match Verify(data, sparsityMap, seTable, isWeights, compression, seAttr)
    case Some(e) => Err(Invalid(e))
    case None => Ok(SparseBuffer(data, sparsityMap, seTable, isWeights, compression, seAttr))
  }

  // NDTypeInterface getters

  /** VPU::getEffectiveSparseOutputType: the data reshaped to the output shape of seAttr. */
  function EffectiveData(env: Env, t: SparseBuffer): Buffer {
    if t.seAttr.Some? then Apply(env, t.data, ChangeShapeOp(env.inferOutputShape(t.seAttr.value, t.data.shape)))
    else t.data
  }

  function GetShape(env: Env, t: SparseBuffer): Shape {
    EffectiveData(env, t).shape
  }

  function GetRank(t: SparseBuffer): nat {
    |t.data.shape|
  }

  function Product(s: Shape): nat {
    if s == [] then 1 else Product(s[..|s| - 1]) * s[|s| - 1]
  }

  function GetNumElements(env: Env, t: SparseBuffer): nat {
    if t.sparsityCompression.Some? then env.compressionNumElems(t.sparsityCompression.value)
    else Product(GetShape(env, t))
  }

  /** The element type of the effective data, which reshaping leaves as the data's own. */
  function GetElementType(env: Env, t: SparseBuffer): (r: ElemType)
    ensures r == t.data.elemType
  {
    EffectiveData(env, t).elemType
  }

  function GetDimsOrder(t: SparseBuffer): DimsOrder {
    t.data.order
  }

  function GetMemSpace(t: SparseBuffer): MemSpace {
    t.data.memSpace
  }

  /** With seAttr the strides are those of the effective data, which are compact. */
  function GetStrides(env: Env, t: SparseBuffer): Shape {
    if t.seAttr.Some? then env.strides(EffectiveData(env, t)) else env.strides(t.data)
  }

  /** The sub-buffers present, in the order data, sparsity map, SET. */
  function Parts(t: SparseBuffer): seq<Buffer> {
    [t.data] + AuxParts(t)
  }

  function AuxParts(t: SparseBuffer): seq<Buffer> {
    (if t.sparsityMap.Some? then [t.sparsityMap.value] else [])
      + (if t.storageElementTable.Some? then [t.storageElementTable.value] else [])
  }

  function SumSizes(size: Buffer -> nat, bs: seq<Buffer>): nat {
    if bs == [] then 0 else SumSizes(size, bs[..|bs| - 1]) + size(bs[|bs| - 1])
  }

  /** The size of the data: the compressed size when compression is present. */
  function DataAllocSize(env: Env, t: SparseBuffer): nat {
    if t.sparsityCompression.Some? then env.compressionAllocSize(t.sparsityCompression.value, GetElementType(env, t))
    else env.allocSize(t.data)
  }

  function TotalAllocSize(env: Env, t: SparseBuffer): nat {
    var total := DataAllocSize(env, t);
    var total := if t.sparsityMap.Some? then total + env.allocSize(t.sparsityMap.value) else total;
    if t.storageElementTable.Some? then total + env.allocSize(t.storageElementTable.value) else total
  }

  /** The compact size takes the compact size of the auxiliary buffers but the total size of the data. */
  function CompactAllocSize(env: Env, t: SparseBuffer): nat {
    var compact := DataAllocSize(env, t);
    var compact := if t.sparsityMap.Some? then compact + env.compactAllocSize(t.sparsityMap.value) else compact;
    if t.storageElementTable.Some? then compact + env.compactAllocSize(t.storageElementTable.value) else compact
  }

  lemma SumSizesOfAux(size: Buffer -> nat, t: SparseBuffer)
    ensures SumSizes(size, AuxParts(t))
            == (if t.sparsityMap.Some? then size(t.sparsityMap.value) else 0)
               + (if t.storageElementTable.Some? then size(t.storageElementTable.value) else 0)
  {
    var aux := AuxParts(t);
    if t.sparsityMap.Some? && t.storageElementTable.Some? {
      assert aux == [t.sparsityMap.value, t.storageElementTable.value];
      assert aux[..1] == [t.sparsityMap.value];
      assert aux[..1][..0] == [];
      assert SumSizes(size, aux[..1]) == size(t.sparsityMap.value);
    } else if aux != [] {
      assert aux[..0] == [];
    }
  }

  /** The total allocation size is the data's size (compressed when compression is present) plus the
      sizes of the auxiliary buffers present; without compression it is the sum over all parts. */
  lemma TotalAllocSizeOfParts(env: Env, t: SparseBuffer)
    ensures TotalAllocSize(env, t) == DataAllocSize(env, t) + SumSizes(env.allocSize, AuxParts(t))
    ensures t.sparsityCompression.None? ==> TotalAllocSize(env, t) == SumSizes(env.allocSize, Parts(t))
  {
    SumSizesOfAux(env.allocSize, t);
    if t.sparsityCompression.None? {
      SumSizesPrepend(env.allocSize, t.data, AuxParts(t));
    }
  }

  lemma {:induction false} SumSizesPrepend(size: Buffer -> nat, b: Buffer, bs: seq<Buffer>)
    ensures SumSizes(size, [b] + bs) == size(b) + SumSizes(size, bs)
  {
    if bs != [] {
      assert ([b] + bs)[..|bs|] == [b] + bs[..|bs| - 1];
      SumSizesPrepend(size, b, bs[..|bs| - 1]);
    } else {
      assert ([b] + bs)[..0] == [];
    }
  }

  /** When every sub-buffer's compact size is at most its total size, so is the sparse buffer's;
      without auxiliary buffers both sizes are the data's total size. */
  lemma CompactAllocSizeBound(env: Env, t: SparseBuffer)
    requires forall b :: env.compactAllocSize(b) <= env.allocSize(b)
    ensures CompactAllocSize(env, t) <= TotalAllocSize(env, t)
    ensures t.sparsityMap.None? && t.storageElementTable.None? ==> CompactAllocSize(env, t) == TotalAllocSize(env, t)
  {
    if t.sparsityMap.Some? {
      assert env.compactAllocSize(t.sparsityMap.value) <= env.allocSize(t.sparsityMap.value);
    }
    if t.storageElementTable.Some? {
      assert env.compactAllocSize(t.storageElementTable.value) <= env.allocSize(t.storageElementTable.value);
    }
  }

  // DistributedTypeInterface

  /** Only the data decides: when it is distributed, a valid type's other parts are too. */
  predicate ContainsDistributedTypes(t: SparseBuffer) {
    t.data.IsDistributed()
  }

  function DistributedTypes(t: SparseBuffer): seq<Buffer> {
    (if t.data.IsDistributed() then [t.data] else [])
      + (if t.sparsityMap.Some? && t.sparsityMap.value.IsDistributed() then [t.sparsityMap.value] else [])
      + (if t.storageElementTable.Some? && t.storageElementTable.value.IsDistributed()
         then [t.storageElementTable.value] else [])
  }

  /** getDistributedTypes lists exactly the distributed parts, in part order; for a valid type with
      distributed data that is every part. With memref data only auxiliary buffers are listed, and
      containsDistributedTypes, which looks at the data alone, does not report them. */
  lemma DistributedTypesOfValid(t: SparseBuffer)
    ensures forall b :: b in DistributedTypes(t) ==> b in Parts(t) && b.IsDistributed()
    ensures forall i :: 0 <= i < |Parts(t)| && Parts(t)[i].IsDistributed() ==> Parts(t)[i] in DistributedTypes(t)
    ensures Valid(t) && ContainsDistributedTypes(t) ==> DistributedTypes(t) == Parts(t)
    ensures !ContainsDistributedTypes(t) ==> forall b :: b in DistributedTypes(t) ==> b in AuxParts(t)
  {
  }

  // Shapes the operations give to each part

  /** The data shape for an output shape: back-inferred through seAttr when it is present. */
  function InputDataShape(env: Env, seAttr: Option<SEAttr>, shape: Shape): Shape {
    if seAttr.Some? then env.backInferInputShape(seAttr.value, shape) else shape
  }

  /** The sparsity-map shape for an output shape: inferred for weights, otherwise the shape itself. */
  function SparsityMapShape(env: Env, isWeights: bool, shape: Shape): Shape {
    if isWeights then env.inferWeightsSparsityMapShape(shape) else shape
  }

  /** The SET keeps its own dims except H and W, which come from `from`. */
  function SETShape(seTable: Option<Buffer>, from: Shape): Shape
    requires seTable.Some? ==> HasHW(seTable.value.shape) && HasHW(from)
  {
    if seTable.Some? then WithHW(seTable.value.shape, from) else []
  }

  predicate SETFits(t: SparseBuffer, shape: Shape) {
    t.storageElementTable.Some? ==> HasHW(shape) && HasHW(t.storageElementTable.value.shape)
  }

  function MapPart(env: Env, b: Option<Buffer>, op: BufferOp): Option<Buffer> {
    if b.Some? then Some(Apply(env, b.value, op)) else None
  }

  /** The part is present exactly when it was, with shape `s` and otherwise the same kind and types. */
  predicate PartReshaped(before: Option<Buffer>, after: Option<Buffer>, s: Shape) {
    (before.Some? <==> after.Some?) &&
    (before.Some? ==> after.value.shape == s && SameButShape(before.value, after.value))
  }

  predicate SameAttributes(a: SparseBuffer, b: SparseBuffer) {
    a.isWeights == b.isWeights && a.sparsityCompression == b.sparsityCompression && a.seAttr == b.seAttr
  }

  // Structural operations

  function ChangeShapeElemType(env: Env, t: SparseBuffer, shape: Shape, elemType: ElemType)
    : (r: Result<SparseBuffer, Failure>)
    requires Valid(t) && SETFits(t, shape)
    ensures r.Ok? && Valid(r.value) && SameAttributes(t, r.value)
    ensures r.value.data.shape == InputDataShape(env, t.seAttr, shape) && r.value.data.elemType == elemType
    ensures r.value.data.kind == t.data.kind && r.value.data.order == t.data.order
    ensures r.value.data.memSpace == t.data.memSpace
    ensures PartReshaped(t.sparsityMap, r.value.sparsityMap, SparsityMapShape(env, t.isWeights, shape))
    ensures PartReshaped(t.storageElementTable, r.value.storageElementTable, SETShape(t.storageElementTable, shape))
  {
    var data := Apply(env, t.data, ChangeShapeElemTypeOp(InputDataShape(env, t.seAttr, shape), elemType));
    var sparsityMap := MapPart(env, t.sparsityMap, ChangeShapeOp(SparsityMapShape(env, t.isWeights, shape)));
    var seTable := MapPart(env, t.storageElementTable, ChangeShapeOp(SETShape(t.storageElementTable, shape)));
    Rebuild(data, sparsityMap, seTable, t.isWeights, t.sparsityCompression, t.seAttr)
  }

  function ChangeShape(env: Env, t: SparseBuffer, shape: Shape): (r: Result<SparseBuffer, Failure>)
    requires Valid(t) && SETFits(t, shape)
    ensures r.Ok? && Valid(r.value) && SameAttributes(t, r.value)
    ensures r.value.data.shape == InputDataShape(env, t.seAttr, shape) && SameButShape(t.data, r.value.data)
    ensures PartReshaped(t.sparsityMap, r.value.sparsityMap, SparsityMapShape(env, t.isWeights, shape))
    ensures PartReshaped(t.storageElementTable, r.value.storageElementTable, SETShape(t.storageElementTable, shape))
  {
    ChangeShapeElemType(env, t, shape, GetElementType(env, t))
  }

  /** Only the data's element type changes. */
  function ChangeElemType(env: Env, t: SparseBuffer, elemType: ElemType): (r: Result<SparseBuffer, Failure>)
    requires Valid(t)
    ensures r.Ok? && Valid(r.value)
    ensures r.value.(data := t.data) == t
    ensures r.value.data.elemType == elemType && r.value.data.shape == t.data.shape
    ensures r.value.data.kind == t.data.kind && r.value.data.order == t.data.order
    ensures r.value.data.memSpace == t.data.memSpace
  {
    Rebuild(Apply(env, t.data, ChangeElemTypeOp(elemType)), t.sparsityMap, t.storageElementTable,
            t.isWeights, t.sparsityCompression, t.seAttr)
  }

  predicate Reordered(before: Buffer, after: Buffer, order: DimsOrder) {
    after.order == order && after.kind == before.kind && after.shape == before.shape &&
    after.elemType == before.elemType && after.memSpace == before.memSpace
  }

  /** The data is reordered; the sparsity map only when it is not a weights map; the SET, always
      laid out 1xDxHxW, never changes. */
  function ChangeDimsOrder(env: Env, t: SparseBuffer, order: DimsOrder): (r: Result<SparseBuffer, Failure>)
    requires Valid(t)
    ensures r.Ok? && Valid(r.value) && SameAttributes(t, r.value)
    ensures Reordered(t.data, r.value.data, order)
    ensures t.sparsityMap.Some? <==> r.value.sparsityMap.Some?
    ensures t.sparsityMap.Some? && !t.isWeights ==> Reordered(t.sparsityMap.value, r.value.sparsityMap.value, order)
    ensures t.isWeights ==> r.value.sparsityMap == t.sparsityMap
    ensures r.value.storageElementTable == t.storageElementTable
  {
    var data := Apply(env, t.data, ChangeDimsOrderOp(order));
    var sparsityMap := if t.isWeights then t.sparsityMap else MapPart(env, t.sparsityMap, ChangeDimsOrderOp(order));
    Rebuild(data, sparsityMap, t.storageElementTable, t.isWeights, t.sparsityCompression, t.seAttr)
  }

  predicate Moved(before: Buffer, after: Buffer, memSpace: MemSpace) {
    after.memSpace == memSpace && after.kind == before.kind && after.shape == before.shape &&
    after.elemType == before.elemType && after.order == before.order
  }

  /** Every part moves to the memory space. */
  function ChangeMemSpace(env: Env, t: SparseBuffer, memSpace: MemSpace): (r: Result<SparseBuffer, Failure>)
    requires Valid(t)
    ensures r.Ok? && Valid(r.value) && SameAttributes(t, r.value)
    ensures Moved(t.data, r.value.data, memSpace)
    ensures t.sparsityMap.Some? <==> r.value.sparsityMap.Some?
    ensures t.sparsityMap.Some? ==> Moved(t.sparsityMap.value, r.value.sparsityMap.value, memSpace)
    ensures t.storageElementTable.Some? <==> r.value.storageElementTable.Some?
    ensures t.storageElementTable.Some? ==>
              Moved(t.storageElementTable.value, r.value.storageElementTable.value, memSpace)
  {
    Rebuild(Apply(env, t.data, ChangeMemSpaceOp(memSpace)),
            MapPart(env, t.sparsityMap, ChangeMemSpaceOp(memSpace)),
            MapPart(env, t.storageElementTable, ChangeMemSpaceOp(memSpace)),
            t.isWeights, t.sparsityCompression, t.seAttr)
  }

  /** With seAttr only compact strides of the effective data are accepted and nothing changes;
      otherwise the data takes the strides. */
  function ChangeStrides(env: Env, t: SparseBuffer, strides: Shape): (r: Result<SparseBuffer, Failure>)
    requires Valid(t)
    ensures t.seAttr.Some? ==>
              (r.Ok? <==> env.isCompact(Apply(env, EffectiveData(env, t), ChangeStridesOp(strides)))) &&
              (r.Ok? ==> r.value == t) && (r.Err? ==> r.error == StridesNotCompact)
    ensures t.seAttr.None? ==>
              r.Ok? && Valid(r.value) && r.value.(data := t.data) == t &&
              r.value.data.shape == t.data.shape && SameButShape(t.data, r.value.data) &&
              r.value.data.layout == env.relayout(t.data.layout, ChangeStridesOp(strides))
  {
    if t.seAttr.Some? then
      var effective := Apply(env, EffectiveData(env, t), ChangeStridesOp(strides));
      if !env.isCompact(effective) then Err(StridesNotCompact)
      else Rebuild(t.data, t.sparsityMap, t.storageElementTable, t.isWeights, t.sparsityCompression, t.seAttr)
    else
      Rebuild(Apply(env, t.data, ChangeStridesOp(strides)), t.sparsityMap, t.storageElementTable,
              t.isWeights, t.sparsityCompression, t.seAttr)
  }

  /** The shape the components ask for, the sparse buffer's own shape by default. */
  function ComponentShape(env: Env, t: SparseBuffer, c: TypeComponents): Shape {
    c.shape.GetOr(GetShape(env, t))
  }

  function SparsityMapComponents(env: Env, t: SparseBuffer, c: TypeComponents): TypeComponents {
    var shape := ComponentShape(env, t, c);
    var memSpace := c.memSpace.GetOr(GetMemSpace(t));
    if t.isWeights then TypeComponents(Some(env.inferWeightsSparsityMapShape(shape)), None, Some(memSpace), None)
    else TypeComponents(Some(shape), Some(c.dimsOrder.GetOr(GetDimsOrder(t))), Some(memSpace), None)
  }

  function SETComponents(env: Env, t: SparseBuffer, c: TypeComponents): TypeComponents
    requires SETFits(t, ComponentShape(env, t, c))
  {
    TypeComponents(Some(SETShape(t.storageElementTable, ComponentShape(env, t, c))), None,
                   Some(c.memSpace.GetOr(GetMemSpace(t))), None)
  }

  function ChangeTypeComponents(env: Env, t: SparseBuffer, c: TypeComponents): (r: Result<SparseBuffer, Failure>)
    requires Valid(t) && SETFits(t, ComponentShape(env, t, c))
    ensures r.Ok? && Valid(r.value) && SameAttributes(t, r.value)
    ensures var shape := ComponentShape(env, t, c);
            var memSpace := c.memSpace.GetOr(t.data.memSpace);
            && r.value.data.shape == InputDataShape(env, t.seAttr, shape)
            && r.value.data.order == c.dimsOrder.GetOr(t.data.order)
            && r.value.data.memSpace == memSpace
            && r.value.data.elemType == c.elemType.GetOr(t.data.elemType)
            && r.value.data.kind == t.data.kind
            && (t.sparsityMap.Some? <==> r.value.sparsityMap.Some?)
            && (t.sparsityMap.Some? ==>
                  var sm, sm' := t.sparsityMap.value, r.value.sparsityMap.value;
                  && sm'.shape == SparsityMapShape(env, t.isWeights, shape)
                  && sm'.order == (if t.isWeights then sm.order else c.dimsOrder.GetOr(t.data.order))
                  && sm'.memSpace == memSpace && sm'.elemType == sm.elemType && sm'.kind == sm.kind)
            && (t.storageElementTable.Some? <==> r.value.storageElementTable.Some?)
            && (t.storageElementTable.Some? ==>
                  var se, se' := t.storageElementTable.value, r.value.storageElementTable.value;
                  && se'.shape == WithHW(se.shape, shape)
                  && se'.memSpace == memSpace && se'.order == se.order && se'.elemType == se.elemType
                  && se'.kind == se.kind)
  {
    var shape := ComponentShape(env, t, c);
    var data := Apply(env, t.data, ChangeTypeComponentsOp(c.(shape := Some(InputDataShape(env, t.seAttr, shape)))));
    var sparsityMap := MapPart(env, t.sparsityMap, ChangeTypeComponentsOp(SparsityMapComponents(env, t, c)));
    var seTable := MapPart(env, t.storageElementTable, ChangeTypeComponentsOp(SETComponents(env, t, c)));
    Rebuild(data, sparsityMap, seTable, t.isWeights, t.sparsityCompression, t.seAttr)
  }

  /** The tiled seAttr and the data tile it needs; without seAttr the data tile is the tile itself. */
  function InputTile(env: Env, t: SparseBuffer, offsets: Shape, tileShape: Shape): SETile {
    if t.seAttr.Some? then env.extractTile(t.seAttr.value, offsets, tileShape, t.data.shape)
    else SETile(SEAttr(0), offsets, tileShape)
  }

  function TiledSeAttr(env: Env, t: SparseBuffer, offsets: Shape, tileShape: Shape): Option<SEAttr> {
    if t.seAttr.Some? then Some(InputTile(env, t, offsets, tileShape).attr) else None
  }

  /** tileSparsityCompression, which leaves an absent attribute absent. */
  function TileCompression(env: Env, c: Option<Compression>, offsets: Shape, tileShape: Shape): Option<Compression> {
    if c.Some? then Some(env.tileCompression(c.value, offsets, tileShape)) else None
  }

  predicate TileFits(t: SparseBuffer, offsets: Shape, tileShape: Shape) {
    t.storageElementTable.Some? ==> HasHW(offsets) && HasHW(tileShape) && HasHW(t.storageElementTable.value.shape)
  }

  /** The SET tile: offsets zero except H and W, shape its own except H and W. */
  function SETileOp(t: SparseBuffer, offsets: Shape, tileShape: Shape): BufferOp
    requires TileFits(t, offsets, tileShape)
  {
    if t.storageElementTable.Some? then ExtractDenseTileOp(SETileOffsets(offsets), SETShape(t.storageElementTable, tileShape))
    else EraseTiledInfoOp
  }

  /** What a weights sparsity map becomes on tiling: a map of the inferred weights shape. */
  function TiledSparsityMapOp(env: Env, t: SparseBuffer, otherwise: BufferOp, tileShape: Shape): BufferOp {
    if t.isWeights then ChangeShapeOp(env.inferWeightsSparsityMapShape(tileShape)) else otherwise
  }

  /**
    What a tile extraction of the given kind promises about the parts of the tile: the data is the
    input tile seAttr asks for, a non-weights sparsity map is tiled like the type and a weights one
    only reshaped, and the SET is tiled at H and W.
  */
  predicate IsTile(env: Env, t: SparseBuffer, r: SparseBuffer, offsets: Shape, tileShape: Shape, kind: TileKind)
    requires TileFits(t, offsets, tileShape)
  {
    var tile := InputTile(env, t, offsets, tileShape);
    && Valid(r)
    && r.isWeights == t.isWeights
    && r.seAttr == TiledSeAttr(env, t, offsets, tileShape)
    && r.sparsityCompression == TileCompression(env, t.sparsityCompression, offsets, tileShape)
    && r.data.shape == InputTile(env, t, offsets, tileShape).inputShape
    && SameButShape(t.data, r.data)
    && r.data.layout == env.relayout(t.data.layout, TileOp(kind, tile.inputOffsets, tile.inputShape))
    && PartReshaped(t.sparsityMap, r.sparsityMap, SparsityMapShape(env, t.isWeights, tileShape))
    && (t.sparsityMap.Some? ==>
          r.sparsityMap.value.layout
          == env.relayout(t.sparsityMap.value.layout, TiledSparsityMapOp(env, t, TileOp(kind, offsets, tileShape), tileShape)))
    && PartReshaped(t.storageElementTable, r.storageElementTable, SETShape(t.storageElementTable, tileShape))
    && (t.storageElementTable.Some? ==>
          r.storageElementTable.value.layout
          == env.relayout(t.storageElementTable.value.layout,
                          ExtractDenseTileOp(SETileOffsets(offsets), SETShape(t.storageElementTable, tileShape))))
  }

  function ExtractDenseTile(env: Env, t: SparseBuffer, offsets: Shape, tileShape: Shape)
    : (r: Result<SparseBuffer, Failure>)
    requires Valid(t) && TileFits(t, offsets, tileShape)
    ensures r.Ok? && IsTile(env, t, r.value, offsets, tileShape, DenseTile)
  {
    var tile := InputTile(env, t, offsets, tileShape);
    var data := Apply(env, t.data, ExtractDenseTileOp(tile.inputOffsets, tile.inputShape));
    var sparsityMap := MapPart(env, t.sparsityMap, TiledSparsityMapOp(env, t, ExtractDenseTileOp(offsets, tileShape), tileShape));
    var seTable := MapPart(env, t.storageElementTable, SETileOp(t, offsets, tileShape));
    Rebuild(data, sparsityMap, seTable, t.isWeights, TileCompression(env, t.sparsityCompression, offsets, tileShape),
            TiledSeAttr(env, t, offsets, tileShape))
  }

  predicate AnyNonUnit(s: Shape) {
    exists i :: 0 <= i < |s| && s[i] != 1
  }

  /**
    extractViewTile, with the stride guard scanning `scanned`: the guard rejects a strided view
    when seAttr is set and some scanned stride is not 1.
  */
  function ExtractViewTileScanning(env: Env, t: SparseBuffer, offsets: Shape, tileShape: Shape, strides: Shape,
                                   scanned: Shape): (r: Result<SparseBuffer, Failure>)
    requires Valid(t) && TileFits(t, offsets, tileShape)
    ensures r.Err? <==> t.seAttr.Some? && strides != [] && AnyNonUnit(scanned)
    ensures r.Err? ==> r.error == StridedViewWithSeAttr
    ensures r.Ok? ==> IsTile(env, t, r.value, offsets, tileShape, ViewTile(strides))
  {
    if t.seAttr.Some? && strides != [] && AnyNonUnit(scanned) then
      Err(StridedViewWithSeAttr)
    else
      var tile := InputTile(env, t, offsets, tileShape);
      var data := Apply(env, t.data, ExtractViewTileOp(tile.inputOffsets, tile.inputShape, strides));
      var sparsityMap := MapPart(env, t.sparsityMap,
                                 TiledSparsityMapOp(env, t, ExtractViewTileOp(offsets, tileShape, strides), tileShape));
      var seTable := MapPart(env, t.storageElementTable, SETileOp(t, offsets, tileShape));
      Rebuild(data, sparsityMap, seTable, t.isWeights, TileCompression(env, t.sparsityCompression, offsets, tileShape),
              TiledSeAttr(env, t, offsets, tileShape))
  }

  /** extractViewTile as written: `any_of(begin, begin)` scans no stride, so the guard never fires. */
  function ExtractViewTileAsWritten(env: Env, t: SparseBuffer, offsets: Shape, tileShape: Shape, strides: Shape)
    : (r: Result<SparseBuffer, Failure>)
    requires Valid(t) && TileFits(t, offsets, tileShape)
    ensures r.Ok? && IsTile(env, t, r.value, offsets, tileShape, ViewTile(strides))
  {
    ExtractViewTileScanning(env, t, offsets, tileShape, strides, strides[..0])
  }

  /** extractViewTile as intended: with seAttr set, a view with a non-unit stride is rejected. */
  function ExtractViewTile(env: Env, t: SparseBuffer, offsets: Shape, tileShape: Shape, strides: Shape)
    : (r: Result<SparseBuffer, Failure>)
    requires Valid(t) && TileFits(t, offsets, tileShape)
    ensures r.Err? <==> t.seAttr.Some? && AnyNonUnit(strides)
    ensures r.Err? ==> r.error == StridedViewWithSeAttr
    ensures r.Ok? ==> IsTile(env, t, r.value, offsets, tileShape, ViewTile(strides))
  {
    ExtractViewTileScanning(env, t, offsets, tileShape, strides, strides)
  }

  /** The input that tells the two apart: seAttr set and strides 1x1x2x2 are accepted as written. */
  lemma ViewTileGuardNeverFires(env: Env, t: SparseBuffer, offsets: Shape, tileShape: Shape)
    requires Valid(t) && TileFits(t, offsets, tileShape) && t.seAttr.Some?
    ensures ExtractViewTileAsWritten(env, t, offsets, tileShape, [1, 1, 2, 2]).Ok?
    ensures ExtractViewTile(env, t, offsets, tileShape, [1, 1, 2, 2]) == Err(StridedViewWithSeAttr)
  {
    assert [1, 1, 2, 2][2] != 1;
  }

  /** With unit strides, or without seAttr, the intended guard accepts what the written one does. */
  lemma ViewTileGuardAgreesOnDenseViews(env: Env, t: SparseBuffer, offsets: Shape, tileShape: Shape, strides: Shape)
    requires Valid(t) && TileFits(t, offsets, tileShape)
    requires t.seAttr.None? || forall i :: 0 <= i < |strides| ==> strides[i] == 1
    ensures ExtractViewTile(env, t, offsets, tileShape, strides)
            == ExtractViewTileAsWritten(env, t, offsets, tileShape, strides)
  {
  }

  /** Tiling information is dropped from every part; nothing else changes. */
  function EraseTiledInfo(env: Env, t: SparseBuffer): (r: Result<SparseBuffer, Failure>)
    requires Valid(t)
    ensures r.Ok? && Valid(r.value) && SameAttributes(t, r.value)
    ensures r.value.data.shape == t.data.shape && SameButShape(t.data, r.value.data)
    ensures PartReshaped(t.sparsityMap, r.value.sparsityMap, if t.sparsityMap.Some? then t.sparsityMap.value.shape else [])
    ensures PartReshaped(t.storageElementTable, r.value.storageElementTable,
                         if t.storageElementTable.Some? then t.storageElementTable.value.shape else [])
  {
    Rebuild(Apply(env, t.data, EraseTiledInfoOp), MapPart(env, t.sparsityMap, EraseTiledInfoOp),
            MapPart(env, t.storageElementTable, EraseTiledInfoOp), t.isWeights, t.sparsityCompression, t.seAttr)
  }

  /** The output shape after padding: the padded data shape, or with seAttr the padded effective shape. */
  function PaddedOutputShape(env: Env, t: SparseBuffer, padBefore: Shape, padAfter: Shape): Shape {
    if t.seAttr.Some? then Apply(env, Apply(env, t.data, ChangeShapeOp(GetShape(env, t))), PadOp(padBefore, padAfter)).shape
    else Apply(env, t.data, PadOp(padBefore, padAfter)).shape
  }

  function Pad(env: Env, t: SparseBuffer, padBefore: Shape, padAfter: Shape): (r: Result<SparseBuffer, Failure>)
    requires Valid(t) && SETFits(t, GetShape(env, t))
    ensures r.Ok? && Valid(r.value) && SameAttributes(t, r.value)
    ensures var padded := PaddedShape(GetShape(env, t), padBefore, padAfter);
            && r.value.data.shape == InputDataShape(env, t.seAttr, padded)
            && SameButShape(t.data, r.value.data)
            && PartReshaped(t.sparsityMap, r.value.sparsityMap, SparsityMapShape(env, t.isWeights, padded))
            && PartReshaped(t.storageElementTable, r.value.storageElementTable, SETShape(t.storageElementTable, padded))
  {
    var padded := Apply(env, t.data, PadOp(padBefore, padAfter));
    var outputShape := PaddedOutputShape(env, t, padBefore, padAfter);
    var data := if t.seAttr.Some? then Apply(env, padded, ChangeShapeOp(env.backInferInputShape(t.seAttr.value, outputShape)))
                else padded;
    var sparsityMap := MapPart(env, t.sparsityMap, ChangeShapeOp(SparsityMapShape(env, t.isWeights, outputShape)));
    var seTable := MapPart(env, t.storageElementTable, ChangeShapeOp(SETShape(t.storageElementTable, outputShape)));
    Rebuild(data, sparsityMap, seTable, t.isWeights, t.sparsityCompression, t.seAttr)
  }

  // Properties relating the operations to the getters

  /** The laws of the storage-element attribute the sparse buffer relies on: the output shape of a
      back-inferred input is the shape asked for, and the input tile of a tile has the tile's shape. */
  ghost predicate SEAttrLaws(env: Env) {
    && (forall se, s :: env.inferOutputShape(se, env.backInferInputShape(se, s)) == s)
    && (forall se, offsets, s, dataShape ::
          env.inferOutputShape(env.extractTile(se, offsets, s, dataShape).attr,
                               env.extractTile(se, offsets, s, dataShape).inputShape) == s)
  }

  /** A non-weights sparsity map has the sparse buffer's shape. */
  predicate SparsityMapTracksShape(env: Env, t: SparseBuffer) {
    t.sparsityMap.Some? && !t.isWeights ==> t.sparsityMap.value.shape == GetShape(env, t)
  }

  lemma EffectiveShapeOf(env: Env, t: SparseBuffer)
    ensures GetShape(env, t) == if t.seAttr.Some? then env.inferOutputShape(t.seAttr.value, t.data.shape) else t.data.shape
  {
  }

  /** changeShape then getShape gives the shape back, the element type is kept, and a non-weights
      sparsity map follows the new shape. */
  lemma ChangeShapeThenGetShape(env: Env, t: SparseBuffer, shape: Shape)
    requires SEAttrLaws(env) && Valid(t) && SETFits(t, shape)
    ensures GetShape(env, ChangeShape(env, t, shape).value) == shape
    ensures GetElementType(env, ChangeShape(env, t, shape).value) == GetElementType(env, t)
    ensures SparsityMapTracksShape(env, ChangeShape(env, t, shape).value)
  {
    var r := ChangeShape(env, t, shape).value;
    EffectiveShapeOf(env, r);
  }

  /** After changeShape, getNumElements counts the elements of the new shape unless a compression
      attribute fixes the count, and getRank is the rank of the data, which is the new rank when
      no seAttr reshapes it. */
  lemma ChangeShapeThenCount(env: Env, t: SparseBuffer, shape: Shape)
    requires SEAttrLaws(env) && Valid(t) && SETFits(t, shape)
    ensures var r := ChangeShape(env, t, shape).value;
            && (t.sparsityCompression.None? ==> GetNumElements(env, r) == Product(shape))
            && (t.sparsityCompression.Some? ==> GetNumElements(env, r) == GetNumElements(env, t))
            && (t.seAttr.None? ==> GetRank(r) == |shape|)
  {
    ChangeShapeThenGetShape(env, t, shape);
  }

  /** changeElemType then getElementType gives the element type back, and the shape is kept. */
  lemma ChangeElemTypeThenGet(env: Env, t: SparseBuffer, elemType: ElemType)
    requires Valid(t)
    ensures GetElementType(env, ChangeElemType(env, t, elemType).value) == elemType
    ensures GetShape(env, ChangeElemType(env, t, elemType).value) == GetShape(env, t)
  {
    EffectiveShapeOf(env, t);
    EffectiveShapeOf(env, ChangeElemType(env, t, elemType).value);
  }

  /** changeDimsOrder and changeMemSpace are read back by the getters and keep the shape. */
  lemma ChangeOrderAndMemSpaceThenGet(env: Env, t: SparseBuffer, order: DimsOrder, memSpace: MemSpace)
    requires Valid(t)
    ensures GetDimsOrder(ChangeDimsOrder(env, t, order).value) == order
    ensures GetShape(env, ChangeDimsOrder(env, t, order).value) == GetShape(env, t)
    ensures GetMemSpace(ChangeMemSpace(env, t, memSpace).value) == memSpace
    ensures forall b :: b in Parts(ChangeMemSpace(env, t, memSpace).value) ==> b.memSpace == memSpace
  {
    EffectiveShapeOf(env, t);
    EffectiveShapeOf(env, ChangeDimsOrder(env, t, order).value);
  }

  /** The components set by changeTypeComponents are read back by the getters. */
  lemma ChangeTypeComponentsThenGet(env: Env, t: SparseBuffer, c: TypeComponents)
    requires SEAttrLaws(env) && Valid(t) && SETFits(t, ComponentShape(env, t, c))
    ensures var r := ChangeTypeComponents(env, t, c).value;
            && GetShape(env, r) == c.shape.GetOr(GetShape(env, t))
            && GetDimsOrder(r) == c.dimsOrder.GetOr(GetDimsOrder(t))
            && GetMemSpace(r) == c.memSpace.GetOr(GetMemSpace(t))
            && GetElementType(env, r) == c.elemType.GetOr(GetElementType(env, t))
            && SparsityMapTracksShape(env, r)
  {
    EffectiveShapeOf(env, ChangeTypeComponents(env, t, c).value);
  }

  /** A tile has the tile shape, and a non-weights sparsity map is tiled with it. */
  lemma TileThenGetShape(env: Env, t: SparseBuffer, offsets: Shape, tileShape: Shape, strides: Shape)
    requires SEAttrLaws(env) && Valid(t) && TileFits(t, offsets, tileShape)
    ensures GetShape(env, ExtractDenseTile(env, t, offsets, tileShape).value) == tileShape
    ensures SparsityMapTracksShape(env, ExtractDenseTile(env, t, offsets, tileShape).value)
    ensures ExtractViewTile(env, t, offsets, tileShape, strides).Ok? ==>
              GetShape(env, ExtractViewTile(env, t, offsets, tileShape, strides).value) == tileShape
  {
    EffectiveShapeOf(env, ExtractDenseTile(env, t, offsets, tileShape).value);
    var v := ExtractViewTile(env, t, offsets, tileShape, strides);
    if v.Ok? {
      EffectiveShapeOf(env, v.value);
    }
  }

  /** Padding pads the sparse buffer's shape, and a non-weights sparsity map is padded with it. */
  lemma PadThenGetShape(env: Env, t: SparseBuffer, padBefore: Shape, padAfter: Shape)
    requires SEAttrLaws(env) && Valid(t) && SETFits(t, GetShape(env, t))
    ensures GetShape(env, Pad(env, t, padBefore, padAfter).value) == PaddedShape(GetShape(env, t), padBefore, padAfter)
    ensures SparsityMapTracksShape(env, Pad(env, t, padBefore, padAfter).value)
  {
    EffectiveShapeOf(env, Pad(env, t, padBefore, padAfter).value);
  }

  /** The operations that keep shapes keep a sparsity map that tracks the shape. */
  lemma ShapeKeepingOpsPreserveTracking(env: Env, t: SparseBuffer, order: DimsOrder, memSpace: MemSpace, strides: Shape)
    requires Valid(t) && SparsityMapTracksShape(env, t)
    ensures SparsityMapTracksShape(env, ChangeDimsOrder(env, t, order).value)
    ensures SparsityMapTracksShape(env, ChangeMemSpace(env, t, memSpace).value)
    ensures SparsityMapTracksShape(env, EraseTiledInfo(env, t).value)
    ensures ChangeStrides(env, t, strides).Ok? ==> SparsityMapTracksShape(env, ChangeStrides(env, t, strides).value)
  {
    EffectiveShapeOf(env, t);
    EffectiveShapeOf(env, ChangeDimsOrder(env, t, order).value);
    EffectiveShapeOf(env, ChangeMemSpace(env, t, memSpace).value);
    EffectiveShapeOf(env, EraseTiledInfo(env, t).value);
    if ChangeStrides(env, t, strides).Ok? {
      EffectiveShapeOf(env, ChangeStrides(env, t, strides).value);
    }
  }
}
