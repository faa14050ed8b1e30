/**
  The explicit-distribution variants of the sparse buffer operations: the data,
  the sparsity map and the SET each receive the distribution that the
  distribution policies derive from the one passed in. The SET must keep its
  storage-element size (channels per storage element) unless it has a single
  channel.
*/
module SparseBufferExplicit {
  import opened Wrappers
  import opened SparseTypes
  import opened SparseBuffer

  /** The seSize check: channels per storage element change and the SET does not have one channel. */
  predicate SeSizeChanges(prevChannels: nat, newChannels: nat, setChannels: nat)
    requires setChannels > 0
  {
    prevChannels / setChannels != newChannels / setChannels && setChannels != 1
  }

  /** What the seSize check needs: the SET's and the buffer's channel dims exist, with SET channels > 0. */
  predicate SeSizeDefined(env: Env, t: SparseBuffer) {
    t.storageElementTable.Some? ==>
      |GetShape(env, t)| > C && |t.storageElementTable.value.shape| > C && t.storageElementTable.value.shape[C] > 0
  }

  /** The check fails for a SET present and the new shape `newShape`. */
  predicate SeSizeFails(env: Env, t: SparseBuffer, newShape: Shape)
    requires SeSizeDefined(env, t) && (t.storageElementTable.Some? ==> |newShape| > C)
  {
    t.storageElementTable.Some? &&
    SeSizeChanges(GetShape(env, t)[C], newShape[C], t.storageElementTable.value.shape[C])
  }

  function SeSizeError(env: Env, t: SparseBuffer, newShape: Shape): Failure
    requires SeSizeDefined(env, t) && t.storageElementTable.Some? && |newShape| > C
  {
    var setChannels := t.storageElementTable.value.shape[C];
    SeSizeMismatch(GetShape(env, t)[C] / setChannels, newShape[C] / setChannels)
  }

  /** The seSize check of the explicit operations; on success, the new storage-element size. */
  function CheckSeSize(env: Env, t: SparseBuffer, newShape: Shape): (r: Result<nat, Failure>)
    requires SeSizeDefined(env, t) && SETFits(t, newShape) && t.storageElementTable.Some?
    ensures r.Ok? <==> !SeSizeFails(env, t, newShape)
    ensures r.Err? ==> r.error == SeSizeError(env, t, newShape)
    ensures r.Ok? ==> r.value == newShape[C] / t.storageElementTable.value.shape[C]
  {
    var seTableShape := WithHW(t.storageElementTable.value.shape, newShape);
    var prevSeSize := GetShape(env, t)[C] / seTableShape[C];
    var newSeSize := newShape[C] / seTableShape[C];
    if prevSeSize != newSeSize && seTableShape[C] != 1 then Err(SeSizeMismatch(prevSeSize, newSeSize))
    else Ok(newSeSize)
  }

  predicate AllDistributed(t: SparseBuffer) {
    t.data.IsDistributed() && IsDistributedOrAbsent(t.sparsityMap) && IsDistributedOrAbsent(t.storageElementTable)
  }

  /**
    A part after an explicit operation: present exactly when it was, with shape `s` and distribution
    `distr`, its element type kept, and its order and memory space set to the given ones (kept if None).
  */
  predicate Redistributed(before: Option<Buffer>, after: Option<Buffer>, s: Shape, distr: Distribution,
                          order: Option<DimsOrder>, memSpace: Option<MemSpace>) {
    && (before.Some? <==> after.Some?)
    && (before.Some? ==>
          var b, a := before.value, after.value;
          && a.shape == s && a.kind == DistributedBuffer(distr) && a.elemType == b.elemType
          && a.order == order.GetOr(b.order) && a.memSpace == memSpace.GetOr(b.memSpace))
  }

  /** The SET's distribution for the storage-element size `newShape[C] / SET[C]` (unused without a SET). */
  function SETDistribution(env: Env, t: SparseBuffer, newShape: Shape, d: Distribution): Distribution
    requires SeSizeDefined(env, t) && SETFits(t, newShape)
  {
    if t.storageElementTable.Some? then env.distrForSETable(d, newShape[C] / t.storageElementTable.value.shape[C])
    else d
  }

  /** The distribution each part receives (data, sparsity map, SET). */
  function DataDistribution(env: Env, d: Distribution, dataShape: Shape, seAttr: Option<SEAttr>): Distribution {
    env.distrForSparseData(d, dataShape, seAttr)
  }

  function ChangeShapeElemTypeForExplicitDistribution(env: Env, t: SparseBuffer, shape: Shape, elemType: ElemType,
                                                      d: Distribution): (r: Result<SparseBuffer, Failure>)
    requires Valid(t) && SETFits(t, shape) && SeSizeDefined(env, t)
    ensures r == Err(NotDistributed(DataPart)) <==> !t.data.IsDistributed()
    ensures (r.Err? && r.error.SeSizeMismatch?) <==> t.data.IsDistributed() && SeSizeFails(env, t, shape)
    ensures r.Err? && r.error.SeSizeMismatch? ==> r.error == SeSizeError(env, t, shape)
    ensures r.Ok? <==> t.data.IsDistributed() && !SeSizeFails(env, t, shape)
  {
    if !t.data.IsDistributed() then Err(NotDistributed(DataPart))
    else ReshapeDistributed(env, t, shape, elemType, d)
  }

  /** The reshape of a sparse buffer whose data is distributed; only the seSize check can fail. */
  function ReshapeDistributed(env: Env, t: SparseBuffer, shape: Shape, elemType: ElemType, d: Distribution)
    : (r: Result<SparseBuffer, Failure>)
    requires Valid(t) && SETFits(t, shape) && SeSizeDefined(env, t) && t.data.IsDistributed()
    ensures r.Ok? <==> !SeSizeFails(env, t, shape)
    ensures r.Err? ==> r.error == SeSizeError(env, t, shape)
  {
    var inputShape := InputDataShape(env, t.seAttr, shape);
    var data := Apply(env, t.data, ChangeShapeElemTypeExplicitOp(inputShape, elemType,
                                                                 DataDistribution(env, d, inputShape, t.seAttr)));
    var smShape := SparsityMapShape(env, t.isWeights, shape);
    var sparsityMap := MapPart(env, t.sparsityMap,
                               ChangeShapeExplicitOp(smShape, env.distrForSparsityMap(d, smShape, t.isWeights)));
    if t.storageElementTable.Some? then
      var newSeSize :- CheckSeSize(env, t, shape);
      var seTable' := Apply(env, t.storageElementTable.value,
                            ChangeShapeExplicitOp(SETShape(t.storageElementTable, shape), env.distrForSETable(d, newSeSize)));
      Rebuild(data, sparsityMap, Some(seTable'), t.isWeights, t.sparsityCompression, t.seAttr)
    else
      Rebuild(data, sparsityMap, None, t.isWeights, t.sparsityCompression, t.seAttr)
  }

  /** What a successful explicit reshape yields: every part distributed by its policy. */
  predicate IsExplicitReshape(env: Env, t: SparseBuffer, r: SparseBuffer, shape: Shape, elemType: ElemType,
                              d: Distribution)
    requires SETFits(t, shape) && SeSizeDefined(env, t)
  {
    var inputShape := InputDataShape(env, t.seAttr, shape);
    var smShape := SparsityMapShape(env, t.isWeights, shape);
    && Valid(r) && AllDistributed(r) && SameAttributes(t, r)
    && r.data == Apply(env, t.data, ChangeShapeElemTypeExplicitOp(inputShape, elemType,
                                                                  DataDistribution(env, d, inputShape, t.seAttr)))
    && r.data.shape == inputShape && r.data.elemType == elemType
    && Redistributed(t.sparsityMap, r.sparsityMap, smShape, env.distrForSparsityMap(d, smShape, t.isWeights), None, None)
    && Redistributed(t.storageElementTable, r.storageElementTable, SETShape(t.storageElementTable, shape),
                     SETDistribution(env, t, shape, d), None, None)
  }

  lemma ChangeShapeElemTypeForExplicitDistributionParts(env: Env, t: SparseBuffer, shape: Shape, elemType: ElemType,
                                                        d: Distribution)
    requires Valid(t) && SETFits(t, shape) && SeSizeDefined(env, t)
    ensures var r := ChangeShapeElemTypeForExplicitDistribution(env, t, shape, elemType, d);
            r.Ok? ==> IsExplicitReshape(env, t, r.value, shape, elemType, d)
  {
  }

  function ChangeShapeForExplicitDistribution(env: Env, t: SparseBuffer, shape: Shape, d: Distribution)
    : (r: Result<SparseBuffer, Failure>)
    requires Valid(t) && SETFits(t, shape) && SeSizeDefined(env, t)
    ensures r.Ok? <==> t.data.IsDistributed() && !SeSizeFails(env, t, shape)
    ensures r.Ok? ==> AllDistributed(r.value) && GetElementType(env, r.value) == GetElementType(env, t)
    ensures r.Ok? ==> r.value.data.shape == InputDataShape(env, t.seAttr, shape)
  {
    ChangeShapeElemTypeForExplicitDistributionParts(env, t, shape, GetElementType(env, t), d);
    ChangeShapeElemTypeForExplicitDistribution(env, t, shape, GetElementType(env, t), d)
  }

  function ChangeTypeComponentsForExplicitDistribution(env: Env, t: SparseBuffer, c: TypeComponents,
                                                       d: Option<Distribution>): (r: Result<SparseBuffer, Failure>)
    requires Valid(t) && SETFits(t, ComponentShape(env, t, c)) && SeSizeDefined(env, t)
    ensures d.None? ==> r == ChangeTypeComponents(env, t, c)
    ensures d.Some? ==> (r == Err(NotDistributed(DataPart)) <==> !t.data.IsDistributed())
    ensures d.Some? ==> (r.Ok? <==> t.data.IsDistributed() && !SeSizeFails(env, t, ComponentShape(env, t, c)))
    ensures d.Some? && r.Err? && r.error.SeSizeMismatch? ==> r.error == SeSizeError(env, t, ComponentShape(env, t, c))
  {
    if d.None? then ChangeTypeComponents(env, t, c)
    else
      var shape := ComponentShape(env, t, c);
      var inputShape := InputDataShape(env, t.seAttr, shape);
      var dataDistribution := DataDistribution(env, d.value, inputShape, t.seAttr);
      if !t.data.IsDistributed() then Err(NotDistributed(DataPart))
      else
        var data := Apply(env, t.data, ChangeTypeComponentsExplicitOp(c.(shape := Some(inputShape)), dataDistribution));
        var smComponents := SparsityMapComponents(env, t, c);
        var sparsityMap := MapPart(env, t.sparsityMap, ChangeTypeComponentsExplicitOp(smComponents,
                             env.distrForSparsityMap(d.value, smComponents.shape.value, t.isWeights)));
        if t.storageElementTable.Some? then
          var newSeSize :- CheckSeSize(env, t, shape);
          var seTable' := Apply(env, t.storageElementTable.value,
                                ChangeTypeComponentsExplicitOp(SETComponents(env, t, c), env.distrForSETable(d.value, newSeSize)));
          Rebuild(data, sparsityMap, Some(seTable'), t.isWeights, t.sparsityCompression, t.seAttr)
        else
          Rebuild(data, sparsityMap, None, t.isWeights, t.sparsityCompression, t.seAttr)
  }

  /** What a successful explicit components change yields. */
  predicate IsExplicitComponents(env: Env, t: SparseBuffer, r: SparseBuffer, c: TypeComponents, d: Distribution)
    requires SETFits(t, ComponentShape(env, t, c)) && SeSizeDefined(env, t)
  {
    var shape := ComponentShape(env, t, c);
    var inputShape := InputDataShape(env, t.seAttr, shape);
    var smShape := SparsityMapShape(env, t.isWeights, shape);
    var memSpace := c.memSpace.GetOr(t.data.memSpace);
    && Valid(r) && AllDistributed(r) && SameAttributes(t, r)
    && r.data.shape == inputShape
    && r.data.order == c.dimsOrder.GetOr(t.data.order)
    && r.data.memSpace == memSpace
    && r.data.elemType == c.elemType.GetOr(t.data.elemType)
    && r.data.kind == DistributedBuffer(DataDistribution(env, d, inputShape, t.seAttr))
    && Redistributed(t.sparsityMap, r.sparsityMap, smShape, env.distrForSparsityMap(d, smShape, t.isWeights),
                     if t.isWeights then None else Some(c.dimsOrder.GetOr(t.data.order)), Some(memSpace))
    && Redistributed(t.storageElementTable, r.storageElementTable, SETShape(t.storageElementTable, shape),
                     SETDistribution(env, t, shape, d), None, Some(memSpace))
  }

  lemma ChangeTypeComponentsForExplicitDistributionParts(env: Env, t: SparseBuffer, c: TypeComponents, d: Distribution)
    requires Valid(t) && SETFits(t, ComponentShape(env, t, c)) && SeSizeDefined(env, t)
    ensures var r := ChangeTypeComponentsForExplicitDistribution(env, t, c, Some(d));
            r.Ok? ==> IsExplicitComponents(env, t, r.value, c, d)
  {
  }

  /** What an explicit tile extraction promises about its result. */
  predicate IsDistributedTile(env: Env, t: SparseBuffer, r: SparseBuffer, offsets: Shape, tileShape: Shape,
                              kind: TileKind, d: Distribution)
    requires TileFits(t, offsets, tileShape) && SeSizeDefined(env, t)
  {
    var tile := InputTile(env, t, offsets, tileShape);
    var seAttr := TiledSeAttr(env, t, offsets, tileShape);
    var smShape := SparsityMapShape(env, t.isWeights, tileShape);
    && Valid(r) && AllDistributed(r)
    && r.isWeights == t.isWeights && r.seAttr == seAttr
    && r.sparsityCompression == TileCompression(env, t.sparsityCompression, offsets, tileShape)
    && Redistributed(Some(t.data), Some(r.data), tile.inputShape, DataDistribution(env, d, tile.inputShape, seAttr),
                     None, None)
    && r.data.layout == env.relayout(t.data.layout, ExplicitTileOp(kind, tile.inputOffsets, tile.inputShape,
                                                                   DataDistribution(env, d, tile.inputShape, seAttr)))
    && Redistributed(t.sparsityMap, r.sparsityMap, smShape, env.distrForSparsityMap(d, smShape, t.isWeights), None, None)
    && (t.sparsityMap.Some? ==>
          r.sparsityMap.value.layout
          == env.relayout(t.sparsityMap.value.layout, ExplicitSparsityMapOp(env, t, offsets, tileShape, kind, d)))
    && IsSETile(env, t, r.storageElementTable, offsets, tileShape, d)
  }

  /** The SET of an explicit tile: the tile at offsets zero except H and W, with the SET policy's distribution. */
  predicate IsSETile(env: Env, t: SparseBuffer, r: Option<Buffer>, offsets: Shape, tileShape: Shape, d: Distribution)
    requires TileFits(t, offsets, tileShape) && SeSizeDefined(env, t)
  {
    var setShape := SETShape(t.storageElementTable, tileShape);
    var distr := SETDistribution(env, t, tileShape, d);
    && Redistributed(t.storageElementTable, r, setShape, distr, None, None)
    && (t.storageElementTable.Some? ==>
          r.value.layout == env.relayout(t.storageElementTable.value.layout,
                                         ExtractDenseTileExplicitOp(SETileOffsets(offsets), setShape, distr)))
  }

  /** The SET of an explicit tile: a dense tile at offsets zero except H and W. */
  function ExplicitSETile(env: Env, t: SparseBuffer, offsets: Shape, tileShape: Shape, d: Distribution)
    : (r: Result<Option<Buffer>, Failure>)
    requires TileFits(t, offsets, tileShape) && SeSizeDefined(env, t)
    ensures r.Ok? <==> !SeSizeFails(env, t, tileShape)
    ensures r.Err? ==> t.storageElementTable.Some? && r.error == SeSizeError(env, t, tileShape)
    ensures r.Ok? ==> IsSETile(env, t, r.value, offsets, tileShape, d)
  {
    if t.storageElementTable.Some? then
      var newSeSize :- CheckSeSize(env, t, tileShape);
      Ok(Some(Apply(env, t.storageElementTable.value,
                    ExtractDenseTileExplicitOp(SETileOffsets(offsets), SETShape(t.storageElementTable, tileShape),
                                               env.distrForSETable(d, newSeSize)))))
    else Ok(None)
  }

  /** The sparsity map of an explicit tile: reshaped for weights, otherwise tiled like the type. */
  function ExplicitSparsityMapOp(env: Env, t: SparseBuffer, offsets: Shape, tileShape: Shape, kind: TileKind,
                                 d: Distribution): BufferOp {
    if t.isWeights then
      var smShape := env.inferWeightsSparsityMapShape(tileShape);
      ChangeShapeExplicitOp(smShape, env.distrForSparsityMap(d, smShape, true))
    else ExplicitTileOp(kind, offsets, tileShape, env.distrForSparsityMap(d, tileShape, false))
  }

  function ExtractDenseTileForExplicitDistribution(env: Env, t: SparseBuffer, offsets: Shape, tileShape: Shape,
                                                   d: Option<Distribution>): (r: Result<SparseBuffer, Failure>)
    requires Valid(t) && TileFits(t, offsets, tileShape) && SeSizeDefined(env, t)
    ensures d.None? ==> r == ExtractDenseTile(env, t, offsets, tileShape)
    ensures d.Some? ==> (r == Err(NotDistributed(DataPart)) <==> !t.data.IsDistributed())
    ensures d.Some? ==> (r.Ok? <==> t.data.IsDistributed() && !SeSizeFails(env, t, tileShape))
    ensures d.Some? && r.Err? && r.error.SeSizeMismatch? ==> r.error == SeSizeError(env, t, tileShape)
  {
    if d.None? then ExtractDenseTile(env, t, offsets, tileShape)
    else
      var tile := InputTile(env, t, offsets, tileShape);
      var seAttr := TiledSeAttr(env, t, offsets, tileShape);
      var dataDistribution := DataDistribution(env, d.value, tile.inputShape, seAttr);
      if !t.data.IsDistributed() then Err(NotDistributed(DataPart))
      else
        var data := Apply(env, t.data, ExtractDenseTileExplicitOp(tile.inputOffsets, tile.inputShape, dataDistribution));
        var sparsityMap := MapPart(env, t.sparsityMap, ExplicitSparsityMapOp(env, t, offsets, tileShape, DenseTile, d.value));
        var seTable :- ExplicitSETile(env, t, offsets, tileShape, d.value);
        Rebuild(data, sparsityMap, seTable, t.isWeights, TileCompression(env, t.sparsityCompression, offsets, tileShape),
                seAttr)
  }

  /** extractViewTileForExplicitDistribution with its stride guard scanning `scanned`. */
  function ExtractViewTileForExplicitDistributionScanning(env: Env, t: SparseBuffer, offsets: Shape, tileShape: Shape,
                                                          strides: Shape, d: Distribution, scanned: Shape)
    : (r: Result<SparseBuffer, Failure>)
    requires Valid(t) && TileFits(t, offsets, tileShape) && SeSizeDefined(env, t)
    ensures r == Err(StridedViewWithSeAttr) <==> t.seAttr.Some? && strides != [] && AnyNonUnit(scanned)
    ensures r == Err(NotDistributed(DataPart)) <==>
              !(t.seAttr.Some? && strides != [] && AnyNonUnit(scanned)) && !t.data.IsDistributed()
    ensures r.Ok? <==>
              !(t.seAttr.Some? && strides != [] && AnyNonUnit(scanned)) && t.data.IsDistributed() &&
              !SeSizeFails(env, t, tileShape)
    ensures r.Err? && r.error.SeSizeMismatch? ==> r.error == SeSizeError(env, t, tileShape)
  {
    if t.seAttr.Some? && strides != [] && AnyNonUnit(scanned) then Err(StridedViewWithSeAttr)
    else
      var tile := InputTile(env, t, offsets, tileShape);
      var seAttr := TiledSeAttr(env, t, offsets, tileShape);
      var dataDistribution := DataDistribution(env, d, tile.inputShape, seAttr);
      if !t.data.IsDistributed() then Err(NotDistributed(DataPart))
      else
        var data := Apply(env, t.data, ExtractViewTileExplicitOp(tile.inputOffsets, tile.inputShape, strides,
                                                                 dataDistribution));
        var sparsityMap := MapPart(env, t.sparsityMap, ExplicitSparsityMapOp(env, t, offsets, tileShape,
                                                                             ViewTile(strides), d));
        var seTable :- ExplicitSETile(env, t, offsets, tileShape, d);
        Rebuild(data, sparsityMap, seTable, t.isWeights, TileCompression(env, t.sparsityCompression, offsets, tileShape),
                seAttr)
  }

  lemma ExtractDenseTileForExplicitDistributionParts(env: Env, t: SparseBuffer, offsets: Shape, tileShape: Shape,
                                                     d: Distribution)
    requires Valid(t) && TileFits(t, offsets, tileShape) && SeSizeDefined(env, t)
    ensures var r := ExtractDenseTileForExplicitDistribution(env, t, offsets, tileShape, Some(d));
            r.Ok? ==> IsDistributedTile(env, t, r.value, offsets, tileShape, DenseTile, d)
  {
  }

  lemma ExtractViewTileForExplicitDistributionScanningParts(env: Env, t: SparseBuffer, offsets: Shape,
                                                            tileShape: Shape, strides: Shape, d: Distribution,
                                                            scanned: Shape)
    requires Valid(t) && TileFits(t, offsets, tileShape) && SeSizeDefined(env, t)
    ensures var r := ExtractViewTileForExplicitDistributionScanning(env, t, offsets, tileShape, strides, d, scanned);
            r.Ok? ==> IsDistributedTile(env, t, r.value, offsets, tileShape, ViewTile(strides), d)
  {
  }

  /** As written: the guard scans no stride, and a null distribution falls back to the written extractViewTile. */
  function ExtractViewTileForExplicitDistributionAsWritten(env: Env, t: SparseBuffer, offsets: Shape, tileShape: Shape,
                                                           strides: Shape, d: Option<Distribution>)
    : (r: Result<SparseBuffer, Failure>)
    requires Valid(t) && TileFits(t, offsets, tileShape) && SeSizeDefined(env, t)
    ensures r != Err(StridedViewWithSeAttr)
    ensures d.Some? ==> (r.Ok? <==> t.data.IsDistributed() && !SeSizeFails(env, t, tileShape))
  {
    if d.None? then ExtractViewTileAsWritten(env, t, offsets, tileShape, strides)
    else ExtractViewTileForExplicitDistributionScanning(env, t, offsets, tileShape, strides, d.value, strides[..0])
  }

  /** As intended: with seAttr set, a view with a non-unit stride is rejected before anything else. */
  function ExtractViewTileForExplicitDistribution(env: Env, t: SparseBuffer, offsets: Shape, tileShape: Shape,
                                                  strides: Shape, d: Option<Distribution>)
    : (r: Result<SparseBuffer, Failure>)
    requires Valid(t) && TileFits(t, offsets, tileShape) && SeSizeDefined(env, t)
    ensures d.None? ==> r == ExtractViewTile(env, t, offsets, tileShape, strides)
    ensures r == Err(StridedViewWithSeAttr) <==> t.seAttr.Some? && AnyNonUnit(strides)
    ensures d.Some? ==>
              (r.Ok? <==> !(t.seAttr.Some? && AnyNonUnit(strides)) && t.data.IsDistributed() &&
                          !SeSizeFails(env, t, tileShape))
    ensures d.Some? && r.Ok? ==> IsDistributedTile(env, t, r.value, offsets, tileShape, ViewTile(strides), d.value)
  {
    if d.None? then ExtractViewTile(env, t, offsets, tileShape, strides)
    else
      ExtractViewTileForExplicitDistributionScanningParts(env, t, offsets, tileShape, strides, d.value, strides);
      ExtractViewTileForExplicitDistributionScanning(env, t, offsets, tileShape, strides, d.value, strides)
  }

  /** The written explicit guard lets a strided view with seAttr through; the intended one stops it. */
  lemma ExplicitViewTileGuardNeverFires(env: Env, t: SparseBuffer, offsets: Shape, tileShape: Shape, d: Distribution)
    requires Valid(t) && TileFits(t, offsets, tileShape) && SeSizeDefined(env, t) && t.seAttr.Some?
    requires t.data.IsDistributed() && !SeSizeFails(env, t, tileShape)
    ensures ExtractViewTileForExplicitDistributionAsWritten(env, t, offsets, tileShape, [1, 1, 2, 2], Some(d)).Ok?
    ensures ExtractViewTileForExplicitDistribution(env, t, offsets, tileShape, [1, 1, 2, 2], Some(d))
            == Err(StridedViewWithSeAttr)
  {
    assert [1, 1, 2, 2][2] != 1;
  }

  /** Every explicit operation that succeeds yields a type whose distributed types are all its parts. */
  lemma ExplicitResultsAreDistributed(env: Env, t: SparseBuffer, shape: Shape, d: Distribution)
    requires Valid(t) && SETFits(t, shape) && SeSizeDefined(env, t)
    requires ChangeShapeForExplicitDistribution(env, t, shape, d).Ok?
    ensures var r := ChangeShapeForExplicitDistribution(env, t, shape, d).value;
            ContainsDistributedTypes(r) && DistributedTypes(r) == Parts(r)
  {
    DistributedTypesOfValid(ChangeShapeForExplicitDistribution(env, t, shape, d).value);
  }

  /** Keeping the channel count, or a single-channel SET, never trips the seSize check. */
  lemma SeSizeKeptWhenChannelsKept(env: Env, t: SparseBuffer, newShape: Shape)
    requires SeSizeDefined(env, t) && (t.storageElementTable.Some? ==> |newShape| > C)
    requires t.storageElementTable.Some? ==>
               newShape[C] == GetShape(env, t)[C] || t.storageElementTable.value.shape[C] == 1
    ensures !SeSizeFails(env, t, newShape)
  {
  }
}
