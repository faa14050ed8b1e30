# A verified model of parts of the NPU compiler and plugin

This project models, in Dafny, six pieces of the NPU plugin and compiler.

- **`VPUIP::SparseBufferType`**: an MLIR buffer type that bundles three sub-buffers:
  - a data buffer;
  - an optional sparsity map;
  - an optional storage-element table (SET).

  It also carries three optional attributes: `is_weights`, a sparsity-compression attribute and a storage-element attribute (`seAttr`). The model covers:
  - `verify`;
  - the NDTypeInterface getters;
  - the shape, element-type, order, memory-space, stride, tiling, padding and erase-tiling transforms;
  - the distributed-type queries;
  - the explicit-distribution variants;
  - the textual `print`/`parse` pair, over a list of tokens.

  Modules `SparseTypes`, `SparseBuffer`, `SparseBufferExplicit` and `SparseBufferAsm`.
- **Named dimension indices** of `layers.hpp` and their `getSpatialDim` helpers (module `Layers`).
- **State-variable name prefixes** of `prefix.hpp` (module `StatePrefix`).
- **Memory-requirement tallying** in the blob loader tool. A `MemoryRequirementsCategory` class holds a map of groups and running totals. A `Scanner` class classifies every allocated section by processor flag and by allocation type (module `BlobScanner`).
- **Ping-pong task-buffer location assignment** of the `resolve-WLM-task-locations` pass (module `TaskLocations`).
- **Device-name resolution** of `Metrics::getDeviceName` (module `Metrics`).

## How the sparse buffer is modelled

A sub-buffer is a `Buffer`. It has:
- a kind: memref, distributed buffer with its distribution, or some other type;
- a shape;
- an element type, a dims order and a memory space;
- a `layout`, which stands for everything else the sub-buffer type carries, such as strides and tiling information.

A sub-buffer operation sets the field it names. The new layout is left to the environment.

The collaborators whose code is not part of this model are total functions in an `Env` value, which every operation takes as a parameter:
- the storage-element attribute: `inferOutputShape`, `backInferInputShape` and `extractTile`;
- `inferWeightsSparsityMapShape` and `tileSparsityCompression`;
- the sub-buffers' allocation sizes and strides;
- the explicit-distribution policies.

The laws the code relies on are stated as a predicate (`SEAttrLaws`) and are required only by the lemmas that need them:
- forward inference undoes back inference;
- an extracted tile's input shape infers to the tile shape.

Every transform rebuilds all three parts, then re-checks the result with `verify` (`Rebuild`). The transforms take a `Valid` type, because every `SparseBufferType` value passed the same check when it was made. For such a type, every implicit transform that succeeds is proved to keep it valid, and every one succeeds except in two cases. `changeStrides` fails with `StridesNotCompact` when seAttr is set and the strides are not compact. The corrected `extractViewTile` fails with `StridedViewWithSeAttr` when seAttr is set and some stride is not 1. The explicit-distribution transforms return the source's errors, each with an if-and-only-if condition.

## Model

| member | source | states |
|---|---|---|
| SparseBuffer.Verify | src/vpux_compiler/src/dialect/VPUIP/IR/types/sparse_buffer.cpp:142-173 | Succeeds exactly on valid parts. Each diagnostic is returned exactly when its check is the first one that fails: the data is not a memref or distributed buffer; then a present sparsity map or SET is not; then seAttr comes with is_weights or compression; then, for distributed data, a present sparsity map or SET is not distributed |
| SparseBuffer.Rebuild | src/vpux_compiler/src/dialect/VPUIP/IR/types/sparse_buffer.cpp:142-173 | `get` yields the type built from the parts exactly when they are valid, and otherwise the diagnostic that `verify` produces |
| SparseBuffer.GetElementType | src/vpux_compiler/src/dialect/VPUIP/IR/types/sparse_buffer.cpp:207-210 | The element type is the data's, with or without seAttr |
| SparseBuffer.TotalAllocSizeOfParts | src/vpux_compiler/src/dialect/VPUIP/IR/types/sparse_buffer.cpp:250-267 | The total allocation size is the compressed data size (or the data alloc size) plus the alloc size of every present auxiliary part. Without compression it is the sum over all parts |
| SparseBuffer.SumSizesOfAux | src/vpux_compiler/src/dialect/VPUIP/IR/types/sparse_buffer.cpp:254-266 | The auxiliary parts contribute the sparsity map's size if present plus the SET's size if present |
| SparseBuffer.CompactAllocSizeBound | src/vpux_compiler/src/dialect/VPUIP/IR/types/sparse_buffer.cpp:269-286 | When every compact size is at most the full size, the compact allocation size is at most the total allocation size, and they are equal when no auxiliary part is present |
| SparseBuffer.DistributedTypesOfValid | src/vpux_compiler/src/dialect/VPUIP/IR/types/sparse_buffer.cpp:574-591 | getDistributedTypes lists exactly the distributed parts. For a valid type it lists every part when containsDistributedTypes holds, which happens exactly when the data is distributed. With memref data it lists only auxiliary parts |
| SparseBuffer.ChangeShapeElemType | src/vpux_compiler/src/dialect/VPUIP/IR/types/sparse_buffer.cpp:299-329 | Always succeeds and stays valid. The data gets the back-inferred input shape (or the shape itself) and the new element type. The sparsity map gets the weights sparsity-map shape (or the shape). The SET keeps its dims except H and W, which come from the shape. The attributes are kept |
| SparseBuffer.ChangeShape | src/vpux_compiler/src/dialect/VPUIP/IR/types/sparse_buffer.cpp:288-290 | As changeShapeElemType, keeping the data element type: every part is reshaped by the same rules, and nothing else of it changes |
| SparseBuffer.ChangeElemType | src/vpux_compiler/src/dialect/VPUIP/IR/types/sparse_buffer.cpp:292-297 | Only the data changes, and only in its element type |
| SparseBuffer.ChangeDimsOrder | src/vpux_compiler/src/dialect/VPUIP/IR/types/sparse_buffer.cpp:331-348 | Reorders the data. Reorders the sparsity map only when the type is not weights, and otherwise leaves it as it was. Never touches the SET |
| SparseBuffer.ChangeMemSpace | src/vpux_compiler/src/dialect/VPUIP/IR/types/sparse_buffer.cpp:350-368 | Every present part moves to the new memory space, and nothing else of it changes |
| SparseBuffer.ChangeStrides | src/vpux_compiler/src/dialect/VPUIP/IR/types/sparse_buffer.cpp:370-386 | With seAttr, it fails exactly when the output-shaped data with the new strides is not compact, and otherwise returns the type unchanged. Without seAttr, only the data's strides (its layout) change |
| SparseBuffer.ChangeTypeComponents | src/vpux_compiler/src/dialect/VPUIP/IR/types/sparse_buffer.cpp:388-429 | Each given component replaces the data's, and a missing one keeps the current value. The sparsity map follows the shape (the weights shape for weights) and the memory space. It also follows the order, but only when not weights. The SET takes H and W from the shape and the memory space |
| SparseBuffer.ExtractDenseTile | src/vpux_compiler/src/dialect/VPUIP/IR/types/sparse_buffer.cpp:431-468 | The data is the input tile seAttr asks for (or the tile itself), extracted at that tile's offsets. A non-weights sparsity map is extracted at the tile's offsets and shape, and a weights one is only reshaped to the inferred weights shape. The SET tile is extracted at zero offsets except at H and W, with its own shape except at H and W. Compression and seAttr are tiled. The result is valid |
| SparseBuffer.ExtractViewTileScanning | src/vpux_compiler/src/dialect/VPUIP/IR/types/sparse_buffer.cpp:470-514 | The view tile, parameterised by the stride range the seAttr guard scans: it fails exactly when seAttr is set, the strides are non-empty and the scanned range holds a non-unit stride. Otherwise it is the tile, with the data's input tile and a non-weights sparsity map's tile taken as views with the strides at their offsets. A weights map is only reshaped |
| SparseBuffer.ExtractViewTileAsWritten | src/vpux_compiler/src/dialect/VPUIP/IR/types/sparse_buffer.cpp:477-481 | The guard as written scans an empty range, so the view tile always succeeds, even with seAttr and non-unit strides |
| SparseBuffer.ExtractViewTile | src/vpux_compiler/src/dialect/VPUIP/IR/types/sparse_buffer.cpp:470-514 | Corrected guard: fails exactly when seAttr is set and some stride is not 1. Otherwise it is the view tile: data and non-weights sparsity map taken as strided views at their offsets, a weights map reshaped, the SET tiled at H and W |
| SparseBuffer.ViewTileGuardNeverFires | src/vpux_compiler/src/dialect/VPUIP/IR/types/sparse_buffer.cpp:477-481 | With seAttr and strides [1, 1, 2, 2], the written guard lets the view tile through while the intended guard rejects it |
| SparseBuffer.ViewTileGuardAgreesOnDenseViews | src/vpux_compiler/src/dialect/VPUIP/IR/types/sparse_buffer.cpp:476-482 | The written and the corrected guard agree whenever seAttr is absent or every stride is 1 |
| SparseBuffer.EraseTiledInfo | src/vpux_compiler/src/dialect/VPUIP/IR/types/sparse_buffer.cpp:516-534 | Every part keeps its shape, kind, element type, order and memory space. Only the tiling information is dropped. The result is valid |
| SparseBuffer.Pad | src/vpux_compiler/src/dialect/VPUIP/IR/types/sparse_buffer.cpp:536-568 | The padded output shape (each dim plus its pads) is back-inferred for the data. It is given to a non-weights sparsity map, and the weights shape to a weights one. Its H and W go to the SET |
| SparseBuffer.ChangeShapeThenGetShape | src/vpux_compiler/src/dialect/VPUIP/IR/types/sparse_buffer.cpp:179-182 | changeShape then getShape gives back the requested shape, keeps the element type, and a non-weights sparsity map has the new shape |
| SparseBuffer.ChangeShapeThenCount | src/vpux_compiler/src/dialect/VPUIP/IR/types/sparse_buffer.cpp:194-205 | After changeShape, getNumElements is the product of the new shape, unless compression fixes the count (then it is unchanged). getRank is the new rank when no seAttr reshapes the data |
| SparseBuffer.ChangeElemTypeThenGet | src/vpux_compiler/src/dialect/VPUIP/IR/types/sparse_buffer.cpp:207-210 | changeElemType then getElementType gives the new type back, and the shape is kept |
| SparseBuffer.ChangeOrderAndMemSpaceThenGet | src/vpux_compiler/src/dialect/VPUIP/IR/types/sparse_buffer.cpp:212-220 | getDimsOrder and getMemSpace return what changeDimsOrder and changeMemSpace set. changeMemSpace moves every part |
| SparseBuffer.ChangeTypeComponentsThenGet | src/vpux_compiler/src/dialect/VPUIP/IR/types/sparse_buffer.cpp:388-429 | Every getter returns the given component, or the old value when the component is absent |
| SparseBuffer.TileThenGetShape | src/vpux_compiler/src/dialect/VPUIP/IR/types/sparse_buffer.cpp:431-514 | After a dense or view tile, getShape is the tile shape |
| SparseBuffer.PadThenGetShape | src/vpux_compiler/src/dialect/VPUIP/IR/types/sparse_buffer.cpp:536-568 | After pad, getShape is the padded shape |
| SparseBuffer.ShapeKeepingOpsPreserveTracking | src/vpux_compiler/src/dialect/VPUIP/IR/types/sparse_buffer.cpp:331-386 | Order, memory-space, stride and erase-tiling changes keep a non-weights sparsity map shaped like the type |
| SparseBufferExplicit.CheckSeSize | src/vpux_compiler/src/dialect/VPUIP/IR/types/sparse_buffer.cpp:652-658 | The storage-element size check fails exactly when shape[C] / SET[C] changes and SET[C] is not 1, naming the old and new sizes. On success it yields the new size shape[C] / SET[C] |
| SparseBufferExplicit.ChangeShapeElemTypeForExplicitDistribution | src/vpux_compiler/src/dialect/VPUIP/IR/types/sparse_buffer.cpp:604-667 | Fails exactly when the data is not distributed, or when the SET's storage-element size would change, naming the old and new sizes. Succeeds otherwise |
| SparseBufferExplicit.ReshapeDistributed | src/vpux_compiler/src/dialect/VPUIP/IR/types/sparse_buffer.cpp:614-666 | With distributed data, only the storage-element size check can make the reshape fail |
| SparseBufferExplicit.ChangeShapeElemTypeForExplicitDistributionParts | src/vpux_compiler/src/dialect/VPUIP/IR/types/sparse_buffer.cpp:614-666 | A successful explicit reshape is valid, keeps the attributes and is all distributed. The data has the back-inferred shape, the new element type and the data policy's distribution. The sparsity map has the inferred shape and the sparsity-map policy's distribution for that shape. The SET has the new H and W and the SET policy's distribution for the new storage-element size. Both keep their element type, order and memory space |
| SparseBufferExplicit.ChangeShapeForExplicitDistribution | src/vpux_compiler/src/dialect/VPUIP/IR/types/sparse_buffer.cpp:596-599 | The same success condition as changeShapeElemTypeForExplicitDistribution. Every part ends distributed and the element type is kept |
| SparseBufferExplicit.ChangeTypeComponentsForExplicitDistribution | src/vpux_compiler/src/dialect/VPUIP/IR/types/sparse_buffer.cpp:672-740 | Without a distribution it is changeTypeComponents. With one, it fails exactly on non-distributed data or a changing storage-element size, naming the sizes |
| SparseBufferExplicit.ChangeTypeComponentsForExplicitDistributionParts | src/vpux_compiler/src/dialect/VPUIP/IR/types/sparse_buffer.cpp:680-739 | A successful explicit change is valid, keeps the attributes and is all distributed. The data takes the back-inferred shape, the requested element type, order and memory space (or keeps its own), and the data policy's distribution. The sparsity map takes its derived shape, the sparsity-map policy's distribution and the memory space. It also takes the order, but only when not weights. The SET takes the new H and W, the memory space and the SET policy's distribution for the new storage-element size. Otherwise both keep their element type and order |
| SparseBufferExplicit.ExplicitSETile | src/vpux_compiler/src/dialect/VPUIP/IR/types/sparse_buffer.cpp:786-810 | The SET tile of an explicit extraction fails exactly on a changing storage-element size. Otherwise it is present exactly when the SET is. It has the tile's H and W, is extracted at offsets zero except H and W, and carries the SET policy's distribution for the tile's storage-element size. It keeps the SET's element type, order and memory space |
| SparseBufferExplicit.ExtractDenseTileForExplicitDistribution | src/vpux_compiler/src/dialect/VPUIP/IR/types/sparse_buffer.cpp:745-816 | Without a distribution it is extractDenseTile. With one, it fails exactly on non-distributed data or a changing storage-element size |
| SparseBufferExplicit.ExtractDenseTileForExplicitDistributionParts | src/vpux_compiler/src/dialect/VPUIP/IR/types/sparse_buffer.cpp:756-815 | A successful explicit dense tile is valid and all distributed, and carries the tiled seAttr and compression. The data is the input tile the seAttr needs, extracted at its offsets with the data policy's distribution. A non-weights sparsity map is extracted at the tile's offsets with the sparsity-map policy's distribution, and a weights one is reshaped with it. The SET tile is as ExplicitSETile states. Every part keeps its element type, order and memory space |
| SparseBufferExplicit.ExtractViewTileForExplicitDistributionScanning | src/vpux_compiler/src/dialect/VPUIP/IR/types/sparse_buffer.cpp:818-893 | The explicit view tile, parameterised by the range the stride guard scans. Each error holds exactly under its condition, checked in the source's order |
| SparseBufferExplicit.ExtractViewTileForExplicitDistributionScanningParts | src/vpux_compiler/src/dialect/VPUIP/IR/types/sparse_buffer.cpp:837-892 | A successful explicit view tile is valid and all distributed, with the tiled seAttr and compression. The data's input tile and a non-weights sparsity map's tile are taken as strided views at their offsets, with the data and sparsity-map policies' distributions. A weights map is reshaped. The SET tile is dense at zero offsets except H and W, with the SET policy's distribution. Every part keeps its element type, order and memory space |
| SparseBufferExplicit.ExtractViewTileForExplicitDistributionAsWritten | src/vpux_compiler/src/dialect/VPUIP/IR/types/sparse_buffer.cpp:832-836 | The written guard never raises the strided-view error. With a distribution, success depends only on distributed data and the storage-element size |
| SparseBufferExplicit.ExtractViewTileForExplicitDistribution | src/vpux_compiler/src/dialect/VPUIP/IR/types/sparse_buffer.cpp:818-893 | Corrected guard: the strided-view error is raised exactly when seAttr is set and some stride is not 1. Without a distribution it is the corrected extractViewTile. A successful one has the data's input tile and a non-weights map's tile as strided views at their offsets with their policies' distributions, a weights map reshaped, and the SET tiled at its H and W offsets. Every part keeps its element type, order and memory space |
| SparseBufferExplicit.ExplicitViewTileGuardNeverFires | src/vpux_compiler/src/dialect/VPUIP/IR/types/sparse_buffer.cpp:832-836 | For strides [1, 1, 2, 2] with seAttr, the written explicit view tile succeeds while the corrected one reports the strided view |
| SparseBufferExplicit.ExplicitResultsAreDistributed | src/vpux_compiler/src/dialect/VPUIP/IR/types/sparse_buffer.cpp:604-667 | A successful explicit reshape gives a valid type whose parts are all distributed |
| SparseBufferExplicit.SeSizeKeptWhenChannelsKept | src/vpux_compiler/src/dialect/VPUIP/IR/types/sparse_buffer.cpp:652-658 | When the channel count is kept, the storage-element size check passes |
| SparseBufferAsm.Expect | src/vpux_compiler/src/dialect/VPUIP/IR/types/sparse_buffer.cpp:39-56 | A mandatory token is consumed exactly when it is the next one, and the rest is returned |
| SparseBufferAsm.ParseType | src/vpux_compiler/src/dialect/VPUIP/IR/types/sparse_buffer.cpp:54-56 | A nested type is read exactly when the next token is one |
| SparseBufferAsm.ParseNamedType | src/vpux_compiler/src/dialect/VPUIP/IR/types/sparse_buffer.cpp:74-82 | `keyword=type` is read exactly when the next three tokens are that keyword, `=` and a type |
| SparseBufferAsm.ParseCompression | src/vpux_compiler/src/dialect/VPUIP/IR/types/sparse_buffer.cpp:65-67 | The attribute is read exactly when it is a sparsity-compression attribute |
| SparseBufferAsm.ParseSeAttr | src/vpux_compiler/src/dialect/VPUIP/IR/types/sparse_buffer.cpp:123-125 | The attribute is read exactly when it is a storage-element attribute |
| SparseBufferAsm.WeightsTailRoundTrip | src/vpux_compiler/src/dialect/VPUIP/IR/types/sparse_buffer.cpp:64-72 | After `is_weights`, the printed compression and `>` parse back, and a printed seAttr there is a syntax error |
| SparseBufferAsm.AfterSETableRoundTrip | src/vpux_compiler/src/dialect/VPUIP/IR/types/sparse_buffer.cpp:111-135 | After the SET, printed weights attributes or an seAttr parse back. Compression without is_weights, and seAttr together with is_weights, are errors |
| SparseBufferAsm.AfterSparsityMapRoundTrip | src/vpux_compiler/src/dialect/VPUIP/IR/types/sparse_buffer.cpp:83-110 | After the sparsity map, a printed SET or weights attributes parse back. An seAttr with no SET is an error |
| SparseBufferAsm.AfterSparsityMapTailRoundTrip | src/vpux_compiler/src/dialect/VPUIP/IR/types/sparse_buffer.cpp:83-110 | When the sparsity map is the last printed sub-buffer, the weights attributes and the closing bracket parse back |
| SparseBufferAsm.AfterDataTailRoundTrip | src/vpux_compiler/src/dialect/VPUIP/IR/types/sparse_buffer.cpp:57-82 | When the data is the only printed sub-buffer, the weights attributes and the closing bracket parse back |
| SparseBufferAsm.AfterDataRoundTrip | src/vpux_compiler/src/dialect/VPUIP/IR/types/sparse_buffer.cpp:57-82 | After the data, a printed sparsity map or weights attributes parse back. A SET with no sparsity map is an error |
| SparseBufferAsm.ParsePrint | src/vpux_compiler/src/dialect/VPUIP/IR/types/sparse_buffer.cpp:18-136 | Parsing the printed form of any type, followed by any tokens, gives the type back with those tokens unread, exactly for the presence patterns the parser has a branch for. Every other printed form is a syntax error |
| SparseBufferAsm.ParseIsCanonical | src/vpux_compiler/src/dialect/VPUIP/IR/types/sparse_buffer.cpp:38-136 | Whatever the parser accepts has a printable presence pattern, and the consumed tokens are exactly its printed form |
| Layers.Dims3DActSpatialDim | src/vpux_compiler/include/vpux/compiler/core/layers.hpp:26-31 | Accepts only index 0 (the code's bound, though numSpatialDims is 2) and gives H = 1, otherwise the wrong-index error |
| Layers.Dims3DFilterSpatialDim | src/vpux_compiler/include/vpux/compiler/core/layers.hpp:41-46 | Accepts only index 0 and gives dim 1, otherwise the wrong-index error |
| Layers.Dims4DActSpatialDim | src/vpux_compiler/include/vpux/compiler/core/layers.hpp:71-76 | Accepts index below 2: 0 gives H = 2 and 1 gives W = 3 |
| Layers.Dims4DFilterSpatialDim | src/vpux_compiler/include/vpux/compiler/core/layers.hpp:87-92 | Accepts index below 2: 0 gives KY = 2 and 1 gives KX = 3 |
| Layers.Dims5DActSpatialDim | src/vpux_compiler/include/vpux/compiler/core/layers.hpp:149-154 | Accepts index below 3 and gives D, H, W (2..4) |
| Layers.Dims5DFilterSpatialDim | src/vpux_compiler/include/vpux/compiler/core/layers.hpp:166-171 | Accepts index below 3 and gives KZ, KY, KX (2..4) |
| Layers.Groups5DActSpatialDim | src/vpux_compiler/include/vpux/compiler/core/layers.hpp:230-236 | Accepts index below 2 and gives H = 3, W = 4, below numDims = 5 |
| Layers.Groups5DFilterSpatialDim | src/vpux_compiler/include/vpux/compiler/core/layers.hpp:247-253 | Accepts index below 2 and gives KY = 3, KX = 4, below numDims = 5 |
| Layers.SpatialDimsInjective | src/vpux_compiler/include/vpux/compiler/core/layers.hpp:73-253 | In each of the six multi-index families (Dims4D Act and Filter, Dims5D Act and Filter, DimsGroups5D Act and Filter), distinct valid indices give distinct dims |
| StatePrefix.ComparesEqualAtStart | src/vpux_utils/include/vpux/utils/IE/prefix.hpp:20-25 | `compare(0, size, prefix) == 0` holds exactly when the name starts with the prefix |
| StatePrefix.IsStateInputName | src/vpux_utils/include/vpux/utils/IE/prefix.hpp:17-22 | True exactly when the name starts with `vpux_ie_read_value_` |
| StatePrefix.IsStateOutputName | src/vpux_utils/include/vpux/utils/IE/prefix.hpp:18-25 | True exactly when the name starts with `vpux_ie_assign_` |
| StatePrefix.StateOutputToStateInputName | src/vpux_utils/include/vpux/utils/IE/prefix.hpp:27-29 | Fails (substr out of range) exactly on names shorter than the assign prefix. Otherwise the result is a state-input name with the same suffix |
| StatePrefix.StateNamesDisjoint | src/vpux_utils/include/vpux/utils/IE/prefix.hpp:17-25 | No name is both a state-input and a state-output name |
| StatePrefix.RenameAssignName | src/vpux_utils/include/vpux/utils/IE/prefix.hpp:27-29 | Renaming the assign name of a suffix gives the read-value name of the same suffix |
| StatePrefix.RenameLeavesOutputNames | src/vpux_utils/include/vpux/utils/IE/prefix.hpp:20-29 | A renamed state-output name is no longer a state-output name |
| BlobScanner.MemoryRequirementsCategory.constructor | tools/vpux-binutils/vpux-loader/blob_scanner.hpp:35 | A new category has its name, no groups and a zero total |
| BlobScanner.MemoryRequirementsCategory.AddRequirementToGroup | tools/vpux-binutils/vpux-loader/blob_scanner.hpp:37-42 | Appends the requirement to the named group, creating it if absent. Raises that group's total and the category total by the section size. Leaves every other group as it was, and keeps the totals consistent |
| BlobScanner.MemoryRequirementsCategory.GetTotalRequired | tools/vpux-binutils/vpux-loader/blob_scanner.hpp:44-46 | The total is the sum of the group totals |
| BlobScanner.GrowOrderDistinct | tools/vpux-binutils/vpux-loader/blob_scanner.hpp:40 | Recording a new group name keeps the names distinct |
| BlobScanner.AddKeepsGroupTotals | tools/vpux-binutils/vpux-loader/blob_scanner.hpp:40-41 | Appending a requirement keeps every group's total equal to the sum of its sizes |
| BlobScanner.AddKeepsSum | tools/vpux-binutils/vpux-loader/blob_scanner.hpp:41 | After an addition the category total is again the sum of the group totals |
| BlobScanner.AddPreservesValid | tools/vpux-binutils/vpux-loader/blob_scanner.hpp:37-42 | Adding a requirement keeps each group total equal to the sum of its sizes, and the category total equal to the sum of the group totals |
| BlobScanner.SumTotalsOfUnlisted | tools/vpux-binutils/vpux-loader/blob_scanner.hpp:41 | Updating a group outside the listed names does not change the sum of the listed totals |
| BlobScanner.SumTotalsOfListed | tools/vpux-binutils/vpux-loader/blob_scanner.hpp:40-41 | Updating a listed group changes the sum of the totals by exactly the change of that group's total |
| BlobScanner.AddForEachProcessor | tools/vpux-binutils/vpux-loader/blob_scanner.hpp:91-95 | The inner loop leaves the processor category as the per-processor classification of one requirement, and keeps it consistent |
| BlobScanner.AddForAllocationType | tools/vpux-binutils/vpux-loader/blob_scanner.hpp:97-105 | An allocated section goes to the "Data" group if PROGBITS, to the "Empty" group if NOBITS, and nowhere otherwise |
| BlobScanner.ScanStep | tools/vpux-binutils/vpux-loader/blob_scanner.hpp:83-106 | One more section extends both classifications by exactly that section |
| BlobScanner.Scanner.constructor | tools/vpux-binutils/vpux-loader/blob_scanner.hpp:79-108 | The loop leaves the "Processor" category equal to the per-processor classification of the sections, and the "Allocation type" category equal to the per-type classification |
| BlobScanner.AddToProcessorGroupsTotal | tools/vpux-binutils/vpux-loader/blob_scanner.hpp:91-95 | A section adds its size once for every processor whose flag it carries, which can be several |
| BlobScanner.ProcessorTotal | tools/vpux-binutils/vpux-loader/blob_scanner.hpp:83-95 | The processor total is, over the allocated sections only, the size times the number of matching processors |
| BlobScanner.AddToProcessorGroupsElsewhere | tools/vpux-binutils/vpux-loader/blob_scanner.hpp:91-95 | The inner loop leaves alone every group that no listed processor is named after |
| BlobScanner.AddToProcessorGroupsOf | tools/vpux-binutils/vpux-loader/blob_scanner.hpp:91-95 | With distinct processor names, a processor's group gains the requirement exactly when the section carries that processor's flag |
| BlobScanner.ProcessorGroup | tools/vpux-binutils/vpux-loader/blob_scanner.hpp:83-95 | With distinct processor names, each processor's group holds exactly the allocated sections that carry its flag, in section order |
| BlobScanner.AllocationGroup | tools/vpux-binutils/vpux-loader/blob_scanner.hpp:97-105 | The "Data" group holds exactly the allocated PROGBITS sections, and the "Empty" group exactly the allocated NOBITS ones, in section order |
| BlobScanner.AllocationGroupNames | tools/vpux-binutils/vpux-loader/blob_scanner.hpp:97-105 | No other allocation-type group is ever created |
| BlobScanner.AllocationTotal | tools/vpux-binutils/vpux-loader/blob_scanner.hpp:86-105 | The allocation-type total is the size of the allocated PROGBITS sections plus that of the allocated NOBITS ones |
| TaskLocations.Uint32 | src/vpux_compiler/src/dialect/VPUMI40XX/passes/resolve_WLM_task_locations.cpp:46-47 | The cast to uint32_t is below 2^32 and keeps values that fit |
| TaskLocations.GetSize | src/vpux_compiler/src/dialect/VPUMI40XX/passes/resolve_WLM_task_locations.cpp:30-41 | Fails for a task type not in the table. Otherwise returns half the hardware count for that type |
| TaskLocations.Populate | src/vpux_compiler/src/dialect/VPUMI40XX/passes/resolve_WLM_task_locations.cpp:43-52 | Creates exactly `count` buffers. Buffer i has the given task type, tile `tileIdx`, list 0 and index i |
| TaskLocations.MatchCount | src/vpux_compiler/src/dialect/VPUMI40XX/passes/resolve_WLM_task_locations.cpp:73-78 | The number of tasks of a type in a group is at most the group's length |
| TaskLocations.AssignGroup | src/vpux_compiler/src/dialect/VPUMI40XX/passes/resolve_WLM_task_locations.cpp:72-78 | Within one group, the k-th task of the type gets slot groupCtr + k and the other tasks none |
| TaskLocations.AssignGroups | src/vpux_compiler/src/dialect/VPUMI40XX/passes/resolve_WLM_task_locations.cpp:69-81 | Over the groups, group g takes its slots from the half of the pool that the counter, alternating between 0 and groupSize, points at |
| TaskLocations.SolveGroupOps | src/vpux_compiler/src/dialect/VPUMI40XX/passes/resolve_WLM_task_locations.cpp:57-83 | Does nothing for a null list head. Otherwise fails exactly for an unregistered type, or creates 2·groupSize buffers. In group g, the k-th task of the type gets slot counter(g) + k, and tasks of other types get none. Requires only a non-zero group size |
| TaskLocations.CounterAlternates | src/vpux_compiler/src/dialect/VPUMI40XX/passes/resolve_WLM_task_locations.cpp:69-81 | The group counter, which starts at 0 and steps by groupSize modulo 2·groupSize, is 0 for even groups and groupSize for odd ones |
| TaskLocations.MatchCountPrefix | src/vpux_compiler/src/dialect/VPUMI40XX/passes/resolve_WLM_task_locations.cpp:72-78 | A matching task has fewer matching tasks before it than the group holds |
| TaskLocations.MatchCountMonotone | src/vpux_compiler/src/dialect/VPUMI40XX/passes/resolve_WLM_task_locations.cpp:72-78 | The per-group task counter never decreases along a group |
| TaskLocations.SlotInGroupHalf | src/vpux_compiler/src/dialect/VPUMI40XX/passes/resolve_WLM_task_locations.cpp:76 | When no group has more tasks than groupSize, every slot lies in the group's half of the pool |
| TaskLocations.SlotsDistinctInGroup | src/vpux_compiler/src/dialect/VPUMI40XX/passes/resolve_WLM_task_locations.cpp:72-78 | Two tasks of one group never share a slot |
| TaskLocations.ConsecutiveGroupsDisjoint | src/vpux_compiler/src/dialect/VPUMI40XX/passes/resolve_WLM_task_locations.cpp:69-81 | Tasks of consecutive groups never share a slot (ping-pong) |
| TaskLocations.SlotsInPool | src/vpux_compiler/src/dialect/VPUMI40XX/passes/resolve_WLM_task_locations.cpp:76 | When even groups have at most 2·groupSize tasks of the type and odd groups at most groupSize, every index `groupCtr + taskCtr` is inside the pool |
| TaskLocations.OverfullGroupSharesBuffer | src/vpux_compiler/src/dialect/VPUMI40XX/passes/resolve_WLM_task_locations.cpp:69-81 | An even group with groupSize + 1 tasks of the type gives its last task the buffer that the next group's first task also gets, although that index is inside the pool |
| Metrics.Find | src/vpux_plugin/src/vpux_metrics.cpp:152 | `std::find`: the first position holding the name, or the end |
| Metrics.FindSamePlatform | src/vpux_plugin/src/vpux_metrics.cpp:154-158 | `std::find_if`: the first device with the same platform as the name, or the end |
| Metrics.GetDeviceName | src/vpux_plugin/src/vpux_metrics.cpp:135-165 | Fails with "no devices" exactly when there is no backend or no device. An empty name gives the only device, or fails with two or more. A listed name, or an unlisted one sharing a device's platform, is returned unchanged. Any other name fails |
| Metrics.ResolvedNameIsAvailable | src/vpux_plugin/src/vpux_metrics.cpp:142-164 | A resolved name is a listed device, or shares its platform with one |

## Left out

- `print`/`parse` work on a list of tokens; a nested type or attribute is a single token. The MLIR printer and parser streams, type interning and hashing are not part of this model.
- `parse` hands its parts to `get`, whose `verify` check is an assertion, not a diagnostic the parser reports. The model's parser therefore returns the parsed parts as they are, without that check.
- Only the fields a transform reads or sets are modelled: kind, shape, element type, order and memory space. The rest of a sub-buffer type (strides, tiling, distribution details) is an opaque layout that the environment updates.
- The foreign collaborators are environment functions. Their source is not part of this model: the SEAttr methods, `inferWeightsSparsityMapShape`, `tileSparsityCompression`, the sub-buffer allocation and stride queries, and the `getExplicitDistrAttrFor*` policies.
- getMemShape, getMemStrides, hasRank, getMemoryKind and getElemTypeSize forward directly to the effective data buffer. They are left out.
- The strides component of `TypeComponents` is not modelled.
- `getEffectiveSparseOutputType` is modelled as the data reshaped to seAttr's output shape.
- `tileSparsityCompression` of an absent compression attribute stays absent.
- Pad amounts missing for a dim (short pad lists) count as zero.
- Indexing a shape at C, H or W needs that dim to exist. The transforms take this as a precondition (`SETFits`, `TileFits`), and so does division by the SET channel count (`SeSizeDefined`), because the source indexes unchecked.
- In the explicit-distribution transforms there are casts of the sparsity map and the SET to a distributed buffer. On a valid type with distributed data these casts cannot fail, so they are not modelled as errors. The failing cast of the data is the `NotDistributed(DataPart)` error.
- Every transform is modelled on a valid type. For a type that did not pass `verify`, the transforms are not modelled.
- BlobScanner.MemoryRequirementsCategory.AddRequirementToGroup: the group and category totals are unbounded naturals. The `size_t` wrap-around is not modelled. Section sizes are device-memory sizes, far below 2^64, so the totals of a real blob stay in range. A crafted blob with huge NOBITS sizes (which no file bounds), or with sizes counted once per matching processor, could wrap the source's totals, and the model does not capture that.
- `MemoryRequirementsCategory::print`, `BlobScanner::printResult` and the ELF reader are console I/O and foreign code. The scanner takes the section headers as a sequence.
- The processor map iterates in an unspecified order. The model takes that order as the order of a sequence, with distinct names (`DistinctNames`) as the keys of an unordered_map have.
- The three VPU processor flag values come from the ELF library, which is not part of this model. They appear as parameters of `DefaultProcMap`.
- The NPU40XX hardware counts behind the `sizes` table come from a header that is not part of this model. They are a `HwCounts` parameter.
- In the WLM pass, the list head, the execution groups and `setTaskLocation` are IR plumbing. Groups are a sequence of sequences of task types, and an empty sequence stands for a null list head. The result is the buffers and the slot of every task. The outer loop over tiles is not part of this model.
- TaskLocations.SolveGroupOps: a non-zero group size is a precondition (`NonZeroGroupSize`), because the source's counter update would divide by zero. An index `groupCtr + taskCtr` past the pool is undefined behaviour in the source. The model hands out that slot number, and `SlotsInPool` states when every index stays inside the pool.
- Groups with more than groupSize tasks of a type are not rejected, as in the source. `SlotInGroupHalf` and `ConsecutiveGroupsDisjoint` assume `FitsPool` (at most groupSize per group), and `OverfullGroupSharesBuffer` shows the overlap without it.
- `getPlatformByDeviceName` is a function parameter. The other `Metrics` getters only forward to the backend.
- The `layers.cpp` definitions of the named dims are not part of this model. Each named dim is assumed to be its position in the declaration order of layers.hpp (`Dims4D::Act::N` = 0, `C` = 1, `H` = 2, `W` = 3, and so on), which agrees with the `getSpatialDim` bodies (`Dim(index + 2)`, `Dim(index + 3)`). The `C`, `H` and `W` indexing of the sparse buffer model rests on the same assumption.

## Findings

| source | as written | input that shows it | evidently intended | confidence | as-written member | corrected member |
|---|---|---|---|---|---|---|
| src/vpux_compiler/src/dialect/VPUIP/IR/types/sparse_buffer.cpp:477-481 | `std::any_of(tileElemStrides.begin(), tileElemStrides.begin(), ...)` scans an empty range, so the guard never throws | a type with seAttr, view tile with strides [1, 1, 2, 2] | throw when seAttr is set and any element stride is not 1 (scan to `end()`) | not executed | SparseBuffer.ExtractViewTileAsWritten, SparseBuffer.ViewTileGuardNeverFires | SparseBuffer.ExtractViewTile |
| src/vpux_compiler/src/dialect/VPUIP/IR/types/sparse_buffer.cpp:832-836 | the same empty-range scan in the explicit-distribution view tile | a type with seAttr and distributed data, view tile with strides [1, 1, 2, 2] | the same guard over the whole stride list | not executed | SparseBufferExplicit.ExtractViewTileForExplicitDistributionAsWritten, SparseBufferExplicit.ExplicitViewTileGuardNeverFires | SparseBufferExplicit.ExtractViewTileForExplicitDistribution |
