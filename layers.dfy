/**
  Named dimension indices of the layout families (3D matmul, 4D convolution,
  5D convolution and grouped 5D) and their guarded spatial-dimension lookups.
  A dimension is its position in a shape, so `Dim` is a natural number; a lookup
  with a spatial index past the family's bound fails instead of throwing.
  The values of the named dims are defined in layers.cpp, which is not part of
  this model; each is taken as its position in the declaration order.
*/
module Layers {
  import opened Wrappers

  type Dim = nat

  datatype SpatialDimError = WrongSpatialDimIndex(index: nat)

  // Dims3D::Act: B, H, IC
  const Dims3DActB: Dim := 0
  const Dims3DActH: Dim := 1
  const Dims3DActIC: Dim := 2
  const Dims3DActNumSpatialDims: nat := 2
  const Dims3DFilterNumSpatialDims: nat := 2

  // Dims4D::Act: N, C, H, W and Dims4D::Filter: OC, IC, KY, KX
  const Dims4DActN: Dim := 0
  const Dims4DActC: Dim := 1
  const Dims4DActH: Dim := 2
  const Dims4DActW: Dim := 3
  const Dims4DActNumSpatialDims: nat := 2
  const Dims4DFilterOC: Dim := 0
  const Dims4DFilterIC: Dim := 1
  const Dims4DFilterKY: Dim := 2
  const Dims4DFilterKX: Dim := 3
  const Dims4DFilterNumSpatialDims: nat := 2

  // Dims5D::Act: N, C, D, H, W and Dims5D::Filter: OC, IC, KZ, KY, KX
  const Dims5DActD: Dim := 2
  const Dims5DActH: Dim := 3
  const Dims5DActW: Dim := 4
  const Dims5DActNumSpatialDims: nat := 3
  const Dims5DFilterKZ: Dim := 2
  const Dims5DFilterKY: Dim := 3
  const Dims5DFilterKX: Dim := 4
  const Dims5DFilterNumSpatialDims: nat := 3

  // DimsGroups5D::Act: G, N, C, H, W and DimsGroups5D::Filter: G, OC, IC, KY, KX
  const Groups5DActH: Dim := 3
  const Groups5DActW: Dim := 4
  const Groups5DActNumDims: nat := 5
  const Groups5DActNumSpatialDims: nat := 2
  const Groups5DFilterKY: Dim := 3
  const Groups5DFilterKX: Dim := 4
  const Groups5DFilterNumDims: nat := 5
  const Groups5DFilterNumSpatialDims: nat := 2

  /** Dims3D::Act accepts only spatial index 0, which names H, although it declares two spatial dims. */
  function Dims3DActSpatialDim(index: nat): (r: Result<Dim, SpatialDimError>)
    ensures r.Ok? <==> index == 0
    ensures r.Ok? ==> r.value == Dims3DActH
    ensures r.Err? ==> r.error == WrongSpatialDimIndex(index)
  {
    if index < 1 then Ok(index + 1) else Err(WrongSpatialDimIndex(index))
  }

  /** Dims3D::Filter has the same bound of one index, answering dimension 1. */
  function Dims3DFilterSpatialDim(index: nat): (r: Result<Dim, SpatialDimError>)
    ensures r.Ok? <==> index == 0
    ensures r.Ok? ==> r.value == 1
    ensures r.Err? ==> r.error == WrongSpatialDimIndex(index)
  {
    if index < 1 then Ok(index + 1) else Err(WrongSpatialDimIndex(index))
  }

  function Dims4DActSpatialDim(index: nat): (r: Result<Dim, SpatialDimError>)
    ensures r.Ok? <==> index < Dims4DActNumSpatialDims
    ensures index == 0 ==> r == Ok(Dims4DActH)
    ensures index == 1 ==> r == Ok(Dims4DActW)
    ensures r.Err? ==> r.error == WrongSpatialDimIndex(index)
  {
    if index < 2 then Ok(index + 2) else Err(WrongSpatialDimIndex(index))
  }

  function Dims4DFilterSpatialDim(index: nat): (r: Result<Dim, SpatialDimError>)
    ensures r.Ok? <==> index < Dims4DFilterNumSpatialDims
    ensures index == 0 ==> r == Ok(Dims4DFilterKY)
    ensures index == 1 ==> r == Ok(Dims4DFilterKX)
    ensures r.Err? ==> r.error == WrongSpatialDimIndex(index)
  {
    if index < 2 then Ok(index + 2) else Err(WrongSpatialDimIndex(index))
  }

  function Dims5DActSpatialDim(index: nat): (r: Result<Dim, SpatialDimError>)
    ensures r.Ok? <==> index < Dims5DActNumSpatialDims
    ensures r.Ok? ==> Dims5DActD <= r.value <= Dims5DActW
    ensures index == 0 ==> r == Ok(Dims5DActD)
    ensures index == 1 ==> r == Ok(Dims5DActH)
    ensures index == 2 ==> r == Ok(Dims5DActW)
    ensures r.Err? ==> r.error == WrongSpatialDimIndex(index)
  {
    if index < 3 then Ok(index + 2) else Err(WrongSpatialDimIndex(index))
  }

  function Dims5DFilterSpatialDim(index: nat): (r: Result<Dim, SpatialDimError>)
    ensures r.Ok? <==> index < Dims5DFilterNumSpatialDims
    ensures r.Ok? ==> Dims5DFilterKZ <= r.value <= Dims5DFilterKX
    ensures index == 0 ==> r == Ok(Dims5DFilterKZ)
    ensures index == 1 ==> r == Ok(Dims5DFilterKY)
    ensures index == 2 ==> r == Ok(Dims5DFilterKX)
    ensures r.Err? ==> r.error == WrongSpatialDimIndex(index)
  {
    if index < 3 then Ok(index + 2) else Err(WrongSpatialDimIndex(index))
  }

  function Groups5DActSpatialDim(index: nat): (r: Result<Dim, SpatialDimError>)
    ensures r.Ok? <==> index < Groups5DActNumSpatialDims
    ensures r.Ok? ==> r.value < Groups5DActNumDims
    ensures index == 0 ==> r == Ok(Groups5DActH)
    ensures index == 1 ==> r == Ok(Groups5DActW)
    ensures r.Err? ==> r.error == WrongSpatialDimIndex(index)
  {
    if index < 2 then Ok(index + 3) else Err(WrongSpatialDimIndex(index))
  }

  function Groups5DFilterSpatialDim(index: nat): (r: Result<Dim, SpatialDimError>)
    ensures r.Ok? <==> index < Groups5DFilterNumSpatialDims
    ensures r.Ok? ==> r.value < Groups5DFilterNumDims
    ensures index == 0 ==> r == Ok(Groups5DFilterKY)
    ensures index == 1 ==> r == Ok(Groups5DFilterKX)
    ensures r.Err? ==> r.error == WrongSpatialDimIndex(index)
  {
    if index < 2 then Ok(index + 3) else Err(WrongSpatialDimIndex(index))
  }

  /** Distinct valid spatial indices name distinct dimensions, in every family. */
  lemma SpatialDimsInjective(i: nat, j: nat)
    requires i != j
    ensures Dims4DActSpatialDim(i).Ok? && Dims4DActSpatialDim(j).Ok? ==> Dims4DActSpatialDim(i) != Dims4DActSpatialDim(j)
    ensures Dims4DFilterSpatialDim(i).Ok? && Dims4DFilterSpatialDim(j).Ok? ==> Dims4DFilterSpatialDim(i) != Dims4DFilterSpatialDim(j)
    ensures Dims5DActSpatialDim(i).Ok? && Dims5DActSpatialDim(j).Ok? ==> Dims5DActSpatialDim(i) != Dims5DActSpatialDim(j)
    ensures Dims5DFilterSpatialDim(i).Ok? && Dims5DFilterSpatialDim(j).Ok? ==> Dims5DFilterSpatialDim(i) != Dims5DFilterSpatialDim(j)
    ensures Groups5DActSpatialDim(i).Ok? && Groups5DActSpatialDim(j).Ok? ==> Groups5DActSpatialDim(i) != Groups5DActSpatialDim(j)
    ensures Groups5DFilterSpatialDim(i).Ok? && Groups5DFilterSpatialDim(j).Ok? ==> Groups5DFilterSpatialDim(i) != Groups5DFilterSpatialDim(j)
  {
  }
}
