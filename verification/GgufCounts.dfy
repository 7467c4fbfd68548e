/** The counts of src/gguf.rs: saturating folds over untrusted dimensions, and
    the type most of a model's weights are stored in. */
module GgufCounts {
  import opened Words
  import opened Wrappers
  import opened Gguf

  const U128_MAX := 0xFFFF_FFFF_FFFF_FFFF_FFFF_FFFF_FFFF_FFFF

  // ----- exact counts -----

  function Product(dims: seq<nat>): nat {
    if dims == [] then 1 else dims[0] * Product(dims[1..])
  }

  function TotalElements(tensors: seq<TensorInfo>): nat {
    if tensors == [] then 0 else Product(tensors[0].dims) + TotalElements(tensors[1..])
  }

  // ----- the folds of the code, over 128 bits -----

  function SaturatingMul(a: nat, b: nat): nat {
    Min(U128_MAX, a * b)
  }

  function SaturatingAdd(a: nat, b: nat): nat {
    Min(U128_MAX, a + b)
  }

  function FoldDims(dims: seq<nat>, acc: nat): nat {
    if dims == [] then acc else FoldDims(dims[1..], SaturatingMul(acc, dims[0]))
  }

  function FoldTensors(tensors: seq<TensorInfo>, acc: nat): nat {
    if tensors == [] then acc else FoldTensors(tensors[1..], SaturatingAdd(acc, FoldDims(tensors[0].dims, 1)))
  }

  function ParameterCount(tensors: seq<TensorInfo>): nat {
    Min(FoldTensors(tensors, 0), MAX_UINT64)
  }

  lemma SaturatedTimes(a: nat, d: nat)
    ensures SaturatingMul(Min(U128_MAX, a), d) == Min(U128_MAX, a * d)
  {
  }

  /** Saturating on the way loses nothing but what is past the limit, also when
      a zero dimension follows. */
  lemma {:induction false} FoldedProduct(dims: seq<nat>, exact: nat)
    ensures var max := 0xFFFF_FFFF_FFFF_FFFF_FFFF_FFFF_FFFF_FFFF;
      FoldDims(dims, Min(max, exact)) == Min(max, exact * Product(dims))
    decreases dims
  {
    if dims == [] {
    } else {
      SaturatedTimes(exact, dims[0]);
      FoldedProduct(dims[1..], exact * dims[0]);
      assert exact * (dims[0] * Product(dims[1..])) == exact * dims[0] * Product(dims[1..]);
    }
  }

  lemma TensorElements(dims: seq<nat>)
    ensures FoldDims(dims, 1) == Min(U128_MAX, Product(dims))
  {
    FoldedProduct(dims, 1);
  }

  lemma {:induction false} FoldedTotal(tensors: seq<TensorInfo>, exact: nat)
    ensures FoldTensors(tensors, Min(U128_MAX, exact)) == Min(U128_MAX, exact + TotalElements(tensors))
    decreases tensors
  {
    if tensors == [] {
    } else {
      TensorElements(tensors[0].dims);
      FoldedTotal(tensors[1..], exact + Product(tensors[0].dims));
    }
  }

  /** The reported parameter count is exact, or the largest 64-bit number. */
  lemma ParameterCountIsExact(tensors: seq<TensorInfo>)
    ensures ParameterCount(tensors) ==
      if TotalElements(tensors) > 0xFFFF_FFFF_FFFF_FFFF then 0xFFFF_FFFF_FFFF_FFFF else TotalElements(tensors)
  {
    FoldedTotal(tensors, 0);
  }

  // ----- the dominant type -----

  /** Weight matrices count; vectors do not. */
  predicate Ranked(t: TensorInfo) {
    |t.dims| >= 2
  }

  function RankedTypes(tensors: seq<TensorInfo>): set<nat> {
    set t | t in tensors && Ranked(t) :: t.ggmlType
  }

  /** All elements stored as ty in weight matrices. */
  function TypeTotal(tensors: seq<TensorInfo>, ty: nat): nat {
    if tensors == [] then 0
    else
      var n := |tensors| - 1;
      TypeTotal(tensors[..n], ty)
      + if Ranked(tensors[n]) && tensors[n].ggmlType == ty then Product(tensors[n].dims) else 0
  }

  function Weight(tensors: seq<TensorInfo>, ty: nat): nat {
    Min(U128_MAX, TypeTotal(tensors, ty))
  }

  /** Some type of the weight matrices that none outweighs; ties are open. */
  predicate Dominant(tensors: seq<TensorInfo>, ty: nat) {
    ty in RankedTypes(tensors) && forall other | other in RankedTypes(tensors) :: Weight(tensors, other) <= Weight(tensors, ty)
  }

  function TypeName(ty: nat): string {
    match ty
    case 0 => "F32" case 1 => "F16" case 2 => "Q4_0" case 3 => "Q4_1" case 6 => "Q5_0" case 7 => "Q5_1"
    case 8 => "Q8_0" case 9 => "Q8_1" case 10 => "Q2_K" case 11 => "Q3_K" case 12 => "Q4_K" case 13 => "Q5_K"
    case 14 => "Q6_K" case 15 => "Q8_K" case 16 => "IQ2_XXS" case 17 => "IQ2_XS" case 18 => "IQ3_XXS"
    case 19 => "IQ1_S" case 20 => "IQ4_NL" case 21 => "IQ3_S" case 22 => "IQ2_S" case 23 => "IQ4_XS"
    case 24 => "I8" case 25 => "I16" case 26 => "I32" case 27 => "I64" case 28 => "F64" case 29 => "IQ1_M"
    case 30 => "BF16" case 34 => "TQ1_0" case 35 => "TQ2_0"
    case _ => "unknown"
  }

  /** A tensor of two or more dimensions adds its elements to its own type and
      makes that a candidate; one of fewer changes nothing. */
  lemma OneMoreTensor(tensors: seq<TensorInfo>, i: nat, ty: nat)
    requires i < |tensors|
    ensures var t := tensors[i];
      TypeTotal(tensors[..i + 1], ty) ==
        TypeTotal(tensors[..i], ty) + (if |t.dims| >= 2 && t.ggmlType == ty then Product(t.dims) else 0)
    ensures RankedTypes(tensors[..i + 1]) ==
      if |tensors[i].dims| >= 2 then RankedTypes(tensors[..i]) + {tensors[i].ggmlType} else RankedTypes(tensors[..i])
  {
    assert tensors[..i + 1][..i] == tensors[..i];
    assert tensors[..i + 1] == tensors[..i] + [tensors[i]];
  }

  lemma {:induction false} UnusedType(tensors: seq<TensorInfo>, ty: nat)
    requires ty !in RankedTypes(tensors)
    ensures TypeTotal(tensors, ty) == 0
  {
    if tensors == [] {
    } else {
      var n := |tensors| - 1;
      assert tensors[n] in tensors;
      UnusedType(tensors[..n], ty);
    }
  }

  lemma WeightAfter(tensors: seq<TensorInfo>, i: nat, ty: nat)
    requires i < |tensors|
    ensures var t := tensors[i];
      Weight(tensors[..i + 1], ty) ==
        if Ranked(t) && t.ggmlType == ty then SaturatingAdd(Weight(tensors[..i], ty), FoldDims(t.dims, 1))
        else Weight(tensors[..i], ty)
  {
    hide TypeTotal, FoldDims, Product;
    OneMoreTensor(tensors, i, ty);
    TensorElements(tensors[i].dims);
  }

  lemma UnusedWeight(tensors: seq<TensorInfo>, ty: nat)
    ensures ty !in RankedTypes(tensors) ==> Weight(tensors, ty) == 0
  {
    if ty !in RankedTypes(tensors) {
      UnusedType(tensors, ty);
    }
  }

  /** The saturated total per type of the weight matrices. */
  method Totals(tensors: seq<TensorInfo>) returns (totals: map<nat, nat>)
    ensures totals.Keys == RankedTypes(tensors)
    ensures forall ty | ty in totals :: totals[ty] == Weight(tensors, ty)
  {
    hide Weight, RankedTypes, FoldDims, SaturatingAdd;
    totals := map[];
    NoTypes();
    for i := 0 to |tensors|
      invariant totals.Keys == RankedTypes(tensors[..i])
      invariant forall ty | ty in totals :: totals[ty] == Weight(tensors[..i], ty)
    {
      var t := tensors[i];
      forall ty { WeightAfter(tensors, i, ty); }
      OneMoreTensor(tensors, i, t.ggmlType);
      UnusedWeight(tensors[..i], t.ggmlType);
      if |t.dims| < 2 {
        continue;
      }
      var elems := FoldDims(t.dims, 1);
      var entry := if t.ggmlType in totals then totals[t.ggmlType] else 0;
      totals := totals[t.ggmlType := SaturatingAdd(entry, elems)];
    }
    assert tensors[..|tensors|] == tensors;
  }

  lemma TypesOfRanked(tensors: seq<TensorInfo>)
    ensures RankedTypes(tensors) == {} <==> forall t | t in tensors :: |t.dims| < 2
  {
    if RankedTypes(tensors) == {} {
      forall t | t in tensors ensures |t.dims| < 2 {
        assert t.ggmlType !in RankedTypes(tensors);
      }
    }
  }

  /** The type of some weight matrix, and of those types one that no other
      outweighs. */
  lemma DominantMeans(tensors: seq<TensorInfo>, ty: nat)
    ensures Dominant(tensors, ty) <==>
      (exists t | t in tensors :: |t.dims| >= 2 && t.ggmlType == ty) &&
      forall u | u in tensors && |u.dims| >= 2 :: Weight(tensors, u.ggmlType) <= Weight(tensors, ty)
  {
    hide Weight;
    if Dominant(tensors, ty) {
      forall u | u in tensors && |u.dims| >= 2 ensures Weight(tensors, u.ggmlType) <= Weight(tensors, ty) {
        assert u.ggmlType in RankedTypes(tensors);
      }
    }
  }

  lemma NoTypes()
    ensures RankedTypes([]) == {}
  {
  }

  /** `dominant_quantization`: the totals are visited in no particular order. */
  method DominantQuantization(tensors: seq<TensorInfo>) returns (name: Option<string>)
    ensures name == None <==> forall t | t in tensors :: |t.dims| < 2
    ensures name.Some? ==> exists ty :: Dominant(tensors, ty) && name.value == TypeName(ty)
    ensures name.Some? ==> exists t | t in tensors ::
      && |t.dims| >= 2 && name.value == TypeName(t.ggmlType)
      && forall u | u in tensors && |u.dims| >= 2 :: Weight(tensors, u.ggmlType) <= Weight(tensors, t.ggmlType)
  {
    hide TypeName, Weight, RankedTypes;
    var totals := Totals(tensors);
    TypesOfRanked(tensors);
    if totals == map[] {
      assert totals.Keys == {};
      return None;
    }
    var best :| best in totals.Keys;
    var rest := totals.Keys - {best};
    while rest != {}
      invariant best in totals && rest <= totals.Keys
      invariant forall ty | ty in totals.Keys - rest :: totals[ty] <= totals[best]
    {
      var ty :| ty in rest;
      rest := rest - {ty};
      if totals[ty] >= totals[best] {
        best := ty;
      }
    }
    assert Dominant(tensors, best);
    DominantMeans(tensors, best);
    return Some(TypeName(best));
  }
}
