/**
  Tri-state decoding of entitlement codes and bounds-safe resolution of a
  feature index against a product snapshot (common/feature_catalog.h).
 */
module FeatureCatalog {
  import opened Wrappers
  import opened Licenx

  /** The three permission tiers, least to most capable. */
  datatype FeatureState = Disabled | Enabled | Extended

  /** The enum's underlying `std::uint8_t` value: Disabled = 0, Enabled = 1, Extended = 2. */
  function Underlying(s: FeatureState): (b: Byte)
    ensures b <= 2
    ensures ToFeatureState(b) == s
  {
    match s
    case Disabled => 0
    case Enabled => 1
    case Extended => 2
  }

  /** Decodes one raw code; every code other than 1 and 2 fails closed to Disabled. */
  function ToFeatureState(trit: Byte): (s: FeatureState)
    ensures s == Extended <==> trit == 2
    ensures s == Enabled <==> trit == 1
    ensures s == Disabled <==> trit != 1 && trit != 2
  {
    if trit == 2 then Extended
    else if trit == 1 then Enabled
    else Disabled
  }

  /** The underlying value is the only code in 0..2 that decodes to its state. */
  lemma DecodeUnderlying(s: FeatureState)
    ensures forall b: Byte :: ToFeatureState(b) == s && b <= 2 ==> b == Underlying(s)
  {
  }

  /** The textual name of a state, as printed by the CLI listing. */
  function DescribeFeatureState(s: FeatureState): (text: string)
    ensures text == "extended" <==> s == Extended
    ensures text == "enabled" <==> s == Enabled
    ensures text == "disabled" <==> s == Disabled
  {
    match s
    case Extended => "extended"
    case Enabled => "enabled"
    case Disabled => "disabled"
  }

  /** Distinct states have distinct names. */
  lemma DescribeFeatureStateInjective(s: FeatureState, t: FeatureState)
    ensures DescribeFeatureState(s) == DescribeFeatureState(t) ==> s == t
  {
  }

  /**
    `GetProductStateSafe`: the engine call `licenx::GetProductState` is the
    parameter `call`; whatever it throws becomes `None`.
   */
  function GetProductStateSafe(call: EngineCall<ProductState>): (r: Option<ProductState>)
    ensures r.Some? <==> call.Returned?
    ensures r.Some? ==> r.value == call.value
  {
    match call
    case Returned(p) => Some(p)
    case Threw => None
  }

  /** The state of feature `index` in `product`; an index past the end is Disabled. */
  function ResolveFeature(product: ProductState, index: nat): (s: FeatureState)
    ensures index >= |product.featureStates| ==> s == Disabled
    ensures index < |product.featureStates| ==> s == ToFeatureState(product.featureStates[index])
    ensures s != Disabled ==>
              index < |product.featureStates| && product.featureStates[index] == Underlying(s)
  {
    if index >= |product.featureStates| then Disabled
    else ToFeatureState(product.featureStates[index])
  }

  /** Appending codes for new features never changes how existing indices resolve. */
  lemma ResolveFeatureStable(product: ProductState, more: seq<Byte>, index: nat)
    requires index < |product.featureStates|
    ensures ResolveFeature(ProductState(product.featureStates + more), index)
         == ResolveFeature(product, index)
  {
  }
}

/** `GpuFeatureCatalog`: the two features of the GPU application. */
module GpuFeatureCatalog {

  const RenderPreviewIndex: nat := 0
  const ModelTrainingIndex: nat := 1

  const UnknownName: string := "Unknown GPU Feature"

  /** The display name of `index`, or the placeholder for an index it does not reserve. */
  function DescribeName(index: nat): (name: string)
    ensures index == RenderPreviewIndex ==> name == "GPU Render Preview"
    ensures index == ModelTrainingIndex ==> name == "GPU Model Training"
    ensures name == UnknownName <==> index > ModelTrainingIndex
  {
    if index == RenderPreviewIndex then "GPU Render Preview"
    else if index == ModelTrainingIndex then "GPU Model Training"
    else UnknownName
  }

  /** The reserved names are non-empty, and two indices share a name only when both are unknown. */
  lemma DescribeNameInjective(i: nat, j: nat)
    ensures i <= ModelTrainingIndex ==> |DescribeName(i)| > 0 && DescribeName(i) != UnknownName
    ensures DescribeName(i) == DescribeName(j) ==> i == j || (i > ModelTrainingIndex && j > ModelTrainingIndex)
  {
  }
}

/** `CliFeatureCatalog`: the four generic features of the command-line tool. */
module CliFeatureCatalog {

  const Feature1Index: nat := 0
  const Feature2Index: nat := 1
  const Feature3Index: nat := 2
  const Feature4Index: nat := 3

  /** Number of reserved indices, 0 .. FeatureCount - 1. */
  const FeatureCount: nat := 4

  const UnknownName: string := "Unknown CLI Feature"

  /** The display name of `index`: "CLI Feature 1" .. "CLI Feature 4", or the placeholder. */
  function DescribeName(index: nat): (name: string)
    ensures index < FeatureCount ==> name == "CLI Feature " + [('1' as int + index) as char]
    ensures name == UnknownName <==> index >= FeatureCount
  {
    if index == Feature1Index then "CLI Feature 1"
    else if index == Feature2Index then "CLI Feature 2"
    else if index == Feature3Index then "CLI Feature 3"
    else if index == Feature4Index then "CLI Feature 4"
    else UnknownName
  }

  /** The four reserved names are pairwise distinct and distinct from the placeholder. */
  lemma DescribeNameInjective(i: nat, j: nat)
    ensures DescribeName(i) == DescribeName(j) ==> i == j || (i >= FeatureCount && j >= FeatureCount)
  {
  }
}
