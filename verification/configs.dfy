/**
 * The parts of the training configuration that the recipe rules read: the `recipe` tag, the
 * policy kind and the `pirl` block with its per-variant knobs.
 */
module Configs {
  import opened Wrappers
  import opened CanonicalJson

  /** Canonical values of the recipe and variant enumerations. */
  const PI_RL_RECIPE_VALUE: string := "pi-rl"
  const FLOW_NOISE: string := "flow-noise"
  const FLOW_SDE: string := "flow-sde"
  const PI_RL_RECIPE_ALLOWED_VARIANTS: set<string> := {FLOW_NOISE, FLOW_SDE}

  /**
   * A field typed `str | Enum | None`: a plain string, a member of the recipe or variant
   * enumeration (carrying its `.value`), or any other object (carrying its `str()` rendering).
   */
  datatype Tagged =
    | Str(text: string)
    | RecipeEnum(value: string)
    | VariantEnum(value: string)
    | Other(rendered: string)

  datatype FlowNoiseConfig = FlowNoiseConfig(std: Option<real>)

  datatype FlowSdeConfig = FlowSdeConfig(sigmaMin: Option<real>, sigmaMax: Option<real>)

  datatype PiRlConfig = PiRlConfig(
    variant: Option<Tagged>,
    temperature: Option<real>,
    targetNoiseScale: Option<real>,
    flowNoise: FlowNoiseConfig,
    flowSde: FlowSdeConfig)

  /** A configuration's `pirl` block when nothing is set. */
  const DEFAULT_PIRL: PiRlConfig :=
    PiRlConfig(None, None, None, FlowNoiseConfig(None), FlowSdeConfig(None, None))

  /**
   * The policy sub-configuration: its `type`, which the recipe gate reads, and the rest of its
   * fields in the form `draccus.encode` gives them.
   */
  datatype PolicyConfig = PolicyConfig(kind: string, settings: seq<Member>)

  /**
   * A training configuration: the fields the recipe rules read, and every other field (dataset,
   * steps, seed, output directory, job name, optimizer, ...) in the form `draccus.encode` gives
   * them, so that the run's hash can see all of them.
   */
  datatype TrainConfig = TrainConfig(
    recipe: Option<Tagged>,
    policy: Option<PolicyConfig>,
    pirl: PiRlConfig,
    others: seq<Member>)

  /**
   * Lowers a tagged field to one canonical string, so that a plain string and an enumeration
   * member with the same value compare equal afterwards.
   */
  function ToStringOrNone(v: Option<Tagged>): (r: Option<string>)
    ensures r.None? <==> v.None?
    ensures v.Some? && v.value.Str? ==> r == Some(v.value.text)
    ensures v.Some? && (v.value.RecipeEnum? || v.value.VariantEnum?) ==> r == Some(v.value.value)
    ensures v.Some? && v.value.Other? ==> r == Some(v.value.rendered)
  {
    match v
    case None => None
    case Some(Str(s)) => Some(s)
    case Some(RecipeEnum(s)) => Some(s)
    case Some(VariantEnum(s)) => Some(s)
    case Some(Other(s)) => Some(s)
  }
}
