/**
 * The pi-rl recipe rules: a first-failure decision procedure. With no recipe nothing is checked;
 * otherwise the recipe spelling, the variant, the two shared knobs and the variant's own knobs are
 * checked in that order and the first violation is reported. The policy allow-list is not part of
 * these rules (see Preflight).
 */
module RecipeValidator {
  import opened Wrappers
  import opened Strings
  import opened PyRepr
  import opened Configs
  import opened ValidationErrors

  const RECIPE_FIELD: string := "recipe"
  const VARIANT_FIELD: string := "pirl.variant"
  const TEMPERATURE_FIELD: string := "pirl.temperature"
  const TARGET_NOISE_SCALE_FIELD: string := "pirl.target_noise_scale"
  const STD_FIELD: string := "pirl.flow_noise.std"
  const SIGMA_MIN_FIELD: string := "pirl.flow_sde.sigma_min"
  const SIGMA_MAX_FIELD: string := "pirl.flow_sde.sigma_max"

  // The hints are written as concatenations of the phrases the lemmas below look for.
  const RECIPE_HINT: string :=
    "Use " + "canonical `pi-rl`" + " (example: `--recipe=pi-rl`) or omit `recipe` for default behavior."
  const MISSING_VARIANT_HINT: string :=
    "Set `--pirl.variant=" + FLOW_NOISE + "` or `--pirl.variant=" + FLOW_SDE + "` when `recipe=pi-rl`."
  const UNKNOWN_VARIANT_HINT: string := "Expected one of ['" + FLOW_NOISE + "', '" + FLOW_SDE + "']."
  const SIGMA_ORDER_HINT: string :=
    "`pirl.flow_sde.sigma_max` must be " + "greater than" + " `pirl.flow_sde.sigma_min`."

  predicate Positive(v: Option<real>) {
    v.Some? && v.value > 0.0
  }

  /** Both noise bounds are set and positive and the upper one is strictly above the lower one. */
  predicate SigmasOrdered(sde: FlowSdeConfig) {
    Positive(sde.sigmaMin) && Positive(sde.sigmaMax) && sde.sigmaMin.value < sde.sigmaMax.value
  }

  /** Rejects a missing knob and a knob at or below zero, naming the field it was given. */
  function ValidatePositiveFloat(fieldPath: string, value: Option<real>): (r: Outcome<ValidationError>)
    ensures r.Pass? <==> Positive(value)
    ensures r.Fail? ==> r.error.fieldPath == fieldPath && r.error.badValue == NumberValue(value)
    ensures r.Fail? ==> EndsWith(r.error.hint, "Set `--" + fieldPath + "=<positive float>`.")
    ensures r.Fail? && value.Some? ==> StartsWith(r.error.hint, "Expected a positive value for `" + fieldPath + "`. ")
    ensures r.Fail? && value.Some? ==>
      |r.error.hint| == |"Expected a positive value for `" + fieldPath + "`. "| + |"Set `--" + fieldPath + "=<positive float>`."|
    ensures r.Fail? && value.None? ==> |r.error.hint| == |"Set `--" + fieldPath + "=<positive float>`."|
  {
    var setHint := "Set `--" + fieldPath + "=<positive float>`.";
    if value.None? then
      Fail(ValidationError(fieldPath, PyNone, setHint))
    else if value.value <= 0.0 then
      Fail(ValidationError(fieldPath, PyNum(value.value),
        "Expected a positive value for `" + fieldPath + "`. " + setHint))
    else
      Pass
  }

  /** The variant's own knobs; every variant other than flow-noise is checked as flow-sde. */
  function ValidatePiRlVariant(pirl: PiRlConfig, variant: string): (r: Outcome<ValidationError>)
    ensures variant == FLOW_NOISE ==> (r.Pass? <==> Positive(pirl.flowNoise.std))
    ensures variant != FLOW_NOISE ==> (r.Pass? <==> SigmasOrdered(pirl.flowSde))
    ensures r.Fail? ==>
      (r.error.fieldPath ==
        if variant == FLOW_NOISE then STD_FIELD
        else if !Positive(pirl.flowSde.sigmaMin) then SIGMA_MIN_FIELD
        else SIGMA_MAX_FIELD)
  {
    if variant == FLOW_NOISE then
      ValidatePositiveFloat(STD_FIELD, pirl.flowNoise.std)
    else
      var sde := pirl.flowSde;
      var low := ValidatePositiveFloat(SIGMA_MIN_FIELD, sde.sigmaMin);
      if low.Fail? then low
      else
        var high := ValidatePositiveFloat(SIGMA_MAX_FIELD, sde.sigmaMax);
        if high.Fail? then high
        else if sde.sigmaMax.Some? && sde.sigmaMin.Some? && sde.sigmaMax.value <= sde.sigmaMin.value then
          Fail(ValidationError(SIGMA_MAX_FIELD, PyNum(sde.sigmaMax.value), SIGMA_ORDER_HINT))
        else
          Pass
  }

  /** The configurations the recipe rules accept, stated without their order. */
  predicate Acceptable(cfg: TrainConfig) {
    var recipe := ToStringOrNone(cfg.recipe);
    var variant := ToStringOrNone(cfg.pirl.variant);
    || recipe.None?
    || (&& recipe == Some(PI_RL_RECIPE_VALUE)
        && variant.Some? && variant.value in PI_RL_RECIPE_ALLOWED_VARIANTS
        && Positive(cfg.pirl.temperature)
        && Positive(cfg.pirl.targetNoiseScale)
        && (variant.value == FLOW_NOISE ==> Positive(cfg.pirl.flowNoise.std))
        && (variant.value == FLOW_SDE ==> SigmasOrdered(cfg.pirl.flowSde)))
  }

  function ValidateRecipe(cfg: TrainConfig): (r: Outcome<ValidationError>)
    ensures r.Pass? <==> Acceptable(cfg)
  {
    var recipe := ToStringOrNone(cfg.recipe);
    if recipe.None? then
      Pass
    else if recipe.value != PI_RL_RECIPE_VALUE then
      Fail(ValidationError(RECIPE_FIELD, PyStr(recipe.value), RECIPE_HINT))
    else
      var variant := ToStringOrNone(cfg.pirl.variant);
      if variant.None? then
        Fail(ValidationError(VARIANT_FIELD, PyNone, MISSING_VARIANT_HINT))
      else if variant.value !in PI_RL_RECIPE_ALLOWED_VARIANTS then
        Fail(ValidationError(VARIANT_FIELD, PyStr(variant.value), UNKNOWN_VARIANT_HINT))
      else
        ValidateKnobs(cfg.pirl, variant.value)
  }

  /** The two shared knobs, temperature first, then the variant's own knobs. */
  function ValidateKnobs(pirl: PiRlConfig, variant: string): (r: Outcome<ValidationError>)
    ensures r.Pass? <==>
      && Positive(pirl.temperature) && Positive(pirl.targetNoiseScale)
      && (variant == FLOW_NOISE ==> Positive(pirl.flowNoise.std))
      && (variant != FLOW_NOISE ==> SigmasOrdered(pirl.flowSde))
  {
    var temperature := ValidatePositiveFloat(TEMPERATURE_FIELD, pirl.temperature);
    if temperature.Fail? then temperature
    else
      var scale := ValidatePositiveFloat(TARGET_NOISE_SCALE_FIELD, pirl.targetNoiseScale);
      if scale.Fail? then scale
      else ValidatePiRlVariant(pirl, variant)
  }

  // ---- The same rules as an ordered checklist ----

  /** One rule: the field it is about, the value reported if it fails, and whether it holds. */
  datatype Check = Check(fieldPath: string, badValue: PyValue, holds: bool)

  /** The rules in the order they are applied; empty when no recipe is set. */
  function Checklist(cfg: TrainConfig): seq<Check> {
    var recipe := ToStringOrNone(cfg.recipe);
    if recipe.None? then []
    else SelectionChecks(recipe.value, ToStringOrNone(cfg.pirl.variant)) + KnobChecks(cfg.pirl)
  }

  /** Recipe spelling, then variant presence, then variant membership. */
  function SelectionChecks(recipe: string, variant: Option<string>): seq<Check> {
    [ Check(RECIPE_FIELD, PyStr(recipe), recipe == PI_RL_RECIPE_VALUE),
      Check(VARIANT_FIELD, StringValue(variant), variant.Some?),
      Check(VARIANT_FIELD, StringValue(variant), variant.Some? && variant.value in PI_RL_RECIPE_ALLOWED_VARIANTS) ]
  }

  /** The shared knobs, then the knobs of the selected variant. */
  function KnobChecks(p: PiRlConfig): seq<Check> {
    [ Check(TEMPERATURE_FIELD, NumberValue(p.temperature), Positive(p.temperature)),
      Check(TARGET_NOISE_SCALE_FIELD, NumberValue(p.targetNoiseScale), Positive(p.targetNoiseScale)) ]
    + VariantChecks(p)
  }

  /** The knobs of the selected variant; anything but flow-noise is checked as flow-sde. */
  function VariantChecks(p: PiRlConfig): seq<Check> {
    var sde := p.flowSde;
    if ToStringOrNone(p.variant) == Some(FLOW_NOISE) then
      [ Check(STD_FIELD, NumberValue(p.flowNoise.std), Positive(p.flowNoise.std)) ]
    else
      [ Check(SIGMA_MIN_FIELD, NumberValue(sde.sigmaMin), Positive(sde.sigmaMin)),
        Check(SIGMA_MAX_FIELD, NumberValue(sde.sigmaMax), Positive(sde.sigmaMax)),
        Check(SIGMA_MAX_FIELD, NumberValue(sde.sigmaMax),
          !(sde.sigmaMin.Some? && sde.sigmaMax.Some? && sde.sigmaMax.value <= sde.sigmaMin.value)) ]
  }

  /** The first rule that does not hold. */
  function FirstFailure(checks: seq<Check>): (r: Option<Check>)
    ensures r.None? <==> forall i :: 0 <= i < |checks| ==> checks[i].holds
    ensures r.Some? ==>
      (exists i :: 0 <= i < |checks| && checks[i] == r.value && !r.value.holds
        && forall j :: 0 <= j < i ==> checks[j].holds)
  {
    if |checks| == 0 then None
    else if !checks[0].holds then Some(checks[0])
    else
      var rest := FirstFailure(checks[1..]);
      if rest.Some? then
        ghost var i :| 0 <= i < |checks[1..]| && checks[1..][i] == rest.value && !rest.value.holds
          && forall j :: 0 <= j < i ==> checks[1..][j].holds;
        assert checks[i + 1] == rest.value;
        rest
      else
        assert forall i :: 1 <= i < |checks| ==> checks[i] == checks[1..][i - 1];
        rest
  }

  /** The verdict `v` is the one the first failing rule of `checks` gives. */
  predicate Reports(v: Outcome<ValidationError>, checks: seq<Check>) {
    && (v.Pass? <==> FirstFailure(checks).None?)
    && (v.Fail? ==>
         && FirstFailure(checks).Some?
         && v.error.fieldPath == FirstFailure(checks).value.fieldPath
         && v.error.badValue == FirstFailure(checks).value.badValue)
  }

  /** The validator reports exactly the first rule of the checklist that fails, with its value. */
  lemma ValidateRecipeFollowsChecklist(cfg: TrainConfig)
    ensures ValidateRecipe(cfg).Pass? <==> FirstFailure(Checklist(cfg)).None?
    ensures ValidateRecipe(cfg).Fail? ==>
      && FirstFailure(Checklist(cfg)).Some?
      && ValidateRecipe(cfg).error.fieldPath == FirstFailure(Checklist(cfg)).value.fieldPath
      && ValidateRecipe(cfg).error.badValue == FirstFailure(Checklist(cfg)).value.badValue
  {
    var recipe := ToStringOrNone(cfg.recipe);
    if recipe.Some? {
      var variant := ToStringOrNone(cfg.pirl.variant);
      var selection := SelectionChecks(recipe.value, variant);
      FirstFailureAppend(selection, KnobChecks(cfg.pirl));
      FirstFailureCons(selection[0], selection[1..]);
      FirstFailureCons(selection[1], selection[2..]);
      FirstFailureCons(selection[2], []);
      if recipe.value == PI_RL_RECIPE_VALUE && variant.Some? && variant.value in PI_RL_RECIPE_ALLOWED_VARIANTS {
        KnobsFollowChecklist(cfg.pirl, variant.value);
      }
    }
  }

  lemma KnobsFollowChecklist(p: PiRlConfig, variant: string)
    requires ToStringOrNone(p.variant) == Some(variant)
    ensures Reports(ValidateKnobs(p, variant), KnobChecks(p))
  {
    var shared := KnobChecks(p)[..2];
    assert KnobChecks(p) == shared + VariantChecks(p);
    FirstFailureAppend(shared, VariantChecks(p));
    FirstFailureCons(shared[0], shared[1..]);
    FirstFailureCons(shared[1], []);
    VariantFollowsChecklist(p, variant);
  }

  lemma VariantFollowsChecklist(p: PiRlConfig, variant: string)
    requires ToStringOrNone(p.variant) == Some(variant)
    ensures Reports(ValidatePiRlVariant(p, variant), VariantChecks(p))
  {
    var own := VariantChecks(p);
    if variant == FLOW_NOISE {
      FirstFailureCons(own[0], []);
    } else {
      FirstFailureCons(own[0], own[1..]);
      FirstFailureCons(own[1], own[2..]);
      FirstFailureCons(own[2], []);
    }
  }

  lemma FirstFailureCons(c: Check, rest: seq<Check>)
    ensures FirstFailure([c] + rest) == if c.holds then FirstFailure(rest) else Some(c)
  {
    assert ([c] + rest)[1..] == rest;
  }

  lemma {:induction false} FirstFailureAppend(a: seq<Check>, b: seq<Check>)
    ensures FirstFailure(a + b) == if FirstFailure(a).Some? then FirstFailure(a) else FirstFailure(b)
  {
    if |a| > 0 {
      assert a + b == [a[0]] + (a[1..] + b);
      assert a == [a[0]] + a[1..];
      FirstFailureCons(a[0], a[1..] + b);
      FirstFailureCons(a[0], a[1..]);
      FirstFailureAppend(a[1..], b);
    } else {
      assert a + b == b;
    }
  }

  // ---- Consequences ----

  /** With no recipe, any `pirl` block is accepted. */
  lemma UnsetRecipeAcceptsAnyPirl(cfg: TrainConfig, pirl: PiRlConfig)
    requires ToStringOrNone(cfg.recipe).None?
    ensures ValidateRecipe(cfg.(pirl := pirl)).Pass?
  {
  }

  /** Any recipe other than exactly `pi-rl` fails on `recipe` before any `pirl` field is read. */
  lemma NonCanonicalRecipeRejected(cfg: TrainConfig, pirl: PiRlConfig)
    requires ToStringOrNone(cfg.recipe).Some? && ToStringOrNone(cfg.recipe).value != PI_RL_RECIPE_VALUE
    ensures ValidateRecipe(cfg).Fail?
    ensures ValidateRecipe(cfg).error.fieldPath == RECIPE_FIELD
    ensures ValidateRecipe(cfg).error.badValue == PyStr(ToStringOrNone(cfg.recipe).value)
    ensures Contains(ValidateRecipe(cfg).error.hint, "canonical `pi-rl`")
    ensures ValidateRecipe(cfg.(pirl := pirl)) == ValidateRecipe(cfg)
  {
    var before, after := "Use ", " (example: `--recipe=pi-rl`) or omit `recipe` for default behavior.";
    assert RECIPE_HINT == before + "canonical `pi-rl`" + after;
    ContainsInfix(before, "canonical `pi-rl`", after);
  }

  /** Under `pi-rl` a missing variant fails on `pirl.variant` with value None. */
  lemma MissingVariantRejected(cfg: TrainConfig)
    requires ToStringOrNone(cfg.recipe) == Some(PI_RL_RECIPE_VALUE)
    requires cfg.pirl.variant.None?
    ensures ValidateRecipe(cfg).Fail?
    ensures ValidateRecipe(cfg).error.fieldPath == VARIANT_FIELD
    ensures ValidateRecipe(cfg).error.badValue == PyNone
    ensures Contains(ValidateRecipe(cfg).error.hint, FLOW_NOISE) && Contains(ValidateRecipe(cfg).error.hint, FLOW_SDE)
  {
    var a, b := "Set `--pirl.variant=", "` or `--pirl.variant=";
    var c := "` when `recipe=pi-rl`.";
    assert MISSING_VARIANT_HINT == a + FLOW_NOISE + (b + FLOW_SDE + c);
    ContainsInfix(a, FLOW_NOISE, b + FLOW_SDE + c);
    assert MISSING_VARIANT_HINT == (a + FLOW_NOISE + b) + FLOW_SDE + c;
    ContainsInfix(a + FLOW_NOISE + b, FLOW_SDE, c);
  }

  /** Under `pi-rl` a variant outside the allowed pair fails on `pirl.variant` with that value. */
  lemma UnknownVariantRejected(cfg: TrainConfig)
    requires ToStringOrNone(cfg.recipe) == Some(PI_RL_RECIPE_VALUE)
    requires ToStringOrNone(cfg.pirl.variant).Some?
    requires ToStringOrNone(cfg.pirl.variant).value !in PI_RL_RECIPE_ALLOWED_VARIANTS
    ensures ValidateRecipe(cfg).Fail?
    ensures ValidateRecipe(cfg).error.fieldPath == VARIANT_FIELD
    ensures ValidateRecipe(cfg).error.badValue == PyStr(ToStringOrNone(cfg.pirl.variant).value)
    ensures Contains(ValidateRecipe(cfg).error.hint, FLOW_NOISE) && Contains(ValidateRecipe(cfg).error.hint, FLOW_SDE)
  {
    var a, b, c := "Expected one of ['", "', '", "'].";
    assert UNKNOWN_VARIANT_HINT == a + FLOW_NOISE + (b + FLOW_SDE + c);
    ContainsInfix(a, FLOW_NOISE, b + FLOW_SDE + c);
    assert UNKNOWN_VARIANT_HINT == (a + FLOW_NOISE + b) + FLOW_SDE + c;
    ContainsInfix(a + FLOW_NOISE + b, FLOW_SDE, c);
  }

  /** Shared knobs are checked before variant knobs, temperature first. */
  lemma SharedKnobsCheckedFirst(cfg: TrainConfig)
    requires ToStringOrNone(cfg.recipe) == Some(PI_RL_RECIPE_VALUE)
    requires ToStringOrNone(cfg.pirl.variant).Some?
    requires ToStringOrNone(cfg.pirl.variant).value in PI_RL_RECIPE_ALLOWED_VARIANTS
    ensures !Positive(cfg.pirl.temperature) ==>
      ValidateRecipe(cfg) == ValidatePositiveFloat(TEMPERATURE_FIELD, cfg.pirl.temperature)
    ensures Positive(cfg.pirl.temperature) && !Positive(cfg.pirl.targetNoiseScale) ==>
      ValidateRecipe(cfg) == ValidatePositiveFloat(TARGET_NOISE_SCALE_FIELD, cfg.pirl.targetNoiseScale)
    ensures Positive(cfg.pirl.temperature) && Positive(cfg.pirl.targetNoiseScale) ==>
      ValidateRecipe(cfg) == ValidatePiRlVariant(cfg.pirl, ToStringOrNone(cfg.pirl.variant).value)
  {
  }

  /** Positive flow-sde bounds with the upper one not above the lower one fail on `sigma_max`. */
  lemma SigmaOrderViolation(cfg: TrainConfig)
    requires ToStringOrNone(cfg.recipe) == Some(PI_RL_RECIPE_VALUE)
    requires ToStringOrNone(cfg.pirl.variant) == Some(FLOW_SDE)
    requires Positive(cfg.pirl.temperature) && Positive(cfg.pirl.targetNoiseScale)
    requires Positive(cfg.pirl.flowSde.sigmaMin) && Positive(cfg.pirl.flowSde.sigmaMax)
    requires cfg.pirl.flowSde.sigmaMax.value <= cfg.pirl.flowSde.sigmaMin.value
    ensures ValidateRecipe(cfg).Fail?
    ensures ValidateRecipe(cfg).error.fieldPath == SIGMA_MAX_FIELD
    ensures ValidateRecipe(cfg).error.badValue == PyNum(cfg.pirl.flowSde.sigmaMax.value)
    ensures Contains(ValidateRecipe(cfg).error.hint, "greater than")
  {
    var before, after := "`pirl.flow_sde.sigma_max` must be ", " `pirl.flow_sde.sigma_min`.";
    assert SIGMA_ORDER_HINT == before + "greater than" + after;
    ContainsInfix(before, "greater than", after);
  }

  /** A recipe or variant given as a plain string or as an enumeration member is judged alike. */
  lemma ValidatorSeesLoweredValues(c1: TrainConfig, c2: TrainConfig)
    requires ToStringOrNone(c1.recipe) == ToStringOrNone(c2.recipe)
    requires ToStringOrNone(c1.pirl.variant) == ToStringOrNone(c2.pirl.variant)
    requires c1.pirl.(variant := None) == c2.pirl.(variant := None)
    ensures ValidateRecipe(c1) == ValidateRecipe(c2)
  {
    var p1, p2 := c1.pirl, c2.pirl;
    assert p1.temperature == p2.temperature && p1.targetNoiseScale == p2.targetNoiseScale;
    assert p1.flowNoise == p2.flowNoise && p1.flowSde == p2.flowSde;
  }

  /** `recipe=pi-rl` with the `pirl` block left at its defaults fails on the missing variant. */
  lemma DefaultPirlRejected(cfg: TrainConfig)
    requires ToStringOrNone(cfg.recipe) == Some(PI_RL_RECIPE_VALUE)
    requires cfg.pirl == DEFAULT_PIRL
    ensures ValidateRecipe(cfg) == Fail(ValidationError(VARIANT_FIELD, PyNone, MISSING_VARIANT_HINT))
  {
  }

  /** The recipe rules never look at the policy. */
  lemma ValidatorIgnoresPolicy(cfg: TrainConfig, policy: Option<PolicyConfig>)
    ensures ValidateRecipe(cfg.(policy := policy)) == ValidateRecipe(cfg)
  {
  }

  /** For a misspelling of plain characters the message quotes it and points at the canonical spelling. */
  lemma MisspeltRecipeMessage(cfg: TrainConfig, numRepr: real -> string)
    requires ToStringOrNone(cfg.recipe).Some? && ToStringOrNone(cfg.recipe).value != PI_RL_RECIPE_VALUE
    requires forall i :: 0 <= i < |ToStringOrNone(cfg.recipe).value| ==> Plain(ToStringOrNone(cfg.recipe).value[i])
    ensures ValidateRecipe(cfg).Fail?
    ensures StartsWith(Message(ValidateRecipe(cfg).error, numRepr),
      MESSAGE_PREFIX + RECIPE_FIELD + "` value " + ("'" + ToStringOrNone(cfg.recipe).value + "'"))
    ensures Contains(Message(ValidateRecipe(cfg).error, numRepr), "canonical `pi-rl`")
  {
    var s := ToStringOrNone(cfg.recipe).value;
    assert ValidateRecipe(cfg) == Fail(ValidationError(RECIPE_FIELD, PyStr(s), RECIPE_HINT));
    RecipeMessageText(s, numRepr);
  }

  lemma RecipeMessageText(s: string, numRepr: real -> string)
    requires forall i :: 0 <= i < |s| ==> Plain(s[i])
    ensures StartsWith(Message(ValidationError(RECIPE_FIELD, PyStr(s), RECIPE_HINT), numRepr),
      MESSAGE_PREFIX + RECIPE_FIELD + "` value " + ("'" + s + "'"))
    ensures Contains(Message(ValidationError(RECIPE_FIELD, PyStr(s), RECIPE_HINT), numRepr), "canonical `pi-rl`")
  {
    PlainRepr(s);
    var e := ValidationError(RECIPE_FIELD, PyStr(s), RECIPE_HINT);
    var head := MESSAGE_PREFIX + RECIPE_FIELD + "` value " + Repr(e.badValue, numRepr);
    assert Message(e, numRepr) == head + (". " + RECIPE_HINT);
    ContainsInfix("Use ", "canonical `pi-rl`", " (example: `--recipe=pi-rl`) or omit `recipe` for default behavior.");
    ContainsExtend(". ", RECIPE_HINT, "canonical `pi-rl`");
    ContainsExtend(head, ". " + RECIPE_HINT, "canonical `pi-rl`");
  }
}
