/**
 * The per-process identity snapshot of a run and the pi-rl policy gate applied to it. Path
 * resolution, `draccus.encode`, JSON string escaping and SHA-256 are collaborators outside this
 * model and enter as functions.
 */
module Preflight {
  import opened Wrappers
  import opened Strings
  import opened PyRepr
  import opened Configs
  import opened CanonicalJson
  import RecipeValidator

  const INLINE_CONFIG_PATH: string := "<inline>"
  const UNSET_POLICY: string := "<unset>"
  const PI_RL_PHASE1_ALLOWED_POLICIES: seq<string> := ["xvla"]

  /** The collaborators the identity depends on. */
  datatype Collaborators = Collaborators(
    /** `str(Path(p).expanduser().resolve())` */
    resolvePath: string -> string,
    /** `draccus.encode(cfg)` */
    encode: TrainConfig -> Json,
    /** JSON string-literal escaping, quotes included */
    escape: string -> string,
    /** `hashlib.sha256(text.encode("utf-8")).hexdigest()` */
    sha256Hex: string -> string)

  datatype PreflightContext = PreflightContext(
    recipe: Option<string>,
    policyType: string,
    variant: Option<string>,
    configPath: string,
    configHash: string)

  /** Resolved paths on a POSIX system are absolute. */
  ghost predicate AbsolutePaths(resolve: string -> string) {
    forall p :: |resolve(p)| > 0 && resolve(p)[0] == '/'
  }

  function NormalizeConfigPath(configPath: Option<string>, resolve: string -> string): (r: string)
    ensures configPath.None? ==> r == INLINE_CONFIG_PATH
    ensures configPath.Some? ==> r == resolve(configPath.value)
  {
    match configPath
    case None => INLINE_CONFIG_PATH
    case Some(p) => resolve(p)
  }

  /** With absolute resolved paths the sentinel marks exactly the configurations without a file. */
  lemma InlineSentinelUnambiguous(configPath: Option<string>, resolve: string -> string)
    requires AbsolutePaths(resolve)
    ensures NormalizeConfigPath(configPath, resolve) == INLINE_CONFIG_PATH <==> configPath.None?
  {
    if configPath.Some? {
      assert resolve(configPath.value)[0] == '/';
      assert INLINE_CONFIG_PATH[0] == '<';
    }
  }

  /** The digest of the canonical serialisation of the encoded configuration. */
  function ComputeConfigHash(cfg: TrainConfig, env: Collaborators): string {
    env.sha256Hex(Dumps(env.encode(cfg), env.escape))
  }

  /** Two configurations whose encodings differ only in key order hash identically. */
  lemma ConfigHashKeyOrderIndependent(c1: TrainConfig, c2: TrainConfig, env: Collaborators)
    requires WellFormed(env.encode(c1)) && WellFormed(env.encode(c2))
    requires SameUpToKeyOrder(env.encode(c1), env.encode(c2))
    ensures ComputeConfigHash(c1, env) == ComputeConfigHash(c2, env)
  {
    DumpsKeyOrderIndependent(env.encode(c1), env.encode(c2), env.escape);
  }

  function PolicyTypeOf(policy: Option<PolicyConfig>): (t: string)
    ensures policy.Some? ==> t == policy.value.kind
    ensures policy.None? ==> t == UNSET_POLICY
  {
    if policy.None? then UNSET_POLICY else policy.value.kind
  }

  /**
   * The context for a configuration; `cliConfigPath` is the `--config_path` argument the command
   * line carried, if any.
   */
  function BuildContext(cfg: TrainConfig, cliConfigPath: Option<string>, env: Collaborators): (ctx: PreflightContext)
    ensures ctx.recipe == ToStringOrNone(cfg.recipe)
    ensures ctx.variant == ToStringOrNone(cfg.pirl.variant)
    ensures ctx.policyType == PolicyTypeOf(cfg.policy)
    ensures cliConfigPath.None? ==> ctx.configPath == INLINE_CONFIG_PATH
    ensures cliConfigPath.Some? ==> ctx.configPath == env.resolvePath(cliConfigPath.value)
    ensures ctx.configHash == ComputeConfigHash(cfg, env)
  {
    PreflightContext(
      ToStringOrNone(cfg.recipe),
      PolicyTypeOf(cfg.policy),
      ToStringOrNone(cfg.pirl.variant),
      NormalizeConfigPath(cliConfigPath, env.resolvePath),
      ComputeConfigHash(cfg, env))
  }

  /** Configurations that agree on the reported fields and encode alike up to key order get one context. */
  lemma ContextKeyOrderIndependent(c1: TrainConfig, c2: TrainConfig, cliConfigPath: Option<string>, env: Collaborators)
    requires ToStringOrNone(c1.recipe) == ToStringOrNone(c2.recipe)
    requires ToStringOrNone(c1.pirl.variant) == ToStringOrNone(c2.pirl.variant)
    requires PolicyTypeOf(c1.policy) == PolicyTypeOf(c2.policy)
    requires WellFormed(env.encode(c1)) && WellFormed(env.encode(c2))
    requires SameUpToKeyOrder(env.encode(c1), env.encode(c2))
    ensures BuildContext(c1, cliConfigPath, env) == BuildContext(c2, cliConfigPath, env)
  {
    ConfigHashKeyOrderIndependent(c1, c2, env);
  }

  /** The rejected policy kind, reported with the allow-list. */
  datatype PolicyError = PolicyError(policyType: string, allowed: seq<string>)

  function PolicyErrorMessage(e: PolicyError): (m: string)
    ensures StartsWith(m, POLICY_MESSAGE_HEAD + StrRepr(e.policyType) + " for `recipe=pi-rl`. ")
    ensures EndsWith(m, POLICY_MESSAGE_LIST + AllowedList(e.allowed) + ".")
    ensures |m| == |POLICY_MESSAGE_HEAD + StrRepr(e.policyType) + " for `recipe=pi-rl`. "|
      + |POLICY_MESSAGE_LIST + AllowedList(e.allowed) + "."|
  {
    var head := POLICY_MESSAGE_HEAD + StrRepr(e.policyType) + " for `recipe=pi-rl`. ";
    var tail := POLICY_MESSAGE_LIST + AllowedList(e.allowed) + ".";
    ConcatParts(head, tail);
    head + tail
  }

  const POLICY_MESSAGE_HEAD: string := "Invalid `policy.type` value "
  const POLICY_MESSAGE_LIST: string := "Allowed policy types in Phase 1: "

  /** The allow-list as the message shows it, `[a, b]`. */
  function AllowedList(allowed: seq<string>): string {
    "[" + Join(", ", allowed) + "]"
  }

  /**
   * The runtime gate: outside pi-rl the context is returned as built; under pi-rl the policy kind
   * must be on the phase-1 allow-list.
   */
  function ValidateRuntimePreflight(cfg: TrainConfig, cliConfigPath: Option<string>, env: Collaborators)
    : (r: Result<PreflightContext, PolicyError>)
    ensures r.Ok? <==>
      (ToStringOrNone(cfg.recipe) != Some(PI_RL_RECIPE_VALUE)
       || (cfg.policy.Some? && cfg.policy.value.kind in PI_RL_PHASE1_ALLOWED_POLICIES))
    ensures r.Ok? ==> r.value == BuildContext(cfg, cliConfigPath, env)
    ensures r.Err? ==> r.error == PolicyError(PolicyTypeOf(cfg.policy), PI_RL_PHASE1_ALLOWED_POLICIES)
  {
    var context := BuildContext(cfg, cliConfigPath, env);
    if context.recipe != Some(PI_RL_RECIPE_VALUE) then
      Ok(context)
    else if context.policyType !in PI_RL_PHASE1_ALLOWED_POLICIES then
      Err(PolicyError(context.policyType, PI_RL_PHASE1_ALLOWED_POLICIES))
    else
      Ok(context)
  }

  /** Under pi-rl a configuration without a policy is rejected as `'<unset>'`. */
  lemma MissingPolicyRejectedUnderPiRl(cfg: TrainConfig, cliConfigPath: Option<string>, env: Collaborators)
    requires ToStringOrNone(cfg.recipe) == Some(PI_RL_RECIPE_VALUE)
    requires cfg.policy.None?
    ensures ValidateRuntimePreflight(cfg, cliConfigPath, env).Err?
    ensures ValidateRuntimePreflight(cfg, cliConfigPath, env).error.policyType == UNSET_POLICY
  {
  }

  /** The error message names the rejected kind and lists the allowed kinds. */
  lemma PolicyErrorMessageListsAllowed(e: PolicyError)
    requires e.allowed == PI_RL_PHASE1_ALLOWED_POLICIES
    ensures Contains(PolicyErrorMessage(e), StrRepr(e.policyType))
    ensures Contains(PolicyErrorMessage(e), "[xvla]")
  {
    var head := POLICY_MESSAGE_HEAD + StrRepr(e.policyType) + " for `recipe=pi-rl`. ";
    var tail := POLICY_MESSAGE_LIST + AllowedList(e.allowed) + ".";
    assert PolicyErrorMessage(e) == head + tail;
    ContainsInfix(POLICY_MESSAGE_HEAD, StrRepr(e.policyType), " for `recipe=pi-rl`. ");
    ContainsExtend(head, tail, StrRepr(e.policyType));
    ContainsInfix(POLICY_MESSAGE_LIST, AllowedList(e.allowed), ".");
    AllowedPolicyList();
    ContainsExtend(head, tail, "[xvla]");
  }

  lemma AllowedPolicyList()
    ensures AllowedList(PI_RL_PHASE1_ALLOWED_POLICIES) == "[xvla]"
  {
    assert Join(", ", PI_RL_PHASE1_ALLOWED_POLICIES) == "xvla";
  }

  // ---- The two entry points are separate rules ----

  /** A misspelt recipe is not pi-rl to the gate, which passes it; only the recipe rules reject it. */
  lemma MisspeltRecipePassesGate(cfg: TrainConfig, cliConfigPath: Option<string>, env: Collaborators)
    requires ToStringOrNone(cfg.recipe).Some? && ToStringOrNone(cfg.recipe) != Some(PI_RL_RECIPE_VALUE)
    ensures ValidateRuntimePreflight(cfg, cliConfigPath, env) == Ok(BuildContext(cfg, cliConfigPath, env))
    ensures RecipeValidator.ValidateRecipe(cfg).Fail?
  {
  }

  /** The recipe rules accept a valid pi-rl block under any policy; only the gate checks the policy. */
  lemma PolicyCheckedOnlyByGate(cfg: TrainConfig, cliConfigPath: Option<string>, env: Collaborators)
    requires ToStringOrNone(cfg.recipe) == Some(PI_RL_RECIPE_VALUE)
    requires RecipeValidator.Acceptable(cfg)
    requires cfg.policy.None? || cfg.policy.value.kind !in PI_RL_PHASE1_ALLOWED_POLICIES
    ensures RecipeValidator.ValidateRecipe(cfg).Pass?
    ensures ValidateRuntimePreflight(cfg, cliConfigPath, env).Err?
  {
  }
}
