# pi-rl recipe rules and run identity — a Dafny model

This project models two parts of the LeRobot training configuration (`src/lerobot/configs/train.py`):

1. **The pi-rl recipe rules** (`TrainPipelineConfig._validate_recipe` and its helpers). If no
   recipe is set, nothing is checked. Otherwise the checks run in a fixed order, and the first
   one that fails raises a `ValueError` naming the field, its value and a fix hint. The order is:
   - the recipe must be spelt exactly `pi-rl`;
   - a variant must be given, and it must be `flow-noise` or `flow-sde`;
   - `temperature`, then `target_noise_scale`, must be positive;
   - the variant's own knobs are checked. For flow-noise, `std` must be positive. For any other
     variant, both sigmas must be positive and `sigma_max` must be above `sigma_min`.

   Tagged values (`str | Enum | None`) are first turned into strings by `_to_string_or_none`.
   Python's `repr` of the offending string is modelled, and the raised message is shown to name
   its field.
2. **The recipe preflight** (`build_recipe_preflight_context`,
   `validate_recipe_runtime_preflight`). It builds the run's identity snapshot:
   - the recipe, the variant and the policy type;
   - the config path, normalised, with the `<inline>` sentinel when no path is given;
   - a hash of the canonical JSON of the encoded configuration (sorted keys, no whitespace).

   Under `pi-rl` it then applies the phase-1 policy allow-list (`("xvla",)`). Of the canonical
   JSON rendering, the sorted-key, compact-separator structure is modelled; string escaping and
   number literals are parameters. Keys are sorted by Python's code-point order, and the model
   proves the rendering does not depend on dictionary insertion order. So two configurations
   whose encodings are equal up to key order get the same hash. The hash input is the encoding
   of the whole configuration, including the fields the recipe rules do not read.

The late default for `job_name` in `validate()` is modelled as well.

Modules, one per file:
- `Wrappers`: `Option`, `Result`, and `Outcome` (pass, or fail with an error).
- `Strings`: prefix, infix, join, split.
- `StringOrder`: Python's `str` ordering.
- `PyRepr`: `repr` of `str`, `None` and numbers.
- `Configs`: the configuration records and `_to_string_or_none`.
- `ValidationErrors`: the raised error and its message.
- `RecipeValidator`: the recipe rules, and the same rules as an ordered checklist.
- `CanonicalJson`: `json.dumps(..., sort_keys=True, separators=(",", ":"))`.
- `Preflight`: the identity snapshot and the policy gate.
- `TrainDefaults`: the job-name default.

Some parts enter only as parameters. These four are fields of the `Collaborators` datatype:
- filesystem path resolution;
- `draccus.encode`;
- JSON string escaping;
- SHA-256 and UTF-8 encoding.

Two more are separate parameters:
- `numRepr`, the rendering of floats by `repr` (`ValidationErrors.Message`, `PyRepr.Repr`);
- `cliConfigPath`, the `--config_path` command-line argument (`Preflight.BuildContext`).

## Model

| member | source | states |
|---|---|---|
| Configs.ToStringOrNone | src/lerobot/configs/train.py:187-194 | None stays None; a plain string is kept; an enum member becomes its `.value`; any other object becomes its `str()` rendering |
| RecipeValidator.ValidatorSeesLoweredValues | src/lerobot/configs/train.py:187-194 | the recipe rules give the same verdict whether the recipe or variant is a plain string or an enum member with that value |
| ValidationErrors.Message | src/lerobot/configs/train.py:184-185 | the message is exactly "Invalid \`field\` value " followed by the repr of the bad value, then ". " and the hint: it starts with the first part, ends with the second, and is as long as both together |
| ValidationErrors.MessageNamesField | src/lerobot/configs/train.py:184-185 | the field path, when it has no backtick, can be read back from the message |
| PyRepr.StrReprRoundTrip | src/lerobot/configs/train.py:185 | the `!r` rendering of a string reads back to the same string: quote choice and escapes are undone exactly |
| PyRepr.StrRepr | src/lerobot/configs/train.py:185 | the `!r` rendering of a string is wrapped in one kind of quote, and it is the double quote exactly when the string has a single quote and no double quote; StrReprRoundTrip shows it reads back |
| PyRepr.Repr | src/lerobot/configs/train.py:185 | `repr` of the reported value: None prints as `None`, a string as a literal that reads back to it, a number through the float rendering |
| PyRepr.PlainRepr | src/lerobot/configs/train.py:185 | a string without quotes, backslashes or control characters is rendered as itself between single quotes |
| RecipeValidator.ValidatePositiveFloat | src/lerobot/configs/train.py:196-204 | passes exactly on a set value above zero; otherwise it fails on the given field with the value (None or the number) and a hint ending "Set \`--field=<positive float>\`."; for a set value the hint starts with "Expected a positive value for \`field\`. "; the hint's length leaves nothing else, so it is exactly the source's text in both cases |
| RecipeValidator.ValidatePiRlVariant | src/lerobot/configs/train.py:206-219 | flow-noise passes iff `std` is positive; any other variant passes iff both sigmas are positive and max is above min; a failure names `std`, else `sigma_min` if that is not positive, else `sigma_max` |
| RecipeValidator.ValidateKnobs | src/lerobot/configs/train.py:247-249 | passes iff temperature and target noise scale are positive and the variant's own knobs pass |
| RecipeValidator.ValidateRecipe | src/lerobot/configs/train.py:221-249 | passes iff the recipe is unset, or it is `pi-rl` with an allowed variant and all of that variant's knobs valid |
| RecipeValidator.FirstFailure | src/lerobot/configs/train.py:221-249 | the reported rule is the earliest one that does not hold; None iff all rules hold |
| RecipeValidator.ValidateRecipeFollowsChecklist | src/lerobot/configs/train.py:221-249 | the validator reports exactly the first failing rule of the ordered checklist (recipe, variant given, variant allowed, temperature, noise scale, variant knobs), with that rule's field and value |
| RecipeValidator.KnobsFollowChecklist | src/lerobot/configs/train.py:247-249 | the knob checks report the first failing knob rule, shared knobs before the variant's own |
| RecipeValidator.VariantFollowsChecklist | src/lerobot/configs/train.py:206-219 | the variant checks report the first failing rule among `std`, or `sigma_min`, `sigma_max` and their order |
| RecipeValidator.UnsetRecipeAcceptsAnyPirl | src/lerobot/configs/train.py:222-224 | with no recipe any `pirl` block is accepted |
| RecipeValidator.NonCanonicalRecipeRejected | src/lerobot/configs/train.py:226-231 | any recipe other than exactly `pi-rl` fails on `recipe` with that string, points at "canonical \`pi-rl\`", and the verdict does not depend on the `pirl` block |
| RecipeValidator.MisspeltRecipeMessage | src/lerobot/configs/train.py:226-231 | for a misspelling made of plain characters, the message starts with "Invalid \`recipe\` value 'spelling'" and contains "canonical \`pi-rl\`" |
| RecipeValidator.MissingVariantRejected | src/lerobot/configs/train.py:233-239 | under `pi-rl` a missing variant fails on `pirl.variant` with value None and a hint naming both variants |
| RecipeValidator.UnknownVariantRejected | src/lerobot/configs/train.py:240-245 | under `pi-rl` a variant outside the pair fails on `pirl.variant` with that string and a hint naming both variants |
| RecipeValidator.SharedKnobsCheckedFirst | src/lerobot/configs/train.py:247-249 | temperature is checked first, then the target noise scale, and only then the variant's knobs |
| RecipeValidator.SigmaOrderViolation | src/lerobot/configs/train.py:213-219 | positive sigmas with max not above min fail on `pirl.flow_sde.sigma_max`, report sigma_max's value, and the hint says "greater than" |
| RecipeValidator.DefaultPirlRejected | src/lerobot/configs/train.py:233-239 | `recipe=pi-rl` with the `pirl` block left at its defaults fails on `pirl.variant` with value None and the missing-variant hint |
| RecipeValidator.ValidatorIgnoresPolicy | src/lerobot/configs/train.py:221-249 | the recipe rules never depend on the policy |
| StringOrder.Less | src/lerobot/configs/train.py:71 | Python's `str` comparison used by `sort_keys`: lexicographic by code point, and a proper prefix sorts first; the lemmas below show it is a strict total order |
| StringOrder.LessIrreflexive | src/lerobot/configs/train.py:71 | no key sorts before itself |
| StringOrder.LessTransitive | src/lerobot/configs/train.py:71 | the key order is transitive |
| StringOrder.LessConnected | src/lerobot/configs/train.py:71 | any two distinct keys are ordered one way or the other |
| StringOrder.LessAsymmetric | src/lerobot/configs/train.py:71 | two keys are never ordered both ways |
| CanonicalJson.Insert | src/lerobot/configs/train.py:71 | inserting a member keeps every member and adds exactly the new one |
| CanonicalJson.SortByKey | src/lerobot/configs/train.py:71 | sorting the members is a permutation of them |
| CanonicalJson.InsertSorted | src/lerobot/configs/train.py:71 | inserting a member with a new key into a key-sorted sequence keeps it sorted |
| CanonicalJson.SortByKeySorted | src/lerobot/configs/train.py:71 | members with distinct keys come out in strictly ascending key order |
| CanonicalJson.SortedKeysUnique | src/lerobot/configs/train.py:71 | two key-sorted member lists with the same key set have the same key sequence |
| CanonicalJson.Dumps | src/lerobot/configs/train.py:71 | `json.dumps` with sorted keys and compact separators: `null`, `true`/`false`, arrays in brackets and objects in braces; DumpsKeyOrderIndependent and DumpsAddsNoWhitespace state its properties |
| CanonicalJson.DumpsKeyOrderIndependent | src/lerobot/configs/train.py:71 | two values that differ only in the insertion order of object keys serialise to the same text |
| CanonicalJson.DumpsAddsNoWhitespace | src/lerobot/configs/train.py:71 | the compact separators add no whitespace beyond what string and number leaves carry |
| Preflight.NormalizeConfigPath | src/lerobot/configs/train.py:59-62 | no path gives `<inline>`; a path gives its resolved form |
| Preflight.InlineSentinelUnambiguous | src/lerobot/configs/train.py:59-62 | when resolved paths are absolute, the path is `<inline>` iff no config path was given |
| Preflight.ComputeConfigHash | src/lerobot/configs/train.py:69-72 | the SHA-256 of the canonical text of the encoded configuration; ConfigHashKeyOrderIndependent states that key order does not matter |
| Preflight.ConfigHashKeyOrderIndependent | src/lerobot/configs/train.py:69-72 | configurations whose encodings differ only in key order get the same hash |
| Preflight.PolicyTypeOf | src/lerobot/configs/train.py:78 | a missing policy is reported as `<unset>`, otherwise as its type |
| Preflight.BuildContext | src/lerobot/configs/train.py:75-85 | the context carries the lowered recipe and variant, the policy type, `<inline>` when no path was given or else the resolved path, and the configuration's hash |
| Preflight.ContextKeyOrderIndependent | src/lerobot/configs/train.py:75-85 | configurations with the same reported fields and encodings equal up to key order get one context |
| Preflight.ValidateRuntimePreflight | src/lerobot/configs/train.py:88-100 | succeeds iff the recipe is not `pi-rl` or the policy type is on the phase-1 allow-list; on success it returns the built context; on failure it reports the policy type and the allow-list |
| Preflight.MissingPolicyRejectedUnderPiRl | src/lerobot/configs/train.py:78-98 | under `pi-rl` a missing policy is rejected as `<unset>` |
| Preflight.PolicyErrorMessage | src/lerobot/configs/train.py:95-98 | the gate's message is exactly "Invalid \`policy.type\` value ", the repr of the type and " for \`recipe=pi-rl\`. ", then "Allowed policy types in Phase 1: ", the bracketed list and ".": it starts with the first part, ends with the second, and is as long as both together |
| Preflight.PolicyErrorMessageListsAllowed | src/lerobot/configs/train.py:93-98 | the gate's message contains the repr of the rejected type and the list `[xvla]` |
| Preflight.MisspeltRecipePassesGate | src/lerobot/configs/train.py:88-91 | a misspelt recipe passes the gate unchanged, while the recipe rules reject it |
| Preflight.PolicyCheckedOnlyByGate | src/lerobot/configs/train.py:88-100 | a valid pi-rl block with a policy off the allow-list passes the recipe rules but fails the gate |
| TrainDefaults.DefaultJobName | src/lerobot/configs/train.py:286-290 | a set job name is kept; a blank one becomes the policy type, or `<env.type>_<policy.type>` (exactly: that prefix, that suffix, and their combined length) when an environment is configured |
| TrainDefaults.DefaultJobNameIdempotent | src/lerobot/configs/train.py:286-290 | applying the default a second time changes nothing |

## Left out

- The rest of `validate()` (lines 253-284 and 292-322) is left out because it lies outside the recipe rules. It covers:
  - loading a pretrained policy and handling resume paths (command line and filesystem, lines 253-278);
  - requiring a policy to be set (lines 280-283);
  - rejecting an existing output directory and choosing a dated default one (filesystem and clock, lines 292-300);
  - rejecting a list `repo_id`, meaning several datasets (lines 302-303);
  - requiring an optimizer and scheduler when the policy presets are off, or taking the presets (lines 305-309);
  - requiring `policy.repo_id` for a hub push (lines 311-314);
  - defaulting the RA-BC progress path (lines 316-322).
- `resolve_runtime_config_path` (lines 65-66) becomes the `cliConfigPath` parameter, because `parser.parse_arg` reads the process's command line.
- `Path.expanduser().resolve()` is an uninterpreted function. Nothing is claimed about its idempotence, because the code does not promise it (symbolic links can change between calls).
- `draccus.encode`, the `default=str` fallback of `json.dumps`, JSON string escaping, UTF-8 encoding and SHA-256 are parameters. Only the sorted-key, compact-separator structure of the canonical JSON is modelled.
- The fields of the configuration that the recipe rules do not read (dataset, steps, seed, output directory, job name, optimizer, the policy's own settings) are kept as already-encoded JSON members (`TrainConfig.others`, `PolicyConfig.settings`). `draccus.encode` sees them, so the hash does too, but their Python types are not modelled.
- Dictionaries with non-string keys are not modelled, since draccus encodes dataclasses to string-keyed objects.
- `log_recipe_preflight_summary` is left out; it only writes a log line.
- `to_dict`, `_save_pretrained` and `from_pretrained` are left out; they are file and hub I/O.
- The config-path and config-hash metadata keys (lines 45-46) and their actor/learner transport are left out. `lerobot/rl/learner.py` and `lerobot/rl/actor.py` are not part of this model.
- `validate_recipe_cli_args` and the train-script routing are left out. `lerobot/configs/parser.py` and `lerobot/scripts/lerobot_train.py` are not part of this model.
- `lerobot/configs/types.py` is not part of this model. The recipe and variant values (`pi-rl`, `flow-noise`, `flow-sde`) are taken from the hints in `train.py`.
- Configs.ToStringOrNone: an enum member is taken to be lowered to its `.value`. The code tests `isinstance(value, str)` first (line 190). If `RecipeType` or `PIRLVariantType` mix in `str`, the member itself comes back, with the same value in comparisons but the enum's own `repr` in error messages. The enum definitions in `lerobot/configs/types.py` are not part of this model.
- Knob values are reals, so an `int` knob and the equal float are one value. `std=0` and `std=0.0` reach `numRepr` as the same number, although Python prints them as `0` and `0.0`.
- Floats are modelled as reals. IEEE NaN and infinity are not modelled (Python lets NaN through `value <= 0`), and the float `repr` is a parameter.
- PyRepr.StrRepr: every non-ASCII character is treated as printable. Python also escapes non-printable non-ASCII characters, such as `\x85` or `\u2028`.
- TrainDefaults.DefaultJobName: the environment and policy types are plain strings. The f-string rendering of a non-string `type` is not modelled.

The policy allow-list appears only in the runtime gate (`validate_recipe_runtime_preflight`), not among the recipe rules in `_validate_recipe`. The model follows the code: `PolicyCheckedOnlyByGate` shows that the recipe rules accept a valid pi-rl block under any policy.
