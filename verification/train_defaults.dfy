/** The late-bound default for the run's job name. */
module TrainDefaults {
  import opened Wrappers
  import opened Strings

  /** Python's `not name` for an optional string. */
  predicate Blank(name: Option<string>) {
    name.None? || name.value == ""
  }

  /** A blank job name becomes the policy type, prefixed by the environment type when there is one. */
  function DefaultJobName(jobName: Option<string>, envType: Option<string>, policyType: string): (r: string)
    ensures !Blank(jobName) ==> r == jobName.value
    ensures Blank(jobName) && envType.None? ==> r == policyType
    ensures Blank(jobName) && envType.Some? ==> StartsWith(r, envType.value + "_") && EndsWith(r, policyType)
    ensures Blank(jobName) && envType.Some? ==> |r| == |envType.value| + 1 + |policyType|
  {
    if !Blank(jobName) then jobName.value
    else if envType.None? then policyType
    else envType.value + "_" + policyType
  }

  /** Validating twice does not change the job name chosen the first time. */
  lemma DefaultJobNameIdempotent(jobName: Option<string>, envType: Option<string>, policyType: string)
    ensures DefaultJobName(Some(DefaultJobName(jobName, envType, policyType)), envType, policyType)
      == DefaultJobName(jobName, envType, policyType)
  {
  }
}
