/**
  The rule handler and the verification report answer different questions
  about the same `list_policies` response. The handler never looks at
  whether the opt-out policy type is enabled; the report never looks at
  where a policy is attached. These lemmas show both directions of the
  disagreement.
 */
module Divergence {
  import opened Organizations
  import ConfigRule
  import VerifyReport

  /**
    A policy attached to the root makes the rule COMPLIANT even when the
    policy type is not enabled, while the report then returns False.
   */
  lemma RuleCompliantWhileTypeDisabled(api: VerifyReport.Api, lookup: ConfigRule.TargetLookup)
    requires api.describeOrganization.Ok?
    requires !VerifyReport.OptOutTypeEnabled(api.describeOrganization.value.availablePolicyTypes)
    requires api.listPolicies.Ok? && |api.listPolicies.value| > 0
    requires lookup(api.listPolicies.value[0].id).Ok?
    requires ConfigRule.AttachedToRoot(lookup(api.listPolicies.value[0].id).value)
    ensures ConfigRule.LambdaHandler(api.listPolicies, lookup).complianceType == ConfigRule.COMPLIANT
    ensures !VerifyReport.Verify(api).passed
  {
    ConfigRule.RootBeforeAnyFailureIsCompliant(api.listPolicies.value, lookup, 0);
  }

  /**
    With the type enabled and every outer step succeeding, the report
    returns True although no policy is attached to the root (or there is no
    policy at all), which the rule reports as NON_COMPLIANT.
   */
  lemma ReportPassesWhileRuleNonCompliant(api: VerifyReport.Api, lookup: ConfigRule.TargetLookup)
    requires VerifyReport.OuterStepsSucceed(api)
    requires VerifyReport.OptOutTypeEnabled(api.describeOrganization.value.availablePolicyTypes)
    requires forall k :: 0 <= k < |api.listPolicies.value| ==>
      lookup(api.listPolicies.value[k].id).Ok? && !ConfigRule.AttachedToRoot(lookup(api.listPolicies.value[k].id).value)
    ensures VerifyReport.Verify(api).passed
    ensures ConfigRule.LambdaHandler(api.listPolicies, lookup).complianceType == ConfigRule.NON_COMPLIANT
  {
    VerifyReport.PassedIff(api);
    if |api.listPolicies.value| > 0 {
      ConfigRule.NoRootIsNotAttached(api.listPolicies.value, lookup);
    }
  }
}
