# AI-services opt-out compliance checks, modelled in Dafny

The repository holds two scripts that decide whether an AWS organization's AI-services opt-out policy is in place:

- a compliance-rule handler (`lambda_handler`, config/aws-config-rule.py). It returns `COMPLIANT` when the first opt-out policy found attached to the organization root is reached before any API call fails. Otherwise it returns `NON_COMPLIANT` with one of three annotations.
- a verification report (`verify_ai_opt_out`, scripts/verify_ai_opt_out.py). It prints what it finds about the organization, its policies and its ACTIVE accounts, and returns a boolean.

Every call to the organizations API is an input of the model, of type `Result`:

- a call that raises is `Err(message)`, with the exception text kept as an opaque string;
- a call made once per policy or per account is a function from the id to its `Result`.

Both entry points are then total.

- `organizations.dfy`: `Result`, `Option`, the policy summary and the policy-type name that both scripts use.
- `config_rule.dfy`: the handler, written as pure functions. The first-match loop is the recursive function `FirstRootMatch`. The lemmas characterise the handler's four outcomes. They show that the first decisive lookup fixes the verdict, that a policy's targets count only through type `ROOT`, and that the order of the policies matters only when a lookup fails.
- `verify_report.dfy`: the report. `Verify` gives the whole run as a function of the responses, in three stages: `Verify` covers the organization and the policy type, `ListAndCheck` the policies, and `CheckAccounts` the accounts. The method `VerifyAiOptOut` builds the printed lines step by step. It follows the same stages through `RunListAndCheck` and `RunAccountCheck`, and its two loops are `ReportPolicies` and `ReportAccounts`. Each method is proved equal to its specification function. The lemmas state what the lines say and when the script returns `True`.
- `divergence.dfy`: the two scripts disagree, and the lemmas there show it in both directions. The handler never checks that the policy type is enabled. The report's `True` ignores root attachment.

Three properties one might expect do not hold in the code, and the model follows the code:

- The handler never checks that the policy type is enabled, so it can say COMPLIANT while the type is disabled (`RuleCompliantWhileTypeDisabled`).
- Reordering the policies leaves the verdict unchanged only when no target lookup fails. When one fails, the order decides between the error result and COMPLIANT (`PermutationInvariant`, `PermutationMattersWithFailures`).
- In the report, a failing `describe_policy` ends the run with `False` (`ScanFailsAtFirstFailure`). Only the per-account lookups are tolerated.

## Model

| member | source | states |
|---|---|---|
| `ConfigRule.AttachedToRoot` | config/aws-config-rule.py:21 | a target list counts as attached exactly when one of its targets has type `ROOT` |
| `ConfigRule.ErrorEvaluation` | config/aws-config-rule.py:32-36 | the error result is NON_COMPLIANT, its annotation is the prefix `Error checking policy: ` followed by the exception text, and it never equals one of the three fixed annotations |
| `ConfigRule.FirstRootMatch` | config/aws-config-rule.py:19-30 | the loop yields one of the two compliance types; COMPLIANT only as "properly configured", and only if some policy's lookup succeeded with a ROOT target |
| `ConfigRule.LambdaHandler` | config/aws-config-rule.py:4-36 | the handler's compliance type is always COMPLIANT or NON_COMPLIANT; COMPLIANT exactly when the annotation is "properly configured"; COMPLIANT implies the policy list was obtained and some policy is attached to the root |
| `ConfigRule.SkipSettled` | config/aws-config-rule.py:19-25 | policies whose lookups succeed without a ROOT target are passed over: the scan continues as if they were absent |
| `ConfigRule.FirstRootMatchDecided` | config/aws-config-rule.py:19-36 | the first lookup that fails or finds the root fixes the result: the error result for a failure, COMPLIANT for a root match |
| `ConfigRule.FirstRootMatchUndecided` | config/aws-config-rule.py:19-30 | when every lookup succeeds without a ROOT target, the result is "not attached to root" |
| `ConfigRule.NoPolicyIsNonCompliant` | config/aws-config-rule.py:12-16 | an empty policy list gives NON_COMPLIANT with "No AI opt-out policy found", whatever the lookups |
| `ConfigRule.RootBeforeAnyFailureIsCompliant` | config/aws-config-rule.py:19-25 | a policy with a ROOT target, preceded only by successful root-less lookups, makes the result COMPLIANT with "AI opt-out policy properly configured" |
| `ConfigRule.NoRootIsNotAttached` | config/aws-config-rule.py:27-30 | non-empty list, every lookup succeeds, no ROOT target: NON_COMPLIANT with "AI opt-out policy not attached to root" |
| `ConfigRule.OrganizationalUnitAndAccountTargetsNeverCount` | config/aws-config-rule.py:21 | whatever lookups fail, if every successful lookup returns only ORGANIZATIONAL_UNIT or ACCOUNT targets, the rule is NON_COMPLIANT |
| `ConfigRule.FailureBeforeRootIsError` | config/aws-config-rule.py:19-36 | a failing lookup reached before any root match gives the error result carrying that lookup's message |
| `ConfigRule.ListFailureIsError` | config/aws-config-rule.py:10-36 | a failing `list_policies` gives the error result carrying its message |
| `ConfigRule.LaterLookupsCannotChangeCompliant` | config/aws-config-rule.py:19-25 | once a policy is found attached to the root, any outcome of the later policies' lookups (failures included) leaves the verdict COMPLIANT |
| `ConfigRule.EarlierFailureForcesError` | config/aws-config-rule.py:19-36 | a failing lookup scanned before any root match forces the error result, whatever the later lookups return |
| `ConfigRule.CompliantIff` | config/aws-config-rule.py:13-35 | COMPLIANT if and only if the list was obtained and the first lookup that fails or finds the root is a successful root match |
| `ConfigRule.FixedAnnotationsAreNotErrors` | config/aws-config-rule.py:13-35 | none of the three fixed annotations starts with the error prefix |
| `ConfigRule.ErrorIff` | config/aws-config-rule.py:9-36 | the annotation has the error prefix if and only if `list_policies` failed or the first decisive lookup failed; the result then carries exactly that failure's message |
| `ConfigRule.CleanScanIff` | config/aws-config-rule.py:19-25 | with no failing lookup, the loop is COMPLIANT if and only if some policy in the list has a ROOT target, else "not attached to root" |
| `ConfigRule.PermutationInvariant` | config/aws-config-rule.py:19-25 | with no failing lookup, any reordering of the policy list gives the same result |
| `ConfigRule.PermutationMattersWithFailures` | config/aws-config-rule.py:19-36 | with a failing lookup, two orders of the same two policies give the error result and COMPLIANT respectively |
| `VerifyReport.OptOutTypeEnabled` | scripts/verify_ai_opt_out.py:17-20 | the policy type counts as enabled exactly when the organization's list holds the opt-out type with status ENABLED |
| `VerifyReport.ServicesOrEmpty` | scripts/verify_ai_opt_out.py:39 | a present `services` mapping is used as it is; a missing one behaves as the empty mapping |
| `VerifyReport.CoverageLine` | scripts/verify_ai_opt_out.py:39-42 | the coverage line is one of the two coverage outcomes, and it is "covers all services" exactly when `services` is present and has the key `default` |
| `VerifyReport.PolicyEntry` | scripts/verify_ai_opt_out.py:33-42 | each policy prints its name line and then one more line: the error line with the lookup's message exactly when `describe_policy` fails, a coverage line otherwise |
| `VerifyReport.AccountLine` | scripts/verify_ai_opt_out.py:50-61 | the line names the account and is one of three outcomes: opted out exactly when the effective policy is non-empty, no policy exactly when it is empty, a check failure carrying the lookup's message exactly when the lookup fails |
| `VerifyReport.AccountEntry` | scripts/verify_ai_opt_out.py:49-61 | an ACTIVE account gets exactly one account line naming it; any other account gets none |
| `VerifyReport.ScanPolicies` | scripts/verify_ai_opt_out.py:32-42 | the policy loop fails only if some `describe_policy` fails; without failure it prints two lines per policy; an error line appears only as its last line, and is there whenever it failed |
| `VerifyReport.AccountLines` | scripts/verify_ai_opt_out.py:48-61 | the account loop prints at most one line per account, each one of the three account outcomes, never an error that ends the run |
| `VerifyReport.ActiveAccounts` | scripts/verify_ai_opt_out.py:48-49 | holds exactly the accounts whose status is ACTIVE, taken from the account list: no more of them than the list has, and no account more often than the list holds it |
| `VerifyReport.CheckAccounts` | scripts/verify_ai_opt_out.py:46-63 | the account stage passes exactly when `list_accounts` succeeds; it then prints one line per ACTIVE account, and otherwise only the error line |
| `VerifyReport.ListAndCheck` | scripts/verify_ai_opt_out.py:28-63 | the policy and account stages print at least one line, and pass only if both `list_policies` and `list_accounts` succeed |
| `VerifyReport.Verify` | scripts/verify_ai_opt_out.py:6-67 | the run prints at least one line, the first being the organization's id whenever `describe_organization` succeeds; it passes only if the organization was obtained with the policy type enabled and both lists were obtained |
| `VerifyReport.ReportPolicies` | scripts/verify_ai_opt_out.py:32-42 | the loop over the policies prints exactly the lines of `ScanPolicies` and reports whether a `describe_policy` failed |
| `VerifyReport.ReportAccounts` | scripts/verify_ai_opt_out.py:48-61 | the loop over the accounts prints exactly the lines of `AccountLines` |
| `VerifyReport.RunAccountCheck` | scripts/verify_ai_opt_out.py:46-63 | the account stage, run step by step, prints exactly the lines of `CheckAccounts` and returns its boolean |
| `VerifyReport.RunListAndCheck` | scripts/verify_ai_opt_out.py:28-63 | the policy and account stages, run step by step, print exactly the lines of `ListAndCheck` and return its boolean |
| `VerifyReport.VerifyAiOptOut` | scripts/verify_ai_opt_out.py:6-67 | the step-by-step run prints exactly the lines of `Verify` and returns its boolean |
| `VerifyReport.ScanStopsAtFailure` | scripts/verify_ai_opt_out.py:32-42 | after a failing `describe_policy` no further policy adds a line |
| `VerifyReport.PolicyLinesFollowPolicies` | scripts/verify_ai_opt_out.py:32-42 | with no failure, line 2k names policy k, and line 2k+1 is "covers all services" when that policy's `services` (or `{}` when absent) has the key `default`, and the missing-default warning otherwise |
| `VerifyReport.ScanFailsAtFirstFailure` | scripts/verify_ai_opt_out.py:32-42 | the first failing `describe_policy` ends the loop: its name line and its error line are the last two lines |
| `VerifyReport.AccountLinesFollowActive` | scripts/verify_ai_opt_out.py:48-61 | one line per ACTIVE account, in order: opted out if and only if the effective policy is non-empty, no policy if and only if it is empty, a check failure with the lookup's message if and only if the lookup fails |
| `VerifyReport.InactiveAccountsIgnored` | scripts/verify_ai_opt_out.py:48-54 | the effective-policy lookups of accounts that are not ACTIVE have no effect |
| `VerifyReport.PassedIff` | scripts/verify_ai_opt_out.py:11-67 | returns True if and only if the organization, policy list, every policy description and the account list were obtained and the policy type is enabled |
| `VerifyReport.FailedLineIsLastAndOnlyOnFailure` | scripts/verify_ai_opt_out.py:11-67 | returns False if and only if the last line is an error line or "type not enabled"; no error line appears before the last |
| `VerifyReport.DisabledTypeStopsEarly` | scripts/verify_ai_opt_out.py:22-26 | with the type not enabled, the run prints only the organization and "not enabled" lines and returns False, without listing policies or accounts |
| `VerifyReport.AccountFailuresTolerated` | scripts/verify_ai_opt_out.py:50-63 | any other outcome of the effective-policy lookups leaves the returned value and the number of lines unchanged |
| `VerifyReport.CoverageExamples` | scripts/verify_ai_opt_out.py:39-42 | the template's `{services: {default: ...}}` content covers all services; a missing `services`, or one without `default`, is a warning |
| `VerifyReport.EnabledNeedsTypeAndStatus` | scripts/verify_ai_opt_out.py:17-20 | on two example lists: an opt-out entry with another status, or another enabled type, does not count as enabled; an opt-out entry with ENABLED does |
| `Divergence.RuleCompliantWhileTypeDisabled` | scripts/verify_ai_opt_out.py:22-26 | with the type disabled and a root-attached first policy, the rule says COMPLIANT while the report returns False |
| `Divergence.ReportPassesWhileRuleNonCompliant` | scripts/verify_ai_opt_out.py:28-63 | with the type enabled and the outer steps succeeding, the report returns True while the rule says NON_COMPLIANT whenever no policy is attached to the root |

## Left out

- API clients and calls: the boto3 clients and every API call are replaced by their responses as inputs. The unused `config` client is left out, and so are the handler's unused `event` and `context` arguments.
- Exception text: `str(e)` is an opaque string in `Err`.
- Malformed responses: responses are typed records. A response missing a key the scripts index (`Policies`, `Targets`, `Type`, `Id`, `Name`, `Status`, `Organization`, `AvailablePolicyTypes`) is modelled as the failure of the call that produced it. A missing `Name` inside the report's per-account `except` branch would escape to the outer handler; the model does not capture this. This folding changes the result in these cases:
  - In the handler, a policy without `Id` listed after a root-attached policy gives COMPLIANT in the source, because the loop has already returned. The model gives the error result. The same holds for a missing `Type` in a target listed after a ROOT target, since `any` stops at the first ROOT.
  - In the report, a missing `Status` or `Name` in the k-th account, or a missing `Name` or `Id` in the k-th policy, makes the script print the earlier entries' lines before its error line. The model prints none of them.
  - A missing `AvailablePolicyTypes` makes the script print the organization line before its error line. The model prints only the error line.
- JSON parsing: `describePolicy` stands for `describe_policy` followed by `json.loads`. A parse failure is its `Err`. A content whose `services` is not a mapping is not modelled.
- Output: emoji and text layout of the printed lines, and the `__main__` banner with its clock reading. Only the kind of each line and the data it shows are kept.
- Pagination: `NextToken` is ignored, as in the scripts. A list response is the single page the scripts read.
- Infrastructure template: templates/cdk/ai_opt_out_stack.py is not part of this model. Its policy content shape is reused only as `TemplatePolicyContent`.
