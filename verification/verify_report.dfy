/**
  The verification report (`verify_ai_opt_out` in scripts/verify_ai_opt_out.py).

  The script describes the organization, stops unless the AI-services
  opt-out policy type is enabled, lists the opt-out policies and says of
  each whether it covers every service, then classifies every ACTIVE
  account by its effective opt-out policy. It prints as it goes and returns
  a boolean. Each printed line is a `ReportLine`; each API call is an input
  of type `Result`, and the calls made once per policy or per account are
  functions of the id they are made for.
 */
module VerifyReport {
  import opened Organizations

  const ENABLED: string := "ENABLED"
  const ACTIVE: string := "ACTIVE"
  /** The service key that makes a policy apply to all services. */
  const DEFAULT_SERVICE: string := "default"

  /** One entry of `AvailablePolicyTypes`. */
  datatype PolicyTypeSummary = PolicyTypeSummary(policyType: string, status: string)

  /** The `Organization` part of `describe_organization`. */
  datatype Organization = Organization(id: string, availablePolicyTypes: seq<PolicyTypeSummary>)

  /** A per-service entry of an opt-out policy: `{"opt_out_policy": {"@@assign": setting}}`. */
  datatype Directive = Directive(optOutPolicy: string)

  /** A parsed policy document; `services` is `None` when the key is absent. */
  datatype PolicyContent = PolicyContent(services: Option<map<string, Directive>>)

  /** One entry of `list_accounts(...)['Accounts']`. */
  datatype Account = Account(id: string, name: string, status: string)

  /** The `EffectivePolicy` object of `describe_effective_policy`, as its key/value pairs. */
  datatype EffectivePolicy = EffectivePolicy(fields: map<string, string>)

  /**
    The responses the script's API calls would give. `describePolicy` covers
    both `describe_policy` and parsing the policy's JSON content.
   */
  datatype Api = Api(
    describeOrganization: Result<Organization>,
    listPolicies: Result<seq<PolicySummary>>,
    describePolicy: string -> Result<PolicyContent>,
    listAccounts: Result<seq<Account>>,
    describeEffectivePolicy: string -> Result<EffectivePolicy>)

  /** The kinds of line the script prints, without decoration. */
  datatype ReportLine =
    | OrganizationFound(organizationId: string)
    | PolicyTypeEnabled
    | PolicyTypeNotEnabled
    | PoliciesFound(count: nat)
    | PolicyListed(policyName: string, policyId: string)
    | CoversAllServices
    | MissingDefaultService
    | CheckingAccounts
    | AccountOptedOut(accountName: string)
    | AccountWithoutPolicy(accountName: string)
    | AccountCheckFailed(accountName: string, message: string)
    | Failed(message: string)

  /** What the script prints and returns. */
  datatype Verification = Verification(passed: bool, report: seq<ReportLine>)

  /** The `any(...)` over the available policy types. */
  predicate OptOutTypeEnabled(types: seq<PolicyTypeSummary>): (enabled: bool)
    ensures enabled <==> PolicyTypeSummary(AI_OPT_OUT_POLICY_TYPE, ENABLED) in types
  {
    exists i :: 0 <= i < |types| && types[i].policyType == AI_OPT_OUT_POLICY_TYPE && types[i].status == ENABLED
  }

  /** `content.get('services', {})`. */
  function ServicesOrEmpty(content: PolicyContent): (services: map<string, Directive>)
    ensures content.services.Some? ==> services == content.services.value
    ensures content.services.None? ==> services.Keys == {}
  {
    match content.services
    case None => map[]
    case Some(services) => services
  }

  /** The coverage line printed for a policy whose content is `content`. */
  function CoverageLine(content: PolicyContent): (line: ReportLine)
    ensures line == CoversAllServices || line == MissingDefaultService
    ensures line == CoversAllServices <==> content.services.Some? && DEFAULT_SERVICE in content.services.value
  {
    if DEFAULT_SERVICE in ServicesOrEmpty(content) then CoversAllServices else MissingDefaultService
  }

  /** The lines one iteration of the policy loop prints. */
  function PolicyEntry(policy: PolicySummary, detail: Result<PolicyContent>): (lines: seq<ReportLine>)
    ensures |lines| == 2 && lines[0] == PolicyListed(policy.name, policy.id)
    ensures lines[1].Failed? <==> detail.Err?
    ensures detail.Err? ==> lines[1].message == detail.message
    ensures detail.Ok? ==> (lines[1] == CoversAllServices || lines[1] == MissingDefaultService)
  {
    [PolicyListed(policy.name, policy.id),
     match detail
     case Err(e) => Failed(e)
     case Ok(content) => CoverageLine(content)]
  }

  /** The lines of the policy loop so far, and whether a `describe_policy` raised. */
  datatype PolicyScan = PolicyScan(lines: seq<ReportLine>, failed: bool)

  /**
    The policy loop over `policies`: two lines per policy; a failing
    `describe_policy` prints the error and leaves the loop.
   */
  function ScanPolicies(policies: seq<PolicySummary>, describe: string -> Result<PolicyContent>): (s: PolicyScan)
    ensures s.failed ==> exists k :: 0 <= k < |policies| && describe(policies[k].id).Err?
    ensures !s.failed ==> |s.lines| == 2 * |policies|
    ensures forall i :: 0 <= i < |s.lines| && s.lines[i].Failed? ==> s.failed && i == |s.lines| - 1
    ensures s.failed ==> |s.lines| > 0 && s.lines[|s.lines| - 1].Failed?
  {
    if |policies| == 0 then PolicyScan([], false)
    else
      var before := ScanPolicies(policies[..|policies| - 1], describe);
      if before.failed then before
      else
        var last := policies[|policies| - 1];
        PolicyScan(before.lines + PolicyEntry(last, describe(last.id)), describe(last.id).Err?)
  }

  /** The line printed for an ACTIVE account, from its `describe_effective_policy` outcome. */
  function AccountLine(account: Account, effective: Result<EffectivePolicy>): (line: ReportLine)
    ensures line.AccountOptedOut? || line.AccountWithoutPolicy? || line.AccountCheckFailed?
    ensures line.accountName == account.name
    ensures line.AccountOptedOut? <==> effective.Ok? && |effective.value.fields| > 0
    ensures line.AccountWithoutPolicy? <==> effective.Ok? && |effective.value.fields| == 0
    ensures line.AccountCheckFailed? ==> line.message == effective.message
  {
    match effective
    case Err(e) => AccountCheckFailed(account.name, e)
    case Ok(policy) =>
      if |policy.fields| > 0 then AccountOptedOut(account.name) else AccountWithoutPolicy(account.name)
  }

  /** The lines one iteration of the account loop prints. */
  function AccountEntry(account: Account, lookup: string -> Result<EffectivePolicy>): (lines: seq<ReportLine>)
    ensures |lines| == if account.status == ACTIVE then 1 else 0
    ensures forall i :: 0 <= i < |lines| ==>
      (lines[i].AccountOptedOut? || lines[i].AccountWithoutPolicy? || lines[i].AccountCheckFailed?) &&
      lines[i].accountName == account.name
  {
    if account.status == ACTIVE then [AccountLine(account, lookup(account.id))] else []
  }

  /** The account loop over `accounts`. */
  function AccountLines(accounts: seq<Account>, lookup: string -> Result<EffectivePolicy>): (lines: seq<ReportLine>)
    ensures |lines| <= |accounts|
    ensures forall i :: 0 <= i < |lines| ==>
      lines[i].AccountOptedOut? || lines[i].AccountWithoutPolicy? || lines[i].AccountCheckFailed?
  {
    if |accounts| == 0 then []
    else
      AccountLines(accounts[..|accounts| - 1], lookup) + AccountEntry(accounts[|accounts| - 1], lookup)
  }

  /** The accounts whose status is ACTIVE, in list order. */
  function ActiveAccounts(accounts: seq<Account>): (active: seq<Account>)
    ensures forall a :: a in active <==> a in accounts && a.status == ACTIVE
    ensures |active| <= |accounts| && multiset(active) <= multiset(accounts)
  {
    if |accounts| == 0 then []
    else
      var last := accounts[|accounts| - 1];
      assert accounts == accounts[..|accounts| - 1] + [last];
      ActiveAccounts(accounts[..|accounts| - 1]) + (if last.status == ACTIVE then [last] else [])
  }

  /** `lines` printed before everything `v` prints. */
  function Prefixed(lines: seq<ReportLine>, v: Verification): Verification {
    Verification(v.passed, lines + v.report)
  }

  /** The account part of the script: list the accounts and classify the ACTIVE ones. */
  function CheckAccounts(api: Api): (v: Verification)
    ensures v.passed <==> api.listAccounts.Ok?
    ensures api.listAccounts.Ok? ==> |v.report| == |ActiveAccounts(api.listAccounts.value)|
    ensures api.listAccounts.Err? ==> v.report == [Failed(api.listAccounts.message)]
  {
    match api.listAccounts
    case Err(e) => Verification(false, [Failed(e)])
    case Ok(accounts) =>
      AccountLinesFollowActive(accounts, api.describeEffectivePolicy);
      Verification(true, AccountLines(accounts, api.describeEffectivePolicy))
  }

  /** The script after the policy-type check: the policy loop, then the accounts. */
  function ListAndCheck(api: Api): (v: Verification)
    ensures v.passed ==> api.listPolicies.Ok? && api.listAccounts.Ok?
    ensures |v.report| > 0
  {
    match api.listPolicies
    case Err(e) => Verification(false, [Failed(e)])
    case Ok(policies) =>
      var scan := ScanPolicies(policies, api.describePolicy);
      var listing := [PoliciesFound(|policies|)] + scan.lines;
      if scan.failed then Verification(false, listing)
      else Prefixed(listing + [CheckingAccounts], CheckAccounts(api))
  }

  /** The whole script, as a function of the API responses. */
  function Verify(api: Api): (v: Verification)
    ensures |v.report| > 0
    ensures api.describeOrganization.Ok? ==> v.report[0] == OrganizationFound(api.describeOrganization.value.id)
    ensures v.passed ==> api.describeOrganization.Ok? && OptOutTypeEnabled(api.describeOrganization.value.availablePolicyTypes)
    ensures v.passed ==> api.listPolicies.Ok? && api.listAccounts.Ok?
  {
    match api.describeOrganization
    case Err(e) => Verification(false, [Failed(e)])
    case Ok(org) =>
      if !OptOutTypeEnabled(org.availablePolicyTypes) then
        Verification(false, [OrganizationFound(org.id), PolicyTypeNotEnabled])
      else
        Prefixed([OrganizationFound(org.id), PolicyTypeEnabled], ListAndCheck(api))
  }

  /**
    The policy loop (the `for policy in ...` of the script): appends the
    lines for each policy in turn and stops at the first `describe_policy`
    that fails.
   */
  method ReportPolicies(policies: seq<PolicySummary>, describe: string -> Result<PolicyContent>)
    returns (failed: bool, lines: seq<ReportLine>)
    ensures PolicyScan(lines, failed) == ScanPolicies(policies, describe)
  {
    lines := [];
    var i := 0;
    while i < |policies|
      invariant 0 <= i <= |policies|
      invariant !ScanPolicies(policies[..i], describe).failed
      invariant lines == ScanPolicies(policies[..i], describe).lines
    {
      var policy := policies[i];
      ghost var before := lines;
      assert policies[..i + 1][..i] == policies[..i];
      assert policies[..i + 1][i] == policy;
      assert ScanPolicies(policies[..i + 1], describe) ==
        PolicyScan(before + PolicyEntry(policy, describe(policy.id)), describe(policy.id).Err?);
      lines := lines + [PolicyListed(policy.name, policy.id)];
      var detail := describe(policy.id);
      if detail.Err? {
        lines := lines + [Failed(detail.message)];
        assert lines == before + PolicyEntry(policy, detail);
        ScanStopsAtFailure(policies, describe, i + 1);
        return true, lines;
      }
      lines := lines + [CoverageLine(detail.value)];
      assert lines == before + PolicyEntry(policy, detail);
      i := i + 1;
    }
    assert policies[..i] == policies;
    return false, lines;
  }

  /**
    The account loop: one line for each ACTIVE account, whose failing
    lookup is reported and does not stop the loop.
   */
  method ReportAccounts(accounts: seq<Account>, lookup: string -> Result<EffectivePolicy>)
    returns (lines: seq<ReportLine>)
    ensures lines == AccountLines(accounts, lookup)
  {
    lines := [];
    var j := 0;
    while j < |accounts|
      invariant 0 <= j <= |accounts|
      invariant lines == AccountLines(accounts[..j], lookup)
    {
      var account := accounts[j];
      assert accounts[..j + 1][..j] == accounts[..j];
      if account.status == ACTIVE {
        lines := lines + [AccountLine(account, lookup(account.id))];
      }
      j := j + 1;
    }
    assert accounts[..j] == accounts;
  }

  /** The account part of the run: list the accounts, then report on each ACTIVE one. */
  method RunAccountCheck(api: Api) returns (passed: bool, lines: seq<ReportLine>)
    ensures Verification(passed, lines) == CheckAccounts(api)
  {
    match api.listAccounts {
      case Err(e) =>
        passed, lines := false, [Failed(e)];
      case Ok(accounts) =>
        lines := ReportAccounts(accounts, api.describeEffectivePolicy);
        passed := true;
    }
  }

  /** List the policies and describe each; go on to the accounts only if none failed. */
  method RunListAndCheck(api: Api) returns (passed: bool, lines: seq<ReportLine>)
    ensures Verification(passed, lines) == ListAndCheck(api)
  {
    passed := false;
    match api.listPolicies {
      case Err(e) =>
        lines := [Failed(e)];
      case Ok(policies) =>
        var failed, policyLines := ReportPolicies(policies, api.describePolicy);
        lines := [PoliciesFound(|policies|)] + policyLines;
        if !failed {
          var accountLines;
          passed, accountLines := RunAccountCheck(api);
          lines := lines + [CheckingAccounts] + accountLines;
        }
    }
  }

  /**
    `verify_ai_opt_out`: runs the steps in order, building the printed lines,
    and stops where the script returns early.
   */
  method VerifyAiOptOut(api: Api) returns (passed: bool, report: seq<ReportLine>)
    ensures Verification(passed, report) == Verify(api)
  {
    passed := false;
    match api.describeOrganization {
      case Err(e) =>
        report := [Failed(e)];
      case Ok(org) =>
        report := [OrganizationFound(org.id)];
        if !OptOutTypeEnabled(org.availablePolicyTypes) {
          report := report + [PolicyTypeNotEnabled];
        } else {
          var rest;
          passed, rest := RunListAndCheck(api);
          report := report + [PolicyTypeEnabled] + rest;
        }
    }
  }

  // ---------------------------------------------------------------------
  // The policy loop
  // ---------------------------------------------------------------------

  /** Once a `describe_policy` has failed, the later policies add nothing. */
  lemma {:induction false} ScanStopsAtFailure(policies: seq<PolicySummary>, describe: string -> Result<PolicyContent>, k: nat)
    requires k <= |policies| && ScanPolicies(policies[..k], describe).failed
    ensures ScanPolicies(policies, describe) == ScanPolicies(policies[..k], describe)
  {
    if k < |policies| {
      var prefix := policies[..|policies| - 1];
      assert prefix[..k] == policies[..k];
      ScanStopsAtFailure(prefix, describe, k);
    } else {
      assert policies[..k] == policies;
    }
  }

  /**
    With no failing `describe_policy`, each policy gets its name line and then
    a coverage line saying whether its `services` has the key `default`.
   */
  lemma {:induction false} PolicyLinesFollowPolicies(policies: seq<PolicySummary>, describe: string -> Result<PolicyContent>)
    requires forall k :: 0 <= k < |policies| ==> describe(policies[k].id).Ok?
    ensures !ScanPolicies(policies, describe).failed
    ensures |ScanPolicies(policies, describe).lines| == 2 * |policies|
    ensures forall k :: 0 <= k < |policies| ==>
      ScanPolicies(policies, describe).lines[2 * k] == PolicyListed(policies[k].name, policies[k].id)
    ensures forall k :: 0 <= k < |policies| ==>
      ScanPolicies(policies, describe).lines[2 * k + 1] ==
        if DEFAULT_SERVICE in ServicesOrEmpty(describe(policies[k].id).value)
        then CoversAllServices else MissingDefaultService
  {
    if |policies| > 0 {
      var n := |policies| - 1;
      var prefix := policies[..n];
      PolicyLinesFollowPolicies(prefix, describe);
      var lines := ScanPolicies(policies, describe).lines;
      var before := ScanPolicies(prefix, describe).lines;
      assert lines == before + PolicyEntry(policies[n], describe(policies[n].id));
      forall k | 0 <= k < |policies|
        ensures lines[2 * k] == PolicyListed(policies[k].name, policies[k].id)
        ensures lines[2 * k + 1] ==
          if DEFAULT_SERVICE in ServicesOrEmpty(describe(policies[k].id).value) then CoversAllServices else MissingDefaultService
      {
        if k < n {
          assert prefix[k] == policies[k];
          assert lines[2 * k] == before[2 * k] && lines[2 * k + 1] == before[2 * k + 1];
        }
      }
    }
  }

  /**
    The policy loop fails exactly when some policy's `describe_policy`
    fails; it then stops at the first such policy, whose error is the last
    line.
   */
  lemma {:induction false} ScanFailsAtFirstFailure(policies: seq<PolicySummary>, describe: string -> Result<PolicyContent>, k: nat)
    requires k < |policies| && describe(policies[k].id).Err?
    requires forall j :: 0 <= j < k ==> describe(policies[j].id).Ok?
    ensures ScanPolicies(policies, describe).failed
    ensures |ScanPolicies(policies, describe).lines| == 2 * k + 2
    ensures ScanPolicies(policies, describe).lines[2 * k] == PolicyListed(policies[k].name, policies[k].id)
    ensures ScanPolicies(policies, describe).lines[2 * k + 1] == Failed(describe(policies[k].id).message)
  {
    var prefix := policies[..k];
    assert forall j :: 0 <= j < k ==> describe(prefix[j].id).Ok? by {
      forall j | 0 <= j < k ensures describe(prefix[j].id).Ok? {
        assert prefix[j] == policies[j];
      }
    }
    PolicyLinesFollowPolicies(prefix, describe);
    var upTo := policies[..k + 1];
    assert upTo[..k] == prefix;
    assert upTo[k] == policies[k];
    ScanStopsAtFailure(policies, describe, k + 1);
  }

  // ---------------------------------------------------------------------
  // The account loop
  // ---------------------------------------------------------------------

  /**
    Only ACTIVE accounts print a line, one each and in order, and that line
    is exactly one of: opted out (a non-empty effective policy), no policy
    (an empty one), or a check failure carrying the lookup's error.
   */
  lemma {:induction false} AccountLinesFollowActive(accounts: seq<Account>, lookup: string -> Result<EffectivePolicy>)
    ensures |AccountLines(accounts, lookup)| == |ActiveAccounts(accounts)|
    ensures forall k :: 0 <= k < |ActiveAccounts(accounts)| ==>
      var account := ActiveAccounts(accounts)[k];
      var line := AccountLines(accounts, lookup)[k];
      && (line == AccountOptedOut(account.name) <==>
            lookup(account.id).Ok? && |lookup(account.id).value.fields| > 0)
      && (line == AccountWithoutPolicy(account.name) <==>
            lookup(account.id).Ok? && |lookup(account.id).value.fields| == 0)
      && (line.AccountCheckFailed? <==> lookup(account.id).Err?)
      && (lookup(account.id).Err? ==> line == AccountCheckFailed(account.name, lookup(account.id).message))
  {
    if |accounts| > 0 {
      var n := |accounts| - 1;
      AccountLinesFollowActive(accounts[..n], lookup);
      var before := AccountLines(accounts[..n], lookup);
      var beforeActive := ActiveAccounts(accounts[..n]);
      var lines := AccountLines(accounts, lookup);
      var active := ActiveAccounts(accounts);
      forall k | 0 <= k < |beforeActive| ensures lines[k] == before[k] && active[k] == beforeActive[k] {
      }
    }
  }

  /** The lookups of accounts that are not ACTIVE are never consulted. */
  lemma {:induction false} InactiveAccountsIgnored(accounts: seq<Account>, lookup: string -> Result<EffectivePolicy>,
                                                   other: string -> Result<EffectivePolicy>)
    requires forall k :: 0 <= k < |accounts| && accounts[k].status == ACTIVE ==> lookup(accounts[k].id) == other(accounts[k].id)
    ensures AccountLines(accounts, lookup) == AccountLines(accounts, other)
  {
    if |accounts| > 0 {
      var n := |accounts| - 1;
      var prefix := accounts[..n];
      forall k | 0 <= k < |prefix| && prefix[k].status == ACTIVE ensures lookup(prefix[k].id) == other(prefix[k].id) {
        assert prefix[k] == accounts[k];
      }
      InactiveAccountsIgnored(prefix, lookup, other);
    }
  }

  // ---------------------------------------------------------------------
  // The returned boolean
  // ---------------------------------------------------------------------

  /** The steps that have no `try` of their own all succeeded. */
  predicate OuterStepsSucceed(api: Api) {
    && api.describeOrganization.Ok?
    && api.listPolicies.Ok?
    && (forall k :: 0 <= k < |api.listPolicies.value| ==> api.describePolicy(api.listPolicies.value[k].id).Ok?)
    && api.listAccounts.Ok?
  }

  /**
    The script returns True exactly when the policy type is enabled and no
    step outside the per-account `try` fails; coverage, the effective-policy
    lookups and the number of policies play no part.
   */
  lemma PassedIff(api: Api)
    ensures Verify(api).passed <==>
      OuterStepsSucceed(api) && OptOutTypeEnabled(api.describeOrganization.value.availablePolicyTypes)
  {
    if OuterStepsSucceed(api) {
      PolicyLinesFollowPolicies(api.listPolicies.value, api.describePolicy);
    } else if api.describeOrganization.Ok? && api.listPolicies.Ok? && api.listAccounts.Ok? {
      var policies := api.listPolicies.value;
      var k :| 0 <= k < |policies| && api.describePolicy(policies[k].id).Err?;
      FirstFailureExists(policies, api.describePolicy, k);
    }
  }

  /** A failing `describe_policy` somewhere means a first one. */
  lemma {:induction false} FirstFailureExists(policies: seq<PolicySummary>, describe: string -> Result<PolicyContent>, k: nat)
    requires k < |policies| && describe(policies[k].id).Err?
    ensures ScanPolicies(policies, describe).failed
  {
    if exists j :: 0 <= j < k && describe(policies[j].id).Err? {
      var j :| 0 <= j < k && describe(policies[j].id).Err?;
      FirstFailureExists(policies, describe, j);
    } else {
      ScanFailsAtFirstFailure(policies, describe, k);
    }
  }

  /**
    The script returns False exactly when its last line is the error line of
    an outer step or the "not enabled" line; an error line appears nowhere
    else.
   */
  lemma FailedLineIsLastAndOnlyOnFailure(api: Api)
    ensures |Verify(api).report| > 0
    ensures !Verify(api).passed <==>
      (var last := Verify(api).report[|Verify(api).report| - 1]; last.Failed? || last.PolicyTypeNotEnabled?)
    ensures forall i :: 0 <= i < |Verify(api).report| - 1 ==> !Verify(api).report[i].Failed?
  {
    var v := Verify(api);
    if api.describeOrganization.Ok? && OptOutTypeEnabled(api.describeOrganization.value.availablePolicyTypes) {
      ListAndCheckEndsWell(api);
      PrefixedEndsWell([OrganizationFound(api.describeOrganization.value.id), PolicyTypeEnabled], ListAndCheck(api));
    }
    assert EndsWell(v);
    forall i | 0 <= i < |v.report| - 1 ensures !v.report[i].Failed? {
      assert v.report[i] == v.report[..|v.report| - 1][i];
    }
  }

  /**
    The report is non-empty, no line before the last is an error line, and
    the run fails exactly when the last line is an error line or "not
    enabled".
   */
  predicate EndsWell(v: Verification) {
    && |v.report| > 0
    && NoFailedLine(v.report[..|v.report| - 1])
    && (!v.passed <==> v.report[|v.report| - 1].Failed? || v.report[|v.report| - 1].PolicyTypeNotEnabled?)
  }

  lemma PrefixedEndsWell(lines: seq<ReportLine>, v: Verification)
    requires NoFailedLine(lines) && EndsWell(v)
    ensures EndsWell(Prefixed(lines, v))
  {
    var r := Prefixed(lines, v).report;
    assert r == lines + v.report;
    assert r[..|r| - 1] == lines + v.report[..|v.report| - 1];
    AppendKeepsNoFailedLine(lines, v.report[..|v.report| - 1]);
  }

  lemma ListAndCheckEndsWell(api: Api)
    ensures EndsWell(ListAndCheck(api))
  {
    var v := ListAndCheck(api);
    if api.listPolicies.Ok? {
      var policies := api.listPolicies.value;
      var scan := ScanPolicies(policies, api.describePolicy);
      var listing := [PoliciesFound(|policies|)] + scan.lines;
      if scan.failed {
        var n := |scan.lines| - 1;
        assert v.report[..|v.report| - 1] == [PoliciesFound(|policies|)] + scan.lines[..n];
        assert NoFailedLine(scan.lines[..n]);
        AppendKeepsNoFailedLine([PoliciesFound(|policies|)], scan.lines[..n]);
      } else {
        assert NoFailedLine(scan.lines);
        AppendKeepsNoFailedLine([PoliciesFound(|policies|)], scan.lines);
        AppendKeepsNoFailedLine(listing, [CheckingAccounts]);
        var checking := listing + [CheckingAccounts];
        var accounts := CheckAccounts(api);
        if |accounts.report| == 0 {
          assert v.report == checking;
          assert v.report[..|v.report| - 1] == listing;
        } else {
          assert EndsWell(accounts) by {
            var n := |accounts.report| - 1;
            forall i | 0 <= i < n ensures !accounts.report[..n][i].Failed? {
              assert accounts.report[..n][i] == accounts.report[i];
            }
          }
          PrefixedEndsWell(checking, accounts);
        }
      }
    }
  }

  /** No line of `lines` is an error line. */
  predicate NoFailedLine(lines: seq<ReportLine>) {
    forall i :: 0 <= i < |lines| ==> !lines[i].Failed?
  }

  lemma AppendKeepsNoFailedLine(front: seq<ReportLine>, back: seq<ReportLine>)
    requires NoFailedLine(front) && NoFailedLine(back)
    ensures NoFailedLine(front + back)
  {
    forall i | 0 <= i < |front + back| ensures !(front + back)[i].Failed? {
      if i >= |front| { assert (front + back)[i] == back[i - |front|]; }
    }
  }

  /** With the policy type not enabled, nothing after the check is listed. */
  lemma DisabledTypeStopsEarly(api: Api)
    requires api.describeOrganization.Ok?
    requires !OptOutTypeEnabled(api.describeOrganization.value.availablePolicyTypes)
    ensures Verify(api) == Verification(false, [OrganizationFound(api.describeOrganization.value.id), PolicyTypeNotEnabled])
  {
  }

  /** Failing per-account lookups neither shorten the report nor change the returned value. */
  lemma AccountFailuresTolerated(api: Api, other: string -> Result<EffectivePolicy>)
    ensures Verify(api.(describeEffectivePolicy := other)).passed == Verify(api).passed
    ensures |Verify(api.(describeEffectivePolicy := other)).report| == |Verify(api).report|
  {
    if api.listAccounts.Ok? {
      AccountLinesFollowActive(api.listAccounts.value, api.describeEffectivePolicy);
      AccountLinesFollowActive(api.listAccounts.value, other);
    }
  }

  // ---------------------------------------------------------------------
  // Examples
  // ---------------------------------------------------------------------

  /** The content the infrastructure template declares: `default` set to `optOut`. */
  function TemplatePolicyContent(): PolicyContent {
    PolicyContent(Some(map[DEFAULT_SERVICE := Directive("optOut")]))
  }

  /** The template's content is reported as covering all services; a missing `services` is a warning. */
  lemma CoverageExamples()
    ensures CoverageLine(TemplatePolicyContent()) == CoversAllServices
    ensures CoverageLine(PolicyContent(None)) == MissingDefaultService
    ensures CoverageLine(PolicyContent(Some(map["comprehend" := Directive("optOut")]))) == MissingDefaultService
  {
    assert DEFAULT_SERVICE != "comprehend";
  }

  /** A matching type with another status, or another type that is enabled, does not count. */
  lemma EnabledNeedsTypeAndStatus()
    ensures !OptOutTypeEnabled([PolicyTypeSummary(AI_OPT_OUT_POLICY_TYPE, "PENDING_ENABLE"),
                                PolicyTypeSummary("SERVICE_CONTROL_POLICY", ENABLED)])
    ensures OptOutTypeEnabled([PolicyTypeSummary("SERVICE_CONTROL_POLICY", ENABLED),
                               PolicyTypeSummary(AI_OPT_OUT_POLICY_TYPE, ENABLED)])
  {
    var enabled := [PolicyTypeSummary("SERVICE_CONTROL_POLICY", ENABLED), PolicyTypeSummary(AI_OPT_OUT_POLICY_TYPE, ENABLED)];
    assert enabled[1].policyType == AI_OPT_OUT_POLICY_TYPE && enabled[1].status == ENABLED;
    assert "PENDING_ENABLE" != ENABLED;
    assert "SERVICE_CONTROL_POLICY" != AI_OPT_OUT_POLICY_TYPE;
  }
}
