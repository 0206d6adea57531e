/**
  The compliance-rule handler (`lambda_handler` in config/aws-config-rule.py).

  The handler lists the AI-services opt-out policies, then asks, policy by
  policy and in list order, for the policy's attachment targets; the first
  policy attached to the organization root makes the rule COMPLIANT. Any
  exception raised on the way is caught and turned into a NON_COMPLIANT
  result whose annotation carries the exception text.

  The two API calls are inputs: `listed` is the outcome of `list_policies`,
  and `lookup` gives the outcome of `list_targets_for_policy` for a policy id.
 */
module ConfigRule {
  import opened Organizations

  const COMPLIANT: string := "COMPLIANT"
  const NON_COMPLIANT: string := "NON_COMPLIANT"

  const NO_POLICY_FOUND: string := "No AI opt-out policy found"
  const PROPERLY_CONFIGURED: string := "AI opt-out policy properly configured"
  const NOT_ATTACHED_TO_ROOT: string := "AI opt-out policy not attached to root"
  const ERROR_PREFIX: string := "Error checking policy: "

  /** The target type that makes a policy organization-wide. */
  const ROOT: string := "ROOT"

  /** One entry of `list_targets_for_policy(...)['Targets']`; the handler reads only `Type`. */
  datatype Target = Target(targetId: string, targetType: string)

  /** The dictionary the handler returns: `compliance_type` and `annotation`. */
  datatype Evaluation = Evaluation(complianceType: string, annotation: string)

  /** `list_targets_for_policy`, as a function of the policy id. */
  type TargetLookup = string -> Result<seq<Target>>

  /** The `any(t['Type'] == 'ROOT' ...)` test on one policy's targets. */
  predicate AttachedToRoot(targets: seq<Target>): (attached: bool)
    ensures attached <==> ROOT in (set t | t in targets :: t.targetType)
  {
    exists i :: 0 <= i < |targets| && targets[i].targetType == ROOT
  }

  function CompliantEvaluation(): Evaluation {
    Evaluation(COMPLIANT, PROPERLY_CONFIGURED)
  }

  function NotAttachedEvaluation(): Evaluation {
    Evaluation(NON_COMPLIANT, NOT_ATTACHED_TO_ROOT)
  }

  /** The result of the `except` branch for an exception whose text is `message`. */
  function ErrorEvaluation(message: string): (r: Evaluation)
    ensures r.complianceType == NON_COMPLIANT
    ensures |r.annotation| >= |ERROR_PREFIX| && r.annotation[..|ERROR_PREFIX|] == ERROR_PREFIX
    ensures r.annotation[|ERROR_PREFIX|..] == message
    ensures r.annotation !in {NO_POLICY_FOUND, PROPERLY_CONFIGURED, NOT_ATTACHED_TO_ROOT}
  {
    var annotation := ERROR_PREFIX + message;
    assert annotation[0] == 'E';
    Evaluation(NON_COMPLIANT, annotation)
  }

  /** True of the annotations produced by the `except` branch. */
  predicate IsErrorAnnotation(annotation: string) {
    |annotation| >= |ERROR_PREFIX| && annotation[..|ERROR_PREFIX|] == ERROR_PREFIX
  }

  /** A target lookup that ends the scan: it raised, or it found the root. */
  predicate Decisive(r: Result<seq<Target>>) {
    r.Err? || AttachedToRoot(r.value)
  }

  /** The result the handler returns once the scan reaches a decisive lookup. */
  function DecisiveEvaluation(r: Result<seq<Target>>): Evaluation {
    match r
    case Err(e) => ErrorEvaluation(e)
    case Ok(_) => CompliantEvaluation()
  }

  /** The lookups of the first `k` policies all succeed and find no root. */
  predicate Settled(policies: seq<PolicySummary>, lookup: TargetLookup, k: nat)
    requires k <= |policies|
  {
    forall j :: 0 <= j < k ==> !Decisive(lookup(policies[j].id))
  }

  /** Policy `k` is the first whose lookup raises or finds the root. */
  predicate FirstDecisiveAt(policies: seq<PolicySummary>, lookup: TargetLookup, k: nat) {
    k < |policies| && Settled(policies, lookup, k) && Decisive(lookup(policies[k].id))
  }

  /**
    The `for` loop over the policies: fetch each policy's targets in list
    order and return at the first policy attached to the root; a raising
    lookup leaves the loop through the `except` branch.
   */
  function FirstRootMatch(policies: seq<PolicySummary>, lookup: TargetLookup): (r: Evaluation)
    ensures r.complianceType == COMPLIANT || r.complianceType == NON_COMPLIANT
    ensures r.complianceType == COMPLIANT <==> r == CompliantEvaluation()
    ensures r.complianceType == NON_COMPLIANT ==> r.annotation != PROPERLY_CONFIGURED
    ensures r.complianceType == COMPLIANT ==>
      exists k :: 0 <= k < |policies| && lookup(policies[k].id).Ok? && AttachedToRoot(lookup(policies[k].id).value)
  {
    if |policies| == 0 then NotAttachedEvaluation()
    else
      match lookup(policies[0].id)
      case Err(e) => ErrorEvaluation(e)
      case Ok(targets) =>
        if AttachedToRoot(targets) then CompliantEvaluation()
        else FirstRootMatch(policies[1..], lookup)
  }

  /** `lambda_handler`: `listed` is the outcome of `list_policies`. */
  function LambdaHandler(listed: Result<seq<PolicySummary>>, lookup: TargetLookup): (r: Evaluation)
    ensures r.complianceType == COMPLIANT || r.complianceType == NON_COMPLIANT
    ensures r.complianceType == COMPLIANT <==> r.annotation == PROPERLY_CONFIGURED
    ensures r.complianceType == COMPLIANT ==>
      listed.Ok? && exists k :: 0 <= k < |listed.value| && lookup(listed.value[k].id).Ok?
                                && AttachedToRoot(lookup(listed.value[k].id).value)
  {
    match listed
    case Err(e) => ErrorEvaluation(e)
    case Ok(policies) =>
      if |policies| == 0 then Evaluation(NON_COMPLIANT, NO_POLICY_FOUND)
      else FirstRootMatch(policies, lookup)
  }

  // ---------------------------------------------------------------------
  // The scan stops at the first decisive lookup
  // ---------------------------------------------------------------------

  /** Settled policies are skipped: the scan continues as if they were absent. */
  lemma {:induction false} SkipSettled(policies: seq<PolicySummary>, lookup: TargetLookup, k: nat)
    requires k <= |policies| && Settled(policies, lookup, k)
    ensures FirstRootMatch(policies, lookup) == FirstRootMatch(policies[k..], lookup)
  {
    if k > 0 {
      assert !Decisive(lookup(policies[0].id));
      var rest := policies[1..];
      assert Settled(rest, lookup, k - 1) by {
        forall j | 0 <= j < k - 1 ensures !Decisive(lookup(rest[j].id)) {
          assert rest[j] == policies[j + 1];
        }
      }
      SkipSettled(rest, lookup, k - 1);
      assert rest[k - 1..] == policies[k..];
    } else {
      assert policies[0..] == policies;
    }
  }

  /** The scan's result is decided by the first decisive lookup, or it finds none. */
  lemma {:induction false} FirstRootMatchDecided(policies: seq<PolicySummary>, lookup: TargetLookup, k: nat)
    requires FirstDecisiveAt(policies, lookup, k)
    ensures FirstRootMatch(policies, lookup) == DecisiveEvaluation(lookup(policies[k].id))
  {
    SkipSettled(policies, lookup, k);
    assert policies[k..][0] == policies[k];
  }

  lemma {:induction false} FirstRootMatchUndecided(policies: seq<PolicySummary>, lookup: TargetLookup)
    requires Settled(policies, lookup, |policies|)
    ensures FirstRootMatch(policies, lookup) == NotAttachedEvaluation()
  {
    SkipSettled(policies, lookup, |policies|);
  }

  /** Either every lookup is settled, or there is a first decisive one. */
  lemma {:induction false} SettledOrFirstDecisive(policies: seq<PolicySummary>, lookup: TargetLookup)
    ensures Settled(policies, lookup, |policies|) || exists k: nat :: FirstDecisiveAt(policies, lookup, k)
  {
    if |policies| > 0 && !Settled(policies, lookup, |policies|) {
      var prefix := policies[..|policies| - 1];
      SettledOrFirstDecisive(prefix, lookup);
      if Settled(prefix, lookup, |prefix|) {
        assert Settled(policies, lookup, |prefix|);
        assert FirstDecisiveAt(policies, lookup, |prefix|);
      } else {
        var k: nat :| FirstDecisiveAt(prefix, lookup, k);
        assert prefix[k] == policies[k];
        assert Settled(policies, lookup, k) by {
          forall j | 0 <= j < k ensures !Decisive(lookup(policies[j].id)) {
            assert prefix[j] == policies[j];
          }
        }
        assert FirstDecisiveAt(policies, lookup, k);
      }
    }
  }

  /** There is at most one first decisive lookup. */
  lemma FirstDecisiveUnique(policies: seq<PolicySummary>, lookup: TargetLookup, k: nat, k': nat)
    requires FirstDecisiveAt(policies, lookup, k) && FirstDecisiveAt(policies, lookup, k')
    ensures k == k'
  {
  }

  // ---------------------------------------------------------------------
  // The handler's four outcomes
  // ---------------------------------------------------------------------

  /** An empty policy list is NON_COMPLIANT with the "no policy" annotation. */
  lemma NoPolicyIsNonCompliant(lookup: TargetLookup)
    ensures LambdaHandler(Ok([]), lookup) == Evaluation(NON_COMPLIANT, NO_POLICY_FOUND)
  {
  }

  /** If the first decisive lookup finds the root, the rule is COMPLIANT. */
  lemma RootBeforeAnyFailureIsCompliant(policies: seq<PolicySummary>, lookup: TargetLookup, k: nat)
    requires k < |policies| && Settled(policies, lookup, k)
    requires lookup(policies[k].id).Ok? && AttachedToRoot(lookup(policies[k].id).value)
    ensures LambdaHandler(Ok(policies), lookup) == Evaluation(COMPLIANT, PROPERLY_CONFIGURED)
  {
    FirstRootMatchDecided(policies, lookup, k);
  }

  /** Non-empty list, every lookup succeeds, no root: NON_COMPLIANT "not attached to root". */
  lemma NoRootIsNotAttached(policies: seq<PolicySummary>, lookup: TargetLookup)
    requires |policies| > 0
    requires forall j :: 0 <= j < |policies| ==>
      lookup(policies[j].id).Ok? && !AttachedToRoot(lookup(policies[j].id).value)
    ensures LambdaHandler(Ok(policies), lookup) == Evaluation(NON_COMPLIANT, NOT_ATTACHED_TO_ROOT)
  {
    FirstRootMatchUndecided(policies, lookup);
  }

  /**
    Targets of type ORGANIZATIONAL_UNIT or ACCOUNT never make a policy
    count: when every target the handler can see is of one of those types,
    the rule is not compliant, whichever lookups fail.
   */
  lemma OrganizationalUnitAndAccountTargetsNeverCount(listed: Result<seq<PolicySummary>>, lookup: TargetLookup)
    requires forall j, i :: listed.Ok? && 0 <= j < |listed.value| && lookup(listed.value[j].id).Ok?
                            && 0 <= i < |lookup(listed.value[j].id).value| ==>
      lookup(listed.value[j].id).value[i].targetType in {"ORGANIZATIONAL_UNIT", "ACCOUNT"}
    ensures LambdaHandler(listed, lookup).complianceType == NON_COMPLIANT
  {
    if listed.Ok? {
      var policies := listed.value;
      forall j | 0 <= j < |policies| && lookup(policies[j].id).Ok?
        ensures !AttachedToRoot(lookup(policies[j].id).value)
      {
        var targets := lookup(policies[j].id).value;
        forall i | 0 <= i < |targets| ensures targets[i].targetType != ROOT {
          assert targets[i].targetType in {"ORGANIZATIONAL_UNIT", "ACCOUNT"};
        }
      }
    }
  }

  /** A raising lookup reached before any root match gives the error result. */
  lemma FailureBeforeRootIsError(policies: seq<PolicySummary>, lookup: TargetLookup, k: nat)
    requires k < |policies| && Settled(policies, lookup, k) && lookup(policies[k].id).Err?
    ensures LambdaHandler(Ok(policies), lookup) == ErrorEvaluation(lookup(policies[k].id).message)
  {
    FirstRootMatchDecided(policies, lookup, k);
  }

  /** A failing `list_policies` gives the error result. */
  lemma ListFailureIsError(message: string, lookup: TargetLookup)
    ensures LambdaHandler(Err(message), lookup) == ErrorEvaluation(message)
  {
  }

  /**
    Once policy `k` is found attached to the root, the lookups of the later
    policies are never made: any other outcome for them leaves the verdict
    COMPLIANT.
   */
  lemma LaterLookupsCannotChangeCompliant(policies: seq<PolicySummary>, lookup: TargetLookup,
                                          other: TargetLookup, k: nat)
    requires k < |policies| && Settled(policies, lookup, k)
    requires lookup(policies[k].id).Ok? && AttachedToRoot(lookup(policies[k].id).value)
    requires forall j :: 0 <= j <= k ==> other(policies[j].id) == lookup(policies[j].id)
    ensures LambdaHandler(Ok(policies), other) == CompliantEvaluation()
  {
    assert Settled(policies, other, k) by {
      forall j | 0 <= j < k ensures !Decisive(other(policies[j].id)) {
        assert other(policies[j].id) == lookup(policies[j].id);
      }
    }
    RootBeforeAnyFailureIsCompliant(policies, other, k);
  }

  /**
    A failing lookup for a policy scanned before the first root match forces
    the error result, whatever the later policies' lookups return.
   */
  lemma EarlierFailureForcesError(policies: seq<PolicySummary>, lookup: TargetLookup,
                                  other: TargetLookup, k: nat)
    requires k < |policies| && Settled(policies, lookup, k) && lookup(policies[k].id).Err?
    requires forall j :: 0 <= j <= k ==> other(policies[j].id) == lookup(policies[j].id)
    ensures LambdaHandler(Ok(policies), other) == ErrorEvaluation(lookup(policies[k].id).message)
  {
    assert Settled(policies, other, k) by {
      forall j | 0 <= j < k ensures !Decisive(other(policies[j].id)) {
        assert other(policies[j].id) == lookup(policies[j].id);
      }
    }
    FailureBeforeRootIsError(policies, other, k);
  }

  /** COMPLIANT arises exactly from a root match reached before any failure. */
  lemma CompliantIff(listed: Result<seq<PolicySummary>>, lookup: TargetLookup)
    ensures LambdaHandler(listed, lookup).complianceType == COMPLIANT <==>
      listed.Ok? && exists k: nat :: FirstDecisiveAt(listed.value, lookup, k) && lookup(listed.value[k].id).Ok?
  {
    if listed.Ok? && |listed.value| > 0 {
      var policies := listed.value;
      SettledOrFirstDecisive(policies, lookup);
      if Settled(policies, lookup, |policies|) {
        FirstRootMatchUndecided(policies, lookup);
        assert forall k: nat :: !FirstDecisiveAt(policies, lookup, k);
      } else {
        var k: nat :| FirstDecisiveAt(policies, lookup, k);
        FirstRootMatchDecided(policies, lookup, k);
        forall k': nat | FirstDecisiveAt(policies, lookup, k') ensures k' == k {
          FirstDecisiveUnique(policies, lookup, k, k');
        }
        if lookup(policies[k].id).Err? {
          assert ErrorEvaluation(lookup(policies[k].id).message).complianceType == NON_COMPLIANT;
        }
      }
    }
  }

  /** The four fixed annotations never carry the error prefix. */
  lemma FixedAnnotationsAreNotErrors()
    ensures !IsErrorAnnotation(NO_POLICY_FOUND)
    ensures !IsErrorAnnotation(PROPERLY_CONFIGURED)
    ensures !IsErrorAnnotation(NOT_ATTACHED_TO_ROOT)
  {
    assert NO_POLICY_FOUND[0] != ERROR_PREFIX[0];
    assert PROPERLY_CONFIGURED[0] != ERROR_PREFIX[0];
    assert NOT_ATTACHED_TO_ROOT[0] != ERROR_PREFIX[0];
  }

  /**
    The annotation carries the error prefix exactly when `list_policies`
    failed or a lookup reached before any root match failed; its remainder
    is then that failure's message.
   */
  lemma ErrorIff(listed: Result<seq<PolicySummary>>, lookup: TargetLookup)
    ensures IsErrorAnnotation(LambdaHandler(listed, lookup).annotation) <==>
      listed.Err? || exists k: nat :: FirstDecisiveAt(listed.value, lookup, k) && lookup(listed.value[k].id).Err?
    ensures listed.Err? ==> LambdaHandler(listed, lookup) == ErrorEvaluation(listed.message)
    ensures listed.Ok? ==> forall k: nat :: FirstDecisiveAt(listed.value, lookup, k) && lookup(listed.value[k].id).Err? ==>
      LambdaHandler(listed, lookup) == ErrorEvaluation(lookup(listed.value[k].id).message)
  {
    FixedAnnotationsAreNotErrors();
    if listed.Ok? && |listed.value| > 0 {
      var policies := listed.value;
      SettledOrFirstDecisive(policies, lookup);
      if Settled(policies, lookup, |policies|) {
        FirstRootMatchUndecided(policies, lookup);
        assert forall k: nat :: !FirstDecisiveAt(policies, lookup, k);
      } else {
        var k: nat :| FirstDecisiveAt(policies, lookup, k);
        FirstRootMatchDecided(policies, lookup, k);
        forall k': nat | FirstDecisiveAt(policies, lookup, k') ensures k' == k {
          FirstDecisiveUnique(policies, lookup, k, k');
        }
      }
    }
  }

  // ---------------------------------------------------------------------
  // Order of the policy list
  // ---------------------------------------------------------------------

  /** With no failing lookup, the scan is COMPLIANT iff some policy is attached to the root. */
  lemma {:induction false} CleanScanIff(policies: seq<PolicySummary>, lookup: TargetLookup)
    requires forall p :: p in policies ==> lookup(p.id).Ok?
    ensures FirstRootMatch(policies, lookup) ==
      if exists p :: p in policies && AttachedToRoot(lookup(p.id).value)
      then CompliantEvaluation() else NotAttachedEvaluation()
  {
    if |policies| > 0 && !AttachedToRoot(lookup(policies[0].id).value) {
      var rest := policies[1..];
      CleanScanIff(rest, lookup);
      assert forall p :: p in policies <==> p == policies[0] || p in rest;
    }
  }

  /** Without failing lookups, reordering the policy list does not change the result. */
  lemma PermutationInvariant(policies: seq<PolicySummary>, reordered: seq<PolicySummary>, lookup: TargetLookup)
    requires multiset(policies) == multiset(reordered)
    requires forall p :: p in policies ==> lookup(p.id).Ok?
    ensures LambdaHandler(Ok(policies), lookup) == LambdaHandler(Ok(reordered), lookup)
  {
    assert forall p :: p in policies <==> p in reordered by {
      forall p ensures p in policies <==> p in reordered {
        assert p in policies <==> p in multiset(policies);
        assert p in reordered <==> p in multiset(reordered);
      }
    }
    assert |policies| == |reordered| by {
      assert |multiset(policies)| == |policies|;
      assert |multiset(reordered)| == |reordered|;
    }
    CleanScanIff(policies, lookup);
    CleanScanIff(reordered, lookup);
  }

  /**
    Once a lookup fails, order matters: the same two policies give the error
    result in one order and COMPLIANT in the other.
   */
  lemma PermutationMattersWithFailures()
    ensures var first := PolicySummary("p-1", "first");
            var second := PolicySummary("p-2", "second");
            var lookup: TargetLookup := id => if id == "p-1" then Err("AccessDenied") else Ok([Target("r-1", ROOT)]);
            LambdaHandler(Ok([first, second]), lookup) == ErrorEvaluation("AccessDenied") &&
            LambdaHandler(Ok([second, first]), lookup) == CompliantEvaluation()
  {
    var first := PolicySummary("p-1", "first");
    var second := PolicySummary("p-2", "second");
    var lookup: TargetLookup := id => if id == "p-1" then Err("AccessDenied") else Ok([Target("r-1", ROOT)]);
    assert "p-2" != "p-1";
    assert AttachedToRoot([Target("r-1", ROOT)]) by {
      assert [Target("r-1", ROOT)][0].targetType == ROOT;
    }
  }
}
