/**
 * The policy decision: packages/policy/src/rules.ts, merge.ts, requirements.ts and evaluate.ts, with the
 * tables of packages/core/src/risk.ts. Stored values are not trusted, so a decision is any text.
 */
module Policy {
  import opened Prelude

  const ALLOW := "ALLOW"
  const REQUIRE_APPROVAL := "REQUIRE_APPROVAL"
  const DENY := "DENY"
  const WILDCARD_ACTION := "*"

  // ----- merge.ts

  predicate IsDecision(d: string) {
    d == ALLOW || d == DENY || d == REQUIRE_APPROVAL
  }

  /** How restrictive; what is no decision ranks as DENY. */
  function Rank(d: string): (r: nat)
    ensures r <= 2
  {
    if d == ALLOW then 0 else if d == REQUIRE_APPROVAL then 1 else 2
  }

  function DecisionOfRank(r: nat): (d: string)
    requires r <= 2
    ensures IsDecision(d) && Rank(d) == r
  {
    if r == 0 then ALLOW else if r == 1 then REQUIRE_APPROVAL else DENY
  }

  /** The highest rank among the decisions, 2 for none at all. */
  function StrictestRank(ds: seq<string>): (r: nat)
    ensures r <= 2
  {
    if ds == [] then 2
    else if |ds| == 1 then Rank(ds[0])
    else Max(StrictestRank(ds[..|ds| - 1]), Rank(ds[|ds| - 1]))
  }

  method MostRestrictive(decisions: seq<string>) returns (winner: string)
    ensures winner == DecisionOfRank(StrictestRank(decisions))
  {
    if |decisions| == 0 {
      return DENY;
    }
    winner := ALLOW;
    for i := 0 to |decisions|
      invariant IsDecision(winner)
      invariant winner == if i == 0 then ALLOW else DecisionOfRank(StrictestRank(decisions[..i]))
    {
      var raw := decisions[i];
      var candidate := if IsDecision(raw) then raw else DENY;
      if Rank(candidate) > Rank(winner) {
        winner := candidate;
      }
      assert decisions[..i + 1][..i] == decisions[..i];
    }
    assert decisions[..|decisions|] == decisions;
  }

  // ----- rules.ts

  /** What storage may hand back. */
  datatype Stored = Junk | Rule(connectorId: string, actionId: string, decision: string)

  function Filter(rules: seq<Stored>, keep: Stored -> bool): (kept: seq<Stored>)
    ensures forall r :: r in kept <==> r in rules && keep(r)
  {
    if rules == [] then []
    else
      var rest := Filter(rules[1..], keep);
      if keep(rules[0]) then [rules[0]] + rest else rest
  }

  predicate AllRules(rules: seq<Stored>) {
    forall r :: r in rules ==> r.Rule?
  }

  /** The first of the strictest rules. */
  function Picked(candidates: seq<Stored>): (winner: Option<Stored>)
    requires AllRules(candidates)
    ensures winner.None? <==> candidates == []
    ensures winner.Some? ==> winner.value in candidates
    ensures winner.Some? ==> forall r :: r in candidates ==> Rank(r.decision) <= Rank(winner.value.decision)
  {
    if candidates == [] then None
    else
      var last := candidates[|candidates| - 1];
      var earlier := candidates[..|candidates| - 1];
      assert candidates == earlier + [last];
      var best := Picked(earlier);
      if best.None? || Rank(last.decision) > Rank(best.value.decision) then Some(last) else best
  }

  method PickMostRestrictive(candidates: seq<Stored>) returns (winner: Option<Stored>)
    requires AllRules(candidates)
    ensures winner == Picked(candidates)
  {
    winner := None;
    for i := 0 to |candidates|
      invariant winner == Picked(candidates[..i])
    {
      var candidate := candidates[i];
      if winner.None? || Rank(candidate.decision) > Rank(winner.value.decision) {
        winner := Some(candidate);
      }
      assert candidates[..i + 1][..i] == candidates[..i];
    }
    assert candidates[..|candidates|] == candidates;
  }

  function Exact(rules: seq<Stored>, connectorId: string, actionId: string): seq<Stored> {
    Filter(rules, (r: Stored) => r.Rule? && r.connectorId == connectorId && r.actionId == actionId)
  }

  /** The most specific tier that holds any rule. */
  function Tier(rules: seq<Stored>, connectorId: string, actionId: string): (t: seq<Stored>)
    ensures AllRules(t)
  {
    var exact := Exact(rules, connectorId, actionId);
    if |exact| > 0 then exact else Exact(rules, connectorId, WILDCARD_ACTION)
  }

  method MatchRule(rules: seq<Stored>, connectorId: string, actionId: string) returns (matched: Option<Stored>)
    ensures matched == Picked(Tier(rules, connectorId, actionId))
  {
    var exact := Exact(rules, connectorId, actionId);
    if |exact| > 0 {
      matched := PickMostRestrictive(exact);
      return;
    }
    matched := PickMostRestrictive(Exact(rules, connectorId, WILDCARD_ACTION));
  }

  // ----- requirements.ts

  datatype Action = Action(id: string, risk: string, requiredScopes: seq<string>, requiredCapabilities: seq<string>)

  datatype Connector = Connector(id: string, actions: seq<Action>)

  function QualifyCapability(connectorId: string, capability: string): string {
    if connectorId + ":" <= capability then capability else connectorId + ":" + capability
  }

  predicate HasAllScopes(a: Action, granted: seq<string>) {
    forall s :: s in a.requiredScopes ==> s in granted
  }

  predicate HasAllCapabilities(connectorId: string, a: Action, announced: seq<string>) {
    forall c :: c in a.requiredCapabilities ==> QualifyCapability(connectorId, c) in announced
  }

  // ----- evaluate.ts

  datatype Input = Input(
    connector: Connector, actionId: string, rules: seq<Stored>, scopes: seq<string>, deviceCapabilities: seq<string>)

  datatype Reason = UnknownAction | MissingScope | MissingCapability | InvalidRisk | RiskDefault | ExplicitRule

  datatype Evaluation = Evaluation(decision: string, reason: Reason, matchedRule: Option<Stored>)

  predicate IsRiskClass(risk: string) {
    risk == "R0" || risk == "R1" || risk == "R2" || risk == "R3" || risk == "R4"
  }

  function DefaultRiskDecision(risk: string): (d: string)
    requires IsRiskClass(risk)
    ensures IsDecision(d)
  {
    if risk == "R0" || risk == "R1" then ALLOW else if risk == "R4" then DENY else REQUIRE_APPROVAL
  }

  function FindAction(actions: seq<Action>, id: string): Option<Action> {
    if actions == [] then None else if actions[0].id == id then Some(actions[0]) else FindAction(actions[1..], id)
  }

  function EvaluatePolicy(input: Input): Evaluation {
    var action := FindAction(input.connector.actions, input.actionId);
    if action.None? then Evaluation(DENY, UnknownAction, None)
    else if !HasAllScopes(action.value, input.scopes) then Evaluation(DENY, MissingScope, None)
    else if !HasAllCapabilities(input.connector.id, action.value, input.deviceCapabilities) then Evaluation(DENY, MissingCapability, None)
    else if !IsRiskClass(action.value.risk) then Evaluation(DENY, InvalidRisk, None)
    else
      var baseline := DefaultRiskDecision(action.value.risk);
      var matched := Picked(Tier(input.rules, input.connector.id, action.value.id));
      if matched.None? then Evaluation(baseline, RiskDefault, None)
      else
        var decision := DecisionOfRank(StrictestRank([baseline, matched.value.decision]));
        var ruleStands := Rank(matched.value.decision) >= Rank(baseline);
        Evaluation(decision, if ruleStands then ExplicitRule else RiskDefault, matched)
  }

  // ----- what it decides

  /** The action was found, its scopes and capabilities are held and its risk is known. */
  predicate Admissible(input: Input) {
    var a := FindAction(input.connector.actions, input.actionId);
    && a.Some? && HasAllScopes(a.value, input.scopes)
    && HasAllCapabilities(input.connector.id, a.value, input.deviceCapabilities) && IsRiskClass(a.value.risk)
  }

  function Baseline(input: Input): nat
    requires Admissible(input)
  {
    Rank(DefaultRiskDecision(FindAction(input.connector.actions, input.actionId).value.risk))
  }

  function TierOf(input: Input): (t: seq<Stored>)
    ensures AllRules(t)
  {
    Tier(input.rules, input.connector.id, input.actionId)
  }

  /** `r` is the highest rank of the baseline and the rules of the tier. */
  predicate IsMaximum(r: nat, baseline: nat, tier: seq<Stored>)
    requires AllRules(tier)
  {
    && r >= baseline && (forall x :: x in tier ==> r >= Rank(x.decision))
    && (r == baseline || exists x :: x in tier && r == Rank(x.decision))
  }

  lemma {:induction false} FoundActionHasId(actions: seq<Action>, id: string)
    ensures FindAction(actions, id).Some? ==> FindAction(actions, id).value.id == id
    decreases |actions|
  {
    if actions != [] { FoundActionHasId(actions[1..], id); }
  }

  lemma StrictestOfTwo(a: string, b: string)
    ensures StrictestRank([a, b]) == Max(Rank(a), Rank(b))
  {
    assert [a, b][..1] == [a];
  }

  /** The decision is the maximum of the risk baseline and the rules of the most specific tier, or DENY. */
  lemma DecisionIsTheMaximum(input: Input)
    ensures IsDecision(EvaluatePolicy(input).decision)
    ensures !Admissible(input) ==> EvaluatePolicy(input).decision == DENY
    ensures Admissible(input) ==> IsMaximum(Rank(EvaluatePolicy(input).decision), Baseline(input), TierOf(input))
    ensures EvaluatePolicy(input).reason.ExplicitRule?
            ==> Admissible(input) && EvaluatePolicy(input).matchedRule.Some?
                && Rank(EvaluatePolicy(input).decision) == Rank(EvaluatePolicy(input).matchedRule.value.decision)
  {
    FoundActionHasId(input.connector.actions, input.actionId);
    if Admissible(input) {
      var matched := Picked(TierOf(input));
      if matched.Some? {
        var baseline := DefaultRiskDecision(FindAction(input.connector.actions, input.actionId).value.risk);
        StrictestOfTwo(baseline, matched.value.decision);
        assert matched.value in TierOf(input);
      }
    }
    hide FindAction, HasAllScopes, HasAllCapabilities, Tier, IsRiskClass, StrictestRank;
  }

  /** R4 is denied whatever the rules say, and no rule ever loosens a baseline. */
  lemma BaselineStands(input: Input)
    requires Admissible(input)
    ensures Rank(EvaluatePolicy(input).decision) >= Baseline(input)
    ensures FindAction(input.connector.actions, input.actionId).value.risk == "R4" ==> EvaluatePolicy(input).decision == DENY
  {
    DecisionIsTheMaximum(input);
  }

  // ----- order and repetition of the rules

  ghost predicate SameRules(a: seq<Stored>, b: seq<Stored>) {
    forall r :: r in a <==> r in b
  }

  lemma MaximumIsUnique(r: nat, s: nat, baseline: nat, t: seq<Stored>, u: seq<Stored>)
    requires AllRules(t) && AllRules(u) && SameRules(t, u)
    requires IsMaximum(r, baseline, t) && IsMaximum(s, baseline, u)
    ensures r == s
  {
  }

  lemma SameTier(a: seq<Stored>, b: seq<Stored>, connectorId: string, actionId: string)
    requires SameRules(a, b)
    ensures SameRules(Tier(a, connectorId, actionId), Tier(b, connectorId, actionId))
    ensures Tier(a, connectorId, actionId) == [] <==> Tier(b, connectorId, actionId) == []
  {
    var x, y := Exact(a, connectorId, actionId), Exact(b, connectorId, actionId);
    if x != [] { assert x[0] in y; }
    if y != [] { assert y[0] in x; }
    var u, v := Exact(a, connectorId, WILDCARD_ACTION), Exact(b, connectorId, WILDCARD_ACTION);
    if u != [] { assert u[0] in v; }
    if v != [] { assert v[0] in u; }
  }

  /** Storage may return the rules in any order and any of them repeatedly: same decision, same reason. */
  lemma OrderDoesNotMatter(input: Input, other: seq<Stored>)
    requires SameRules(input.rules, other)
    ensures var e, f := EvaluatePolicy(input), EvaluatePolicy(input.(rules := other));
            e.decision == f.decision && e.reason == f.reason
  {
    var n := input.(rules := other);
    SameTier(input.rules, other, input.connector.id, input.actionId);
    FoundActionHasId(input.connector.actions, input.actionId);
    if Admissible(input) {
      DecisionIsTheMaximum(input);
      DecisionIsTheMaximum(n);
      MaximumIsUnique(Rank(EvaluatePolicy(input).decision), Rank(EvaluatePolicy(n).decision), Baseline(input), TierOf(input), TierOf(n));
      var p, q := Picked(TierOf(input)), Picked(TierOf(n));
      if p.Some? { assert p.value in TierOf(n) && q.value in TierOf(input); }
    }
    hide FindAction, HasAllScopes, HasAllCapabilities, Tier, IsRiskClass, StrictestRank;
  }

  // ----- one more rule

  function Added(input: Input, rule: Stored): Input {
    input.(rules := input.rules + [rule])
  }

  /** The new rule names the action itself where only wildcard rules did, and is milder than one of those. */
  predicate Overrides(input: Input, rule: Stored)
    requires Admissible(input)
  {
    && rule.Rule? && rule.connectorId == input.connector.id && rule.actionId == input.actionId
    && Exact(input.rules, input.connector.id, input.actionId) == []
    && exists w :: w in TierOf(input) && Rank(w.decision) > Max(Rank(rule.decision), Baseline(input))
  }

  lemma TierOfAdded(input: Input, rule: Stored)
    ensures var exact := rule.Rule? && rule.connectorId == input.connector.id && rule.actionId == input.actionId;
            var takesOver := exact && Exact(input.rules, input.connector.id, input.actionId) == [];
            && (takesOver ==> SameRules(TierOf(Added(input, rule)), [rule]))
            && (!takesOver ==> forall r :: r in TierOf(input) ==> r in TierOf(Added(input, rule)))
  {
    var n := Added(input, rule);
    var x, y := Exact(input.rules, input.connector.id, input.actionId), Exact(n.rules, input.connector.id, input.actionId);
    if x != [] { assert x[0] in y; }
    if y != [] { assert y[0] in y; }
    if rule.Rule? && rule.connectorId == input.connector.id && rule.actionId == input.actionId { assert rule in y; }
    forall r ensures r in n.rules <==> r in input.rules || r == rule {
    }
  }

  /** Adding a rule never loosens the decision, except by overriding a stricter wildcard rule for the action. */
  lemma AddingTightens(input: Input, rule: Stored)
    requires Admissible(input)
    ensures Rank(EvaluatePolicy(Added(input, rule)).decision) >= Rank(EvaluatePolicy(input).decision) <==> !Overrides(input, rule)
  {
    DecisionIsTheMaximum(input);
    DecisionIsTheMaximum(Added(input, rule));
    TierOfAdded(input, rule);
    hide FindAction, HasAllScopes, HasAllCapabilities, Tier, EvaluatePolicy, Exact, TierOf, IsRiskClass;
  }

  // ----- the decision in full

  /** The first action with the id, if there is one. */
  ghost predicate IsFirst(actions: seq<Action>, id: string, a: Action) {
    exists i :: 0 <= i < |actions| && actions[i] == a && a.id == id && forall j :: 0 <= j < i ==> actions[j].id != id
  }

  lemma {:induction false} FindsTheFirst(actions: seq<Action>, id: string)
    ensures FindAction(actions, id).None? <==> forall a :: a in actions ==> a.id != id
    ensures FindAction(actions, id).Some? ==> IsFirst(actions, id, FindAction(actions, id).value)
    decreases |actions|
  {
    if actions != [] {
      FindsTheFirst(actions[1..], id);
      if actions[0].id == id {
        assert IsFirst(actions, id, actions[0]);
      } else if FindAction(actions[1..], id).Some? {
        var a := FindAction(actions[1..], id).value;
        var i :| 0 <= i < |actions[1..]| && actions[1..][i] == a && a.id == id && forall j :: 0 <= j < i ==> actions[1..][j].id != id;
        assert forall j :: 0 <= j < i + 1 ==> actions[j].id != id by {
          assert forall j :: 1 <= j < i + 1 ==> actions[j] == actions[1..][j - 1];
        }
        assert actions[i + 1] == a;
      }
      assert actions == [actions[0]] + actions[1..];
    }
  }

  /** Every scope the action requires is granted. */
  ghost predicate ScopesHeld(input: Input, a: Action) {
    forall s :: s in a.requiredScopes ==> s in input.scopes
  }

  /** Every capability it requires is announced, under its own name or, if that does not name the connector, qualified by it. */
  ghost predicate CapabilitiesHeld(input: Input, a: Action) {
    forall c :: c in a.requiredCapabilities ==>
      if input.connector.id + ":" <= c then c in input.deviceCapabilities
      else input.connector.id + ":" + c in input.deviceCapabilities
  }

  /** The stored rule speaks for the call: it names the action, or every action where no rule names this one. */
  ghost predicate Applies(input: Input, r: Stored) {
    && r in input.rules && r.Rule? && r.connectorId == input.connector.id
    && (r.actionId == input.actionId
        || (r.actionId == "*" && forall x :: x in input.rules && x.Rule? && x.connectorId == input.connector.id ==> x.actionId != input.actionId))
  }

  lemma TierApplies(input: Input, r: Stored)
    ensures r in TierOf(input) <==> Applies(input, r)
  {
    var exact := Exact(input.rules, input.connector.id, input.actionId);
    if exact != [] { assert exact[0] in exact; }
  }

  /** Which check refuses a call, in order; after them the reason says whether a rule or the risk decided. */
  lemma ReasonIsTheFirst(input: Input, a: Action)
    requires IsFirst(input.connector.actions, input.actionId, a)
    ensures var e := EvaluatePolicy(input);
            && e.reason != UnknownAction
            && (e.reason == MissingScope <==> !ScopesHeld(input, a))
            && (e.reason == MissingCapability <==> ScopesHeld(input, a) && !CapabilitiesHeld(input, a))
            && (e.reason == InvalidRisk <==>
                  ScopesHeld(input, a) && CapabilitiesHeld(input, a) && a.risk !in {"R0", "R1", "R2", "R3", "R4"})
            && (e.reason in {MissingScope, MissingCapability, InvalidRisk} ==> e.decision == DENY && e.matchedRule == None)
  {
    FindsTheFirst(input.connector.actions, input.actionId);
    hide FindAction, Tier, StrictestRank;
  }

  lemma UnknownIsDenied(input: Input)
    ensures EvaluatePolicy(input).reason == UnknownAction <==> forall a :: a in input.connector.actions ==> a.id != input.actionId
    ensures EvaluatePolicy(input).reason == UnknownAction ==> EvaluatePolicy(input).decision == DENY
  {
    FindsTheFirst(input.connector.actions, input.actionId);
    hide FindAction, Tier, StrictestRank, HasAllScopes, HasAllCapabilities;
  }

  /**
   * The decision in full. A call is allowed exactly if its scopes and capabilities are held, its risk is R0 or R1 and
   * every rule that applies says ALLOW; it needs approval exactly if it would be allowed but for a risk of R2 or R3 or
   * for rules that ask for approval; in all other cases it is denied.
   */
  lemma DecisionInFull(input: Input, a: Action)
    requires IsFirst(input.connector.actions, input.actionId, a)
    ensures var d, held := EvaluatePolicy(input).decision, ScopesHeld(input, a) && CapabilitiesHeld(input, a);
            && (d == "ALLOW" <==> held && a.risk in {"R0", "R1"} && forall r :: Applies(input, r) ==> r.decision == "ALLOW")
            && (d == "ALLOW" || d == "REQUIRE_APPROVAL" <==>
                  held && a.risk in {"R0", "R1", "R2", "R3"}
                  && forall r :: Applies(input, r) ==> r.decision == "ALLOW" || r.decision == "REQUIRE_APPROVAL")
            && IsDecision(d)
  {
    FindsTheFirst(input.connector.actions, input.actionId);
    var found := FindAction(input.connector.actions, input.actionId).value;
    FirstIsUnique(input.connector.actions, input.actionId, a, found);
    DecisionIsTheMaximum(input);
    assert Admissible(input) <==> ScopesHeld(input, a) && CapabilitiesHeld(input, a) && a.risk in {"R0", "R1", "R2", "R3", "R4"};
    forall r ensures r in TierOf(input) <==> Applies(input, r) { TierApplies(input, r); }
    hide FindAction, Tier, TierOf, Applies, EvaluatePolicy, ScopesHeld, CapabilitiesHeld, HasAllScopes, HasAllCapabilities, IsFirst;
  }

  lemma FirstIsUnique(actions: seq<Action>, id: string, a: Action, b: Action)
    requires IsFirst(actions, id, a) && IsFirst(actions, id, b)
    ensures a == b
  {
  }
}
