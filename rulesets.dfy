/**
 * Resolving the rulesets named on the command line through a ruleset
 * factory, failing when a ruleset is not found or no rule is found.
 */
module RulesetsFactoryUtils {

  datatype RuleSet = RuleSet(name: string, rules: seq<string>)

  datatype RuleSets = RuleSets(ruleSets: seq<RuleSet>)

  /** `ruleCount`: the number of rules over all rulesets. */
  function RuleCount(rs: seq<RuleSet>): (n: nat)
    ensures rs == [] ==> n == 0
  {
    if rs == [] then 0 else RuleCount(rs[..|rs| - 1]) + |rs[|rs| - 1].rules|
  }

  /** What `createRuleSets` gives: the rulesets, or a not-found exception. */
  datatype FactoryOutcome = Created(ruleSets: RuleSets) | RuleSetNotFound(message: string)

  /** The `IllegalArgumentException` of `getRuleSets`: its message, or the
      not-found exception it wraps. */
  datatype ConfigError = NoRulesFound(message: string) | WrappedNotFound(cause: string)

  datatype Result = Success(ruleSets: RuleSets) | IllegalArgument(error: ConfigError)

  /** The message for a request that found no rule; it names the request. */
  function NoRulesMessage(rulesets: string): string
  {
    "No rules found. Maybe you mispelled a rule name? (" + rulesets + ")"
  }

  /** `getRuleSets`: the factory's rulesets when they hold a rule; an
      illegal-argument failure otherwise. */
  function GetRuleSets(rulesets: string, factory: string -> FactoryOutcome): (r: Result)
    ensures r.Success? ==> factory(rulesets) == Created(r.ruleSets) && RuleCount(r.ruleSets.ruleSets) > 0
    ensures factory(rulesets).Created? && RuleCount(factory(rulesets).ruleSets.ruleSets) > 0 ==> r.Success?
    ensures factory(rulesets).Created? && RuleCount(factory(rulesets).ruleSets.ruleSets) == 0 ==>
              r == IllegalArgument(NoRulesFound(NoRulesMessage(rulesets)))
    ensures factory(rulesets).RuleSetNotFound? ==>
              r == IllegalArgument(WrappedNotFound(factory(rulesets).message))
  {
    match factory(rulesets)
    case RuleSetNotFound(message) => IllegalArgument(WrappedNotFound(message))
    case Created(ruleSets) =>
      if RuleCount(ruleSets.ruleSets) == 0 then IllegalArgument(NoRulesFound(NoRulesMessage(rulesets)))
      else Success(ruleSets)
  }

  /** `getRuleSetsWithBenchmark`: the same outcome; the timing is not modelled. */
  function GetRuleSetsWithBenchmark(rulesets: string, factory: string -> FactoryOutcome): (r: Result)
    ensures r == GetRuleSets(rulesets, factory)
  {
    GetRuleSets(rulesets, factory)
  }

  predicate Contains(s: string, part: string)
  {
    exists i :: 0 <= i <= |s| && part <= s[i..]
  }

  /** A message for a request that found no rule contains the request. */
  lemma NoRulesMessageNamesRequest(rulesets: string)
    ensures Contains(NoRulesMessage(rulesets), rulesets)
  {
    var prefix := "No rules found. Maybe you mispelled a rule name? (";
    var m := NoRulesMessage(rulesets);
    assert m == prefix + rulesets + ")";
    assert rulesets <= m[|prefix|..];
  }

  /** The two failures are distinct: a request is either unresolvable or
      resolves to no rule, never both. */
  lemma FailuresAreDistinct(rulesets: string, factory: string -> FactoryOutcome)
    ensures GetRuleSets(rulesets, factory).IllegalArgument? ==>
              (GetRuleSets(rulesets, factory).error.WrappedNotFound? <==> factory(rulesets).RuleSetNotFound?)
  {
  }

  datatype RulePriority = High | MediumHigh | Medium | MediumLow | Low

  datatype PmdConfiguration = PmdConfiguration(minimumPriority: RulePriority, ruleSetFactoryCompatibility: bool)

  /** The arguments a ruleset factory is built from; the resource loader is
      not modelled. */
  datatype RuleSetFactory = RuleSetFactory(minimumPriority: RulePriority, warnDeprecated: bool,
                                           enableCompatibility: bool)

  /** `getRulesetFactory`: the configuration's minimum priority, deprecation
      warnings on, and the configuration's compatibility flag. */
  function GetRulesetFactory(configuration: PmdConfiguration): (f: RuleSetFactory)
    ensures f.minimumPriority == configuration.minimumPriority
    ensures f.warnDeprecated
    ensures f.enableCompatibility == configuration.ruleSetFactoryCompatibility
  {
    RuleSetFactory(configuration.minimumPriority, true, configuration.ruleSetFactoryCompatibility)
  }
}
