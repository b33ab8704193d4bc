# PMD rule and metrics core, modelled in Dafny

This project models four pieces of the PMD static analyser and proves properties about them.

- **The metrics computer** (`AbstractMetricsComputer`). It serves "look up, else compute and store" requests against a per-node memoizer. It also answers type-level requests: it collects the metric of every supported operation of a type, memoized per qualified operation name, and reduces the values by SUM, HIGHEST or AVERAGE.
- **Four Java design rules.**
  - `ExcessiveImports`, `ExcessiveParameterList` and `ExcessiveMethodCount` are depth-first visitors. They count nodes of a counted class below each node. On each node of the target class that the visitor reaches and that is not itself counted, they record a data point and a violation scored by that count. A counted node returns 1 without being visited. ExcessiveMethodCount targets and counts the same class, so once its counting method is reached it records nothing on any tree; if that method is not reached, every method gets a point scored 0.
  - `ExcessiveClassLength` scores every type declaration by its line span. It records a violation when the span is positive.
- **Ruleset resolution** (`RulesetsFactoryUtils`). It resolves the requested rulesets through a factory. It fails with an illegal-argument error when a ruleset is not found or when no rule is found.
- **The Apex security helpers** (`Helper`). These cover:
  - the system-level interface whitelist;
  - test detection;
  - DML and SOQL/SOSL detection;
  - case-insensitive method-name and call-chain matching;
  - the `Type:name` keys under which variables are tracked.

## How the model is built

Files and modules:

| file | module |
|---|---|
| `wrappers.dfy` | `Wrappers` |
| `metric_values.dfy` | `MetricValues` |
| `memoization.dfy` | `Memoization` |
| `metrics_computer.dfy` | `MetricsComputer` |
| `metrics_properties.dfy` | `MetricsProperties` |
| `java_ast.dfy` | `JavaAst` |
| `stat.dfy` | `Stat` |
| `node_count_rules.dfy` | `ExcessiveNodeCount` |
| `class_length_rule.dfy` | `ExcessiveClassLength` |
| `rulesets.dfy` | `RulesetsFactoryUtils` |
| `strings.dfy` | `Strings` |
| `apex_ast.dfy` | `ApexAst` |
| `apex_helper.dfy` | `ApexSecurityHelper` |

Modelling choices:

- **Metric values.** A Java `double` is `Value = NaN | Num(real)`. `+` absorbs NaN. `>` is false against NaN. `0.0 / 0` is NaN.
- **Memoizers and rules.** These are classes whose methods update their fields. Each method's `ensures` ties the new state to a specification function of the old state: `Compute`, `CollectFrom`, `Points`, `LengthPoints`. Lemmas prove what the source promises about those functions.
- **Loops.** The `sum`, `highest` and operation loops are `for` loops. The child loops of the visitors and the Apex `for` scans are `while` loops. Loop invariants tie them to the same functions.
- **Pure code.** Code made of expressions (the `Helper` predicates and key builders, `getRuleSets`) is functions.
- **Parameters.** Collaborators the core calls but does not define are parameters:
  - `findOperations` and the operations' qualified names;
  - a metric's calculator and support predicate;
  - the ruleset factory;
  - the visitor dispatch of the method-count rule.

The model follows the code as written. Cases worth noting:

- The operation loop keeps NaN values (see Findings).
- AVERAGE of no values is NaN, as Java's `0.0 / 0` gives.
- ExcessiveImports, ExcessiveParameterList and ExcessiveMethodCount add a violation for every data point they record. ExcessiveClassLength adds one only for a positive span. The strict "greater than the minimum" filtering happens elsewhere in PMD and is not part of these files.
- The violation carries the score as a number, not as a formatted string.

## Model

| member | source | states |
|---|---|---|
| MetricValues.Add | pmd-core/src/main/java/net/sourceforge/pmd/lang/metrics/AbstractMetricsComputer.java:100-106 | the `+=` of the sum loop is NaN exactly when an operand is NaN, else the real sum |
| MetricValues.AverageOf | pmd-core/src/main/java/net/sourceforge/pmd/lang/metrics/AbstractMetricsComputer.java:120-122 | the average of no values is NaN (0.0 / 0), of values with a NaN among them NaN, and otherwise the arithmetic sum divided by the count |
| MetricValues.SumOfIsArithmeticSum | pmd-core/src/main/java/net/sourceforge/pmd/lang/metrics/AbstractMetricsComputer.java:100-106 | the sum is NaN iff some value is NaN, otherwise the arithmetic sum; the empty sum is 0 |
| MetricValues.RunningHighestIsMaximum | pmd-core/src/main/java/net/sourceforge/pmd/lang/metrics/AbstractMetricsComputer.java:109-115 | the accumulator stays at negative infinity iff no value is a number; otherwise it is one of the values and no number exceeds it |
| MetricValues.HighestOfIsMaximum | pmd-core/src/main/java/net/sourceforge/pmd/lang/metrics/AbstractMetricsComputer.java:109-117 | highest is 0 when no value is a number (never negative infinity), else the largest number present |
| MetricValues.AggregationExample | pmd-core/src/main/java/net/sourceforge/pmd/lang/metrics/AbstractMetricsComputer.java:76-85 | for values 2, 5, 3: SUM 10, HIGHEST 5, AVERAGE 10/3 |
| Memoization.ParamKeyOf | pmd-core/src/main/java/net/sourceforge/pmd/lang/metrics/AbstractMetricsComputer.java:28 | the memo key is made of the metric's name and the options |
| Memoization.ComputeHit | pmd-core/src/main/java/net/sourceforge/pmd/lang/metrics/AbstractMetricsComputer.java:30-33 | an unforced request on a present key returns the stored value and changes nothing |
| Memoization.StoredNaNIsPresent | pmd-core/src/main/java/net/sourceforge/pmd/lang/metrics/AbstractMetricsComputer.java:29-33 | a stored NaN counts as present: it is returned and the calculator does not run |
| Memoization.ComputeMiss | pmd-core/src/main/java/net/sourceforge/pmd/lang/metrics/AbstractMetricsComputer.java:35-38 | a forced or absent request returns the calculator's value, stores it and keeps every other entry |
| Memoization.ComputeIdempotent | pmd-core/src/main/java/net/sourceforge/pmd/lang/metrics/AbstractMetricsComputer.java:25-39 | after any request an unforced repeat returns the same value without computing |
| Memoization.MetricMemoizer.GetMemo | pmd-core/src/main/java/net/sourceforge/pmd/lang/metrics/AbstractMetricsComputer.java:30 | the lookup is present iff the key was stored, with the stored value |
| Memoization.MetricMemoizer.Memoize | pmd-core/src/main/java/net/sourceforge/pmd/lang/metrics/AbstractMetricsComputer.java:36 | storing sets exactly that key |
| Memoization.ProjectMemoizer.GetOperationMemoizer | pmd-core/src/main/java/net/sourceforge/pmd/lang/metrics/AbstractMetricsComputer.java:67 | returns the memoizer registered under the name, creating an empty fresh one for a new name; no other memo changes |
| MetricsComputer.ComputeForType | pmd-core/src/main/java/net/sourceforge/pmd/lang/metrics/AbstractMetricsComputer.java:25-39 | returned value, new memo and whether the calculator ran are those of `Compute` on the old memo |
| MetricsComputer.ComputeForOperation | pmd-core/src/main/java/net/sourceforge/pmd/lang/metrics/AbstractMetricsComputer.java:43-55 | the same request on an operation node |
| MetricsComputer.ComputeTwice | pmd-core/src/main/java/net/sourceforge/pmd/lang/metrics/AbstractMetricsComputer.java:29-33 | two unforced requests in a row return the same value, which is then stored under the key |
| MetricsComputer.NotEqualNaNAlwaysHolds | pmd-core/src/main/java/net/sourceforge/pmd/lang/metrics/AbstractMetricsComputer.java:69 | `val != Double.NaN` holds of every value, NaN included |
| MetricsComputer.ComputeWithResultOption | pmd-core/src/main/java/net/sourceforge/pmd/lang/metrics/AbstractMetricsComputer.java:59-86 | the result is the requested reduction of the values the operation loop collects, and the project memos are the loop's; NaN for an unknown policy |
| MetricsComputer.MemoizeOperation | pmd-core/src/main/java/net/sourceforge/pmd/lang/metrics/AbstractMetricsComputer.java:66-68 | one supported operation: the request runs against its name's memo, and only that memo changes |
| MetricsComputer.Sum | pmd-core/src/main/java/net/sourceforge/pmd/lang/metrics/AbstractMetricsComputer.java:100-106 | the loop computes `SumOf`: NaN iff some value is NaN, else the arithmetic sum |
| MetricsComputer.Highest | pmd-core/src/main/java/net/sourceforge/pmd/lang/metrics/AbstractMetricsComputer.java:109-117 | the loop computes `HighestOf`: 0 with no number, else the largest number present |
| MetricsComputer.Average | pmd-core/src/main/java/net/sourceforge/pmd/lang/metrics/AbstractMetricsComputer.java:120-122 | the loop-free `AverageOf`: NaN for no values and for values with a NaN among them, else the arithmetic mean |
| MetricsProperties.CollectedOnePerSupported | pmd-core/src/main/java/net/sourceforge/pmd/lang/metrics/AbstractMetricsComputer.java:65-73 | one value per supported operation; unsupported ones contribute nothing |
| MetricsProperties.ForcedCollectComputesEach | pmd-core/src/main/java/net/sourceforge/pmd/lang/metrics/AbstractMetricsComputer.java:65-73 | a forced request collects each supported operation's freshly calculated value, in order |
| MetricsProperties.CollectReusesMemo | pmd-core/src/main/java/net/sourceforge/pmd/lang/metrics/AbstractMetricsComputer.java:65-73 | an unforced request over memoized operations returns the stored values and changes no memo |
| MetricsProperties.CollectLeavesOtherNames | pmd-core/src/main/java/net/sourceforge/pmd/lang/metrics/AbstractMetricsComputer.java:65-73 | a name no supported operation has keeps its memo or its absence |
| MetricsProperties.CollectStoresEachValue | pmd-core/src/main/java/net/sourceforge/pmd/lang/metrics/AbstractMetricsComputer.java:65-73 | with distinct names, each operation's memo ends up holding the value collected for it |
| MetricsProperties.CollectIdempotent | pmd-core/src/main/java/net/sourceforge/pmd/lang/metrics/AbstractMetricsComputer.java:59-73 | with distinct names, a second unforced request collects the same values and changes no memo |
| MetricsProperties.DropNaN | pmd-core/src/main/java/net/sourceforge/pmd/lang/metrics/AbstractMetricsComputer.java:69-71 | the intended filter keeps no NaN, keeps every number that occurs and adds nothing; multiplicity and order are stated by `DropNaNKeepsCounts` and `DropNaNAppend` |
| MetricsProperties.DropNaNKeepsCounts | pmd-core/src/main/java/net/sourceforge/pmd/lang/metrics/AbstractMetricsComputer.java:69-71 | every number occurs among the kept values as often as among all values |
| MetricsProperties.DropNaNAppend | pmd-core/src/main/java/net/sourceforge/pmd/lang/metrics/AbstractMetricsComputer.java:65-73 | skipping NaN distributes over concatenation, so the kept values keep the loop's order |
| MetricsProperties.DropNaNSingle | pmd-core/src/main/java/net/sourceforge/pmd/lang/metrics/AbstractMetricsComputer.java:69-71 | one value is kept exactly when it is a number |
| MetricsProperties.IntendedAggregateIsNumber | pmd-core/src/main/java/net/sourceforge/pmd/lang/metrics/AbstractMetricsComputer.java:69-85 | with NaN skipped, SUM and HIGHEST are numbers, and AVERAGE is one iff some operation gave a number |
| MetricsProperties.NaNOperationPoisonsSum | pmd-core/src/main/java/net/sourceforge/pmd/lang/metrics/AbstractMetricsComputer.java:69 | as written, an operation whose metric is NaN makes the SUM NaN, where skipping it gives 2 |
| Stat.AsViolations | pmd-java/src/main/java/net/sourceforge/pmd/lang/java/rule/design/ExcessiveImportsRule.java:44-46 | one violation per data point, in order, each on the point's node with the point's score |
| Stat.PositiveAsViolationsChar | pmd-java/src/main/java/net/sourceforge/pmd/lang/java/rule/design/ExcessiveClassLengthRule.java:29-33 | a violation is added exactly for the data points with a positive score |
| ExcessiveNodeCount.ScoreCountsReached | pmd-java/src/main/java/net/sourceforge/pmd/lang/java/rule/design/ExcessiveImportsRule.java:30-62 | for every tree, the count returned for a node is the number of counted-class nodes the visitor reaches at and below it (it does not descend below a counted node) |
| ExcessiveNodeCount.SumScoresCountsReached | pmd-java/src/main/java/net/sourceforge/pmd/lang/java/rule/design/ExcessiveImportsRule.java:33-36 | for every list of children, their summed counts are the number of counted-class nodes the visitor reaches in them |
| ExcessiveNodeCount.ScoreCountsCounted | pmd-java/src/main/java/net/sourceforge/pmd/lang/java/rule/design/ExcessiveImportsRule.java:59-62 | corollary: when no counted node lies below another, the count is the number of counted-class nodes in the whole subtree |
| ExcessiveNodeCount.SumScoresCountsCounted | pmd-java/src/main/java/net/sourceforge/pmd/lang/java/rule/design/ExcessiveImportsRule.java:33-36 | corollary: when no counted node lies below another, the children's sum is the number of counted-class nodes in their subtrees |
| ExcessiveNodeCount.NoOverrideScoresZero | pmd-java/src/main/java/net/sourceforge/pmd/lang/java/rule/design/ExcessiveMethodCountRule.java:16-40 | if dispatch never reaches the counting override, every count is 0 |
| ExcessiveNodeCount.PointsAreReachedTargets | pmd-java/src/main/java/net/sourceforge/pmd/lang/java/rule/design/ExcessiveImportsRule.java:38-47 | a data point is recorded exactly for each reached, uncounted target node, with its subtree count |
| ExcessiveNodeCount.SameClassNoPoints | pmd-java/src/main/java/net/sourceforge/pmd/lang/java/rule/design/ExcessiveMethodCountRule.java:10-40 | when the target class is the counted class (method-count rule with its counting method reached), no data point is recorded on any tree |
| ExcessiveNodeCount.ImportCountExample | pmd-java/src/main/java/net/sourceforge/pmd/lang/java/rule/design/ExcessiveImportsRule.java:30-62 | a compilation unit with three imports is scored 3, one with none is scored 0 |
| ExcessiveNodeCount.NodeCountRule.Imports | pmd-java/src/main/java/net/sourceforge/pmd/lang/java/rule/design/ExcessiveImportsRule.java:24-27 | targets compilation units, counts import declarations, minimum 1 |
| ExcessiveNodeCount.NodeCountRule.ParameterList | pmd-java/src/main/java/net/sourceforge/pmd/lang/java/rule/design/ExcessiveParameterListRule.java:19-28 | targets parameter lists, counts formal parameters, minimum 10 |
| ExcessiveNodeCount.NodeCountRule.MethodCount | pmd-java/src/main/java/net/sourceforge/pmd/lang/java/rule/design/ExcessiveMethodCountRule.java:10-13 | targets method and constructor declarations, minimum 1, counting override given by dispatch |
| ExcessiveNodeCount.NodeCountRule.Accept | pmd-java/src/main/java/net/sourceforge/pmd/lang/java/rule/design/ExcessiveImportsRule.java:59-62 | a counted node returns 1 and records nothing; any other node is visited; the configured minimum is unchanged |
| ExcessiveNodeCount.NodeCountRule.Visit | pmd-java/src/main/java/net/sourceforge/pmd/lang/java/rule/design/ExcessiveImportsRule.java:30-50 | returns the subtree count and appends the subtree's data points and violations, children first; the same visit is `ExcessiveParameterListRule.java` lines 31-51 and `ExcessiveMethodCountRule.java` lines 16-36; the configured minimum is unchanged |
| ExcessiveNodeCount.NodeCountRule.SumChildren | pmd-java/src/main/java/net/sourceforge/pmd/lang/java/rule/design/ExcessiveImportsRule.java:33-36 | the child loop adds up the children's counts and appends their points, left to right; the configured minimum is unchanged |
| ExcessiveClassLength.LengthPointsPerTypeDeclaration | pmd-java/src/main/java/net/sourceforge/pmd/lang/java/rule/design/ExcessiveClassLengthRule.java:22-37 | one data point per type declaration of the tree, nested ones included, in pre-order |
| ExcessiveClassLength.PointsAreTypeDeclarationSpans | pmd-java/src/main/java/net/sourceforge/pmd/lang/java/rule/design/ExcessiveClassLengthRule.java:23-28 | every point is a type declaration of the tree scored by its line span, and every such declaration has one |
| ExcessiveClassLength.ViolationsArePositiveSpans | pmd-java/src/main/java/net/sourceforge/pmd/lang/java/rule/design/ExcessiveClassLengthRule.java:29-33 | violations are exactly the type declarations of the tree with a positive span |
| ExcessiveClassLength.ClassLengthExample | pmd-java/src/main/java/net/sourceforge/pmd/lang/java/rule/design/ExcessiveClassLengthRule.java:22-37 | a class over lines 10 to 1011 is scored 1001 and reported |
| ExcessiveClassLength.ExcessiveClassLengthRule.constructor | pmd-java/src/main/java/net/sourceforge/pmd/lang/java/rule/design/ExcessiveClassLengthRule.java:16-19 | targets any type declaration, minimum 1 |
| ExcessiveClassLength.ExcessiveClassLengthRule.Visit | pmd-java/src/main/java/net/sourceforge/pmd/lang/java/rule/design/ExcessiveClassLengthRule.java:22-37 | appends the node's own point first, then the children's; violations for positive spans only; the configured minimum is unchanged |
| ExcessiveClassLength.ExcessiveClassLengthRule.ChildrenAccept | pmd-java/src/main/java/net/sourceforge/pmd/lang/java/rule/design/ExcessiveClassLengthRule.java:36 | visits every child left to right, appending their points and violations; the configured minimum is unchanged |
| RulesetsFactoryUtils.GetRuleSets | pmd-core/src/main/java/net/sourceforge/pmd/RulesetsFactoryUtils.java:35-50 | success iff the factory resolves the request to rulesets with a rule; otherwise the no-rules error or the wrapped not-found error |
| RulesetsFactoryUtils.NoRulesMessageNamesRequest | pmd-core/src/main/java/net/sourceforge/pmd/RulesetsFactoryUtils.java:41 | the no-rules message contains the request |
| RulesetsFactoryUtils.FailuresAreDistinct | pmd-core/src/main/java/net/sourceforge/pmd/RulesetsFactoryUtils.java:35-50 | a failure wraps a not-found error iff the factory did not find a ruleset |
| RulesetsFactoryUtils.GetRuleSetsWithBenchmark | pmd-core/src/main/java/net/sourceforge/pmd/RulesetsFactoryUtils.java:65-69 | the same outcome as without the benchmark |
| RulesetsFactoryUtils.GetRulesetFactory | pmd-core/src/main/java/net/sourceforge/pmd/RulesetsFactoryUtils.java:71-75 | the configuration's minimum priority and compatibility flag, deprecation warnings on |
| ApexAst.FindChildrenOfType | pmd-apex/src/main/java/net/sourceforge/pmd/lang/apex/rule/security/Helper.java:53 | a node is in the result iff it is a child of the kind (membership only; order and multiplicity are not stated, and the helper uses only existence) |
| ApexAst.FirstChildOfType | pmd-apex/src/main/java/net/sourceforge/pmd/lang/apex/rule/security/Helper.java:94 | the first child of the kind in child order when one exists (no earlier child has the kind), none otherwise |
| ApexAst.FindDescendantsOfType | pmd-apex/src/main/java/net/sourceforge/pmd/lang/apex/rule/security/Helper.java:65 | exactly the descendants of the kind; empty iff there is none |
| ApexSecurityHelper.IsWhitelisted | pmd-apex/src/main/java/net/sourceforge/pmd/lang/apex/rule/security/Helper.java:194-214 | true iff the identifiers joined with dots, lowercased, are one of the three whitelisted names |
| ApexSecurityHelper.WhitelistByParts | pmd-apex/src/main/java/net/sourceforge/pmd/lang/apex/rule/security/Helper.java:194-214 | for dot-free identifiers: whitelisted iff the lowercased identifiers are `[queueable]`, `[database, batchable]` or `[installhandler]` |
| ApexSecurityHelper.EmptyIsNotWhitelisted | pmd-apex/src/main/java/net/sourceforge/pmd/lang/apex/rule/security/Helper.java:197-203 | the empty identifier list joins to "" and is not whitelisted |
| ApexSecurityHelper.DatabaseBatchableIsWhitelisted | pmd-apex/src/main/java/net/sourceforge/pmd/lang/apex/rule/security/Helper.java:205-209 | `Database.Batchable` in mixed case is whitelisted |
| ApexSecurityHelper.IsSystemLevelClass | pmd-apex/src/main/java/net/sourceforge/pmd/lang/apex/rule/security/Helper.java:182-192 | true iff some interface of the class is whitelisted |
| ApexSecurityHelper.IsTestMethodOrClass | pmd-apex/src/main/java/net/sourceforge/pmd/lang/apex/rule/security/Helper.java:52-62 | true iff some modifier child is a test modifier or the defining type's name ends with `Test` |
| ApexSecurityHelper.FoundAnySoqlOrSosl | pmd-apex/src/main/java/net/sourceforge/pmd/lang/apex/rule/security/Helper.java:64-69 | true iff some descendant is a SOQL or SOSL query |
| ApexSecurityHelper.FoundAnyDml | pmd-apex/src/main/java/net/sourceforge/pmd/lang/apex/rule/security/Helper.java:78-90 | true iff some descendant is one of the six DML statements |
| ApexSecurityHelper.IsCallNamed | pmd-apex/src/main/java/net/sourceforge/pmd/lang/apex/rule/security/Helper.java:105-107 | the call's name and the given one have the same length and agree letter by letter ignoring case |
| ApexSecurityHelper.IsMethodName | pmd-apex/src/main/java/net/sourceforge/pmd/lang/apex/rule/security/Helper.java:101-103 | the node's call is named the given name ignoring case |
| ApexSecurityHelper.IsMethodNameOf | pmd-apex/src/main/java/net/sourceforge/pmd/lang/apex/rule/security/Helper.java:92-99 | the first reference has exactly one name, equal to the class ignoring case, and the method matches ignoring case unless it is `*` |
| ApexSecurityHelper.IsMethodCallChain | pmd-apex/src/main/java/net/sourceforge/pmd/lang/apex/rule/security/Helper.java:109-129 | no names means an index-out-of-bounds failure; a match requires the call to be named the last name |
| ApexSecurityHelper.ChainMatchesItsNames | pmd-apex/src/main/java/net/sourceforge/pmd/lang/apex/rule/security/Helper.java:109-129 | an argument-free chain `C.m1()…mk()` matches exactly the names `C, m1, …, mk` ignoring case |
| ApexSecurityHelper.SingleCallChain | pmd-apex/src/main/java/net/sourceforge/pmd/lang/apex/rule/security/Helper.java:119-124 | with no nested call, a match needs exactly two names, the class and the method |
| ApexSecurityHelper.NestedCallChain | pmd-apex/src/main/java/net/sourceforge/pmd/lang/apex/rule/security/Helper.java:111-118 | with a nested call, the match recurses on it with the last name dropped, after the last name matched |
| ApexSecurityHelper.QualifyIsInjective | pmd-apex/src/main/java/net/sourceforge/pmd/lang/apex/rule/security/Helper.java:141-142 | for colon-free type names, `Type:name` keys are equal iff types and names are |
| ApexSecurityHelper.FQVariableExpressionName | pmd-apex/src/main/java/net/sourceforge/pmd/lang/apex/rule/security/Helper.java:131-144 | `Type:obj.name` when reached through a single-name reference `obj`, else `Type:name` |
| ApexSecurityHelper.FQVariableDeclarationName | pmd-apex/src/main/java/net/sourceforge/pmd/lang/apex/rule/security/Helper.java:146-151 | the key of a local declaration from its local name |
| ApexSecurityHelper.FQFieldName | pmd-apex/src/main/java/net/sourceforge/pmd/lang/apex/rule/security/Helper.java:153-159 | the key of a field from its field name |
| ApexSecurityHelper.VariableType | pmd-apex/src/main/java/net/sourceforge/pmd/lang/apex/rule/security/Helper.java:161-166 | the same key as the field's fully qualified name |
| ApexSecurityHelper.FQFieldDeclarationName | pmd-apex/src/main/java/net/sourceforge/pmd/lang/apex/rule/security/Helper.java:168-173 | the key of a field declaration from its image |
| ApexSecurityHelper.FQNewKeyValueObjectName | pmd-apex/src/main/java/net/sourceforge/pmd/lang/apex/rule/security/Helper.java:175-180 | the key of a key-value construction from the created type |
| ApexSecurityHelper.FQParameterName | pmd-apex/src/main/java/net/sourceforge/pmd/lang/apex/rule/security/Helper.java:216-220 | the key of a compiler parameter uses the defining type as it prints itself |
| ApexSecurityHelper.FQParameterNodeName | pmd-apex/src/main/java/net/sourceforge/pmd/lang/apex/rule/security/Helper.java:222-226 | the key of a parameter node from its image |
| ApexSecurityHelper.UseMatchesDeclaration | pmd-apex/src/main/java/net/sourceforge/pmd/lang/apex/rule/security/Helper.java:131-151 | a use not reached through an object has the key of a declaration in the same type iff the names agree |
| ApexSecurityHelper.FieldAndLocalShareKeys | pmd-apex/src/main/java/net/sourceforge/pmd/lang/apex/rule/security/Helper.java:146-159 | a field and a local declaration have the same key iff same type and same name |
| ApexSecurityHelper.ParameterKeysAgree | pmd-apex/src/main/java/net/sourceforge/pmd/lang/apex/rule/security/Helper.java:216-226 | both parameter overloads give the same key when the node's image is the parameter's name |

## Left out

- Floating point: infinities, rounding and overflow of `double` are not modelled. Values are reals or NaN.
- Java `int` overflow of the node counts is not modelled; counts are unbounded.
- The violation message (`Double.toString` of the score), the rule message of a data point and the report sink are not modelled. Violations carry the node and the numeric score.
- Threshold filtering against `MINIMUM_DESCRIPTOR` happens in the statistical-rule superclasses. Those are not part of this model. The minimum is recorded as the constructors set it.
- `childrenAccept` of the class-length rule returns the visitor's data; the return value is not modelled.
- Logging (`printRuleNamesInDebug`, `LOG`) and the timing of `getRuleSetsWithBenchmark` are I/O and are left out.
- The resource loader passed to the ruleset factory is not modelled.
- How a request string is split and resolved is the factory's job; the factory is a parameter.
- `ProjectMemoizer` and `MetricMemoizer` are not part of this model's sources. They are modelled as maps that create an empty memoizer on the first request for a name.
- `findOperations`, the metric calculators and support predicates, and qualified names are language-specific collaborators; they are parameters.
- Whether visitor dispatch reaches `ExcessiveMethodCountRule`'s counting method depends on the visitor interface, which is not part of this model. It is the constructor's parameter.
- The Apex compiler objects are plain fields. These are the defining type and how it prints, the identifier lists, the method name, the modifier's test flag, and a parameter's name.
- `findDescendantsOfType` is modelled as a search of the whole subtree, with no boundary nodes.
- Case-insensitive comparison and `toLowerCase(Locale.ROOT)` are modelled on ASCII letters only.
- ChainMatchesItsNames: stated for argument-free chains only. `IsMethodCallChain` itself takes any tree, but the lemmas about it do not cover calls with argument children after the reference.
- ParamKeyOf: memo keys are identified by the metric key's name and the options. Two distinct metric keys that share a name are not distinguished, so they share memo entries.
- ResultOption `Other` stands for any constant the switch has no case for. It reaches the `default` branch.
- MetricsComputer.ComputeWithResultOption: models the NaN filter as written (it keeps NaN values). The intended filter is `MetricsProperties.IntendedAggregate`.

## Findings

| source | as written | input that shows it | evidently intended | confidence | as-written member | corrected member |
|---|---|---|---|---|---|---|
| pmd-core/src/main/java/net/sourceforge/pmd/lang/metrics/AbstractMetricsComputer.java:69 | `val != Double.NaN` is true for every double, NaN included, so NaN metric values are collected | a type with two supported operations whose metric values are NaN and 2.0, option SUM: the result is NaN | skip NaN values (`Double.isNaN`), so the SUM is 2.0: SUM is then always a number and AVERAGE is NaN only when no operation gave a number; HIGHEST already ignores NaN as written | high; not executed | MetricsProperties.NaNOperationPoisonsSum | MetricsProperties.IntendedAggregateIsNumber |
