# VlorQl verification

VlorQl turns typed query plans into SQL. This project models the parts of it that rewrite,
repair, normalize, cache, quote and stream those plans, and proves what those parts promise.
`dafny verify dfyconfig.toml` checks everything.

| files | what they model |
|---|---|
| `Prelude`, `Binary64`, `Json`, `Ast`, `Values` | options and results; IEEE 754 binary64 with round-to-nearest-even; JSON values and numbers; plans, expressions and predicates; the scalar operations |
| `Fold`, `FoldRules`, `FoldNormalForm`, `FoldMeasure` | the constant folder, its rules one by one, its normal forms, its termination measure |
| `Semantics`, `FoldExpressionMeaning`, `FoldPredicateMeaning`, `FoldMeaning`, `FoldLimits`, `FoldTyping`, `FoldEncoding`, `SampleEngine` | a three-valued meaning of plans with exact integers and declared types, and folding judged against it: where it is faithful and exactly where it is not |
| `Rewriter`, `Conjuncts` | the rewrite pipeline and the splitting of WHERE trees |
| `Place`, `Schema`, `TableRefs`, `TableRefsReached`, `Joins`, `ColumnTable`, `ColumnTableFix`, `ColumnTableLaws`, `GroupBy`, `GroupByAggregates`, `GroupByRuns` | the in-place plan repairs |
| `Validation` | what validation drops from a plan and adds to it on the way to execution |
| `Normalize`, `NormalizeLaws`, `CompileCache` | the canonical form behind cache keys, and the cache of compiled queries |
| `SseLines`, `Channels`, `SseConsumer`, `SseDelivery`, `StreamRetry` | line framing, the event consumer, both together, and streaming with retries |
| `Quoting` | identifier quoting and its scanner |

## How meaning is modelled

`Semantics` evaluates expressions strictly over SQL values, NULL doubling as unknown
(sections 8.2, 8.6 and 8.12 of SQL-92). A literal is worth what its declared type makes of it: an
integer declared Int, a double declared Float, a boolean, a string, or NULL. Integers are exact and
unbounded, and so are their sums, differences, products, remainders and even quotients; an
operation with a double is a binary64 one; numbers compare by value. An `Engine` supplies the rest:
what literals of other types are worth (a decimal, a date, or a number again), how strings collate,
how values of other or mixed types compare and calculate, uneven quotients of integers, the
candidate rows of a FROM clause, functions and aggregates, and how clause results make a relation.
A plan's clauses reach the engine only through their values on the candidate rows, so a statement
about every engine covers every way of joining, grouping and ordering.

`Refines(k, a, b)` says that whatever `a` computes without error, `b` computes too: the same
value (`Exact`), or possibly the integer that a double is (`Numeric`), because the folder may
write `2.0 + 3.0` as the Int literal 5. What takes the one for the other matters: comparisons of
numbers do, arithmetic does not, and functions need not. `Monotone` is what is asked of an engine:
that an answer stands when an error among its inputs becomes a value, and that where an engine only
filters, orders, groups and copies, it goes by the value of a number and not by its type.
`SampleEngine.FilteringIsMonotone` gives one that filters, projects and appends.

The conditions of the preservation theorems are about one row. `NodeKeeps` compares what the
operands of a node are worth there before and after folding: `Reads` that the database takes a
literal for what the folder reads in its JSON value, `NumbersKeep` that integers and their result
are doubles, `UnitKeeps` that a dropped 0.0 or 1.0 would not have rounded the operand that stays,
`DecidesAlike` that the database orders two literals as the folder does, `KeptKeeps` that a double
written as an Int literal meets no integer it would round. `SoundExpression`, `SoundPredicate` and
`SoundPlan` ask this of every node on the rows on which the engine evaluates it.

Methods that change a plan in place work on a `PlanCell`; choices that the source leaves to the
iteration order of a hash set are nondeterministic, so their contracts hold for every order.

## Where the code and its comments part

The model follows the code.

- Constant false is written as the comparison `false = false` and read back as false
  (`optimizer/fold.rs:344-345`, `453-463`), while SQL, and `fold_not_comparison` at 307-309, take
  it for true. `FalseForm.SelfComparison` is the code; `FalseForm.Constant` uses the schema's own
  `Predicate::False` instead.
- `1 = 1` is not recognized as a constant although `1 = 1.0` is: two equal literals are read as
  a boolean only when they are booleans (`fold.rs:343-346`). Numbers less than 2^-52 apart are
  read as equal (`fold.rs:348-350`).
- Constants are computed in binary64 even between Int literals, so integers beyond 53 bits change:
  `9007199254740993 + 1` folds to 9007199254740992, and `9007199254740993 = 9007199254740992` is
  read as true (`fold.rs:347-350`, `371-393`, `405-426`).
- `x / y` over Int literals is real division, and an Int result may come from Float operands: the
  Int and Float tags are not kept (`fold.rs:371-393`). `result as i64` saturates
  (`fold.rs:388-389`).
- `x + 0.0` and `x * 1.0` fold to `x` (`fold.rs:219-268`), which no longer converts an integer x
  to a double (`FoldTyping.FloatUnitRounds`).
- The folder goes by the JSON value of a literal and ignores its declared type
  (`fold.rs:371-426`), while validation takes strings for Decimal literals
  (`validate/operand.rs:633-646`) and the compiler casts literals in CTEs to the declared type
  (`compile/builder/expr.rs:126-172`): `NOT ('10' > '9')` over decimals folds to true. It orders
  strings by code point, whatever the collation, and divides integers in the reals, where
  databases may truncate.
- The traversal the folder inherits treats CASE and window functions as leaves, and does not
  enter FROM, DISTINCT ON, EXISTS or IN subqueries (`optimizer/visitor.rs:79-236`).
- `fix_group_by` returns before its CTEs when the plan has no aggregate or needs no GROUP BY entry
  (`fix/group_by.rs:96-163`). A projected literal is removed from GROUP BY and added back, so the
  changed flag then goes up every time.
- `sort_value` says it sorts every object, but leaves whatever lies 64 deep alone
  (`cache/normalize.rs:66-80`). With the map type `serde_json` uses here, whose keys are always
  sorted, it changes nothing at all (`NormalizeLaws.OrderedIsUnchanged`).
- `SseLines::poll_next` answers Pending after a chunk that completes no line, although the byte
  stream itself was ready (`sse.rs:200-207`); the framing theorem is about a caller that polls again.
- An attempt of the event consumer after a transport error goes on with the same stream, and an
  ended stream uses the remaining attempts up without reading anything (`sse.rs:79-131`).
- `load` fills a bounded store from a map that evictions never shrank
  (`cache/compile_cache.rs:248-275`), so what was evicted for lack of room may be evicted again. A
  file that does not decode counts as empty (251-261). The parameters of a compiled query are JSON
  values (`compile/types.rs:30-37`), which bincode 1 writes but cannot read, since it does not
  support `deserialize_any`: a saved query with a parameter makes the whole file such a one.
- `fix_group_by` appends a projected literal where SELECT has it and moves it behind every other
  entry when it is applied again (`fix/group_by.rs:96-163`); a third application changes nothing.
- `PlanComplete` is documented as the validated plan, but carries the plan as parsed
  (`retry.rs:289-296`). What was validated and compiled is that plan without joins to unknown
  tables, with the schema-aware fixes and with the mandatory row filter
  (`validate/pipeline.rs:217-292`, `305-325`).
- `drop_hallucinated_joins` turns an empty list of joins into none without reporting a change
  (`fix/joins.rs:285-304`).
- Several validation errors become one `MultipleErrors`, which is never retried, even when each
  of them is retryable (`retry.rs:171-182`, `crates/vlorql-core/src/errors/vlorql_error.rs:217-239`).

## Model

| member | source | states |
|---|---|---|
| Binary64.RoundIsDouble | crates/vlorql-core/src/optimizer/fold.rs:371-393 | rounding to binary64 always gives a double: every result the folder computes is one |
| Binary64.SmallIntegerIsDouble | crates/vlorql-core/src/optimizer/fold.rs:428-437 | every integer up to 2^53 in magnitude is a double |
| Binary64.WordDoesNotOverflow | crates/vlorql-core/src/optimizer/fold.rs:373 | `as_f64` of an i64 or u64 never overflows |
| Binary64.RoundIsMonotone | crates/vlorql-core/src/optimizer/fold.rs:419-426 | converting numbers to binary64 never swaps their order |
| Binary64.RoundIsNearest | crates/vlorql-core/src/optimizer/fold.rs:371-393 | no double is nearer to a number than the one it rounds to, and of two equally near ones that is the one whose last significant bit is zero |
| Binary64.Extremes | crates/vlorql-core/src/optimizer/fold.rs:384-386 | 2^-1074 is a double and half of it rounds to zero, 2^1023 is one and 2^1024 overflows |
| Binary64.DoubleIntegerIsShort | crates/vlorql-core/src/optimizer/fold.rs:373 | an integer that is a double has at most 53 significant bits |
| Values.IntegersAreReals | crates/vlorql-core/src/optimizer/fold.rs:371-382 | computing with integers is computing with the reals they are, remainders and even quotients included |
| Values.StringsAreOrderedIff | crates/vlorql-core/src/optimizer/fold.rs:422 | a string is less than another if and only if it is a proper beginning of it or has the smaller character where the two first differ; equal if and only if it is the same; greater if and only if the other is less |
| Values.TruncatesTowardZero | crates/vlorql-core/src/optimizer/fold.rs:380 | the quotient of a remainder is the integer nearest to the exact one on the side of zero |
| Values.RemainderIs | crates/vlorql-core/src/optimizer/fold.rs:380 | a remainder is what an integral multiple of the divisor leaves, smaller than the divisor and signed as the dividend |
| FoldNormalForm.FoldedPlanIsNormal | crates/vlorql-core/src/optimizer/fold.rs:72-187 | the folder's output is a normal form: no rule applies at any node it visits |
| FoldNormalForm.FixedPointsAreNormalForms | crates/vlorql-core/src/optimizer/fold.rs:72-187 | folding leaves a plan alone exactly when it is a normal form |
| FoldNormalForm.FoldingIsIdempotent | crates/vlorql-core/src/optimizer/fold.rs:80-187 | folding twice is folding once, on expressions, predicates and whole plans |
| FoldRules.NodeIsRewrittenIff | crates/vlorql-core/src/optimizer/fold.rs:82-119 | a binary node is rewritten if and only if an operand is a boolean literal under AND or OR, or a 0 or 1 where the operation has it for a unit, or both are literals of one kind with a finite result |
| FoldRules.NormalNodeIff | crates/vlorql-core/src/optimizer/fold.rs:82-119 | so the folded expression is free of exactly these nodes |
| FoldRules.BooleanIdentities | crates/vlorql-core/src/optimizer/fold.rs:189-217 | what `true` and `false` beside an operand of AND and OR fold to, on either side |
| FoldRules.AlgebraicIdentities | crates/vlorql-core/src/optimizer/fold.rs:219-268 | `x + 0`, `0 + x`, `x - 0`, `x * 1`, `1 * x` and `x / 1` fold to what x folds to |
| FoldRules.LiteralsCompareIff | crates/vlorql-core/src/optimizer/fold.rs:297-322 | a comparison of two literals folds to the verdict on their doubles, characters or truth values, and its negation to the opposite |
| FoldRules.NumbersCompute | crates/vlorql-core/src/optimizer/fold.rs:371-393 | two numbers fold to the result on doubles, an Int literal if all three are integral and a Float literal otherwise |
| FoldRules.ConstantIff | crates/vlorql-core/src/optimizer/fold.rs:336-353 | a predicate is read as a constant if and only if it equates equal booleans, or different number literals, which count as equal if their doubles differ by less than 2^-52 |
| FoldRules.ConstantsAreWritten | crates/vlorql-core/src/optimizer/fold.rs:453-463 | a constant is written as the comparison of its boolean literal with itself |
| FoldRules.ConjunctionRules | crates/vlorql-core/src/optimizer/fold.rs:271-294 | a conjunction with an operand read as false becomes false, with one read as true the other operand, and stays otherwise |
| FoldRules.DisjunctionRules | crates/vlorql-core/src/optimizer/fold.rs:271-294 | the same of a disjunction |
| FoldRules.NegationRules | crates/vlorql-core/src/optimizer/fold.rs:136-166 | a double negation goes, a null test of a literal is decided, and what no rule covers stays |
| FoldMeasure.ExpressionDrops | crates/vlorql-core/src/optimizer/fold.rs:80-132 | folding an expression never adds foldable nodes, and removes one whenever it changes anything |
| FoldMeasure.PredicateDrops | crates/vlorql-core/src/optimizer/fold.rs:134-187 | the same of predicates, counting BinaryOp, Not, And, Or and IsNull nodes |
| FoldMeasure.PlanDrops | crates/vlorql-core/src/optimizer/fold.rs:72-187 | the same of plans: a changed plan has strictly fewer foldable nodes |
| FoldExpressionMeaning.CastKeepsIff | crates/vlorql-core/src/optimizer/fold.rs:386-392 | an integral double survives `as i64` if and only if it lies within the range of i64 |
| FoldExpressionMeaning.CastIsNearest | crates/vlorql-core/src/optimizer/fold.rs:388-389 | outside that range it becomes the nearest i64 |
| FoldExpressionMeaning.WordAsDouble | crates/vlorql-core/src/optimizer/fold.rs:373 | `as_f64` keeps an integer if and only if that has at most 53 significant bits |
| FoldExpressionMeaning.PlainIsRead | crates/vlorql-core/src/optimizer/fold.rs:371-426 | a literal whose declared type is the JSON value's own is worth what the folder reads in it |
| FoldExpressionMeaning.IntegersFoldExactlyIff | crates/vlorql-core/src/optimizer/fold.rs:371-393 | two Int literals fold to the exact integer result if and only if the rounded operation, rounded again and cast, is that integer; with operands of 53 bits, if and only if the result fits in 53 bits and i64 or is the largest i64 |
| FoldExpressionMeaning.NumbersFoldIff | crates/vlorql-core/src/optimizer/fold.rs:371-393 | two literals that convert to the folder's numbers, whatever their declared types, fold to the exact or the numeric value of their operation if and only if the guard says so: integers of 53 bits with a result of 53 bits, a quotient that the database computes alike, or an operation with a double (the one exception being the largest i64) |
| FoldExpressionMeaning.NumbersOrderIff | crates/vlorql-core/src/optimizer/fold.rs:405-426 | a comparison of two numbers through binary64 is exact if and only if they are not distinct numbers that round alike, or the relation does not see the difference |
| FoldExpressionMeaning.LiteralsOrderIff | crates/vlorql-core/src/optimizer/fold.rs:405-426 | a comparison of two literals that the database reads as the folder does is decided alike if and only if numbers pass that test and strings collate as the relation needs |
| FoldExpressionMeaning.UnitIsDroppedIff | crates/vlorql-core/src/optimizer/fold.rs:219-268 | dropping 0 or 1 keeps the other operand's value if and only if that is no integer which a double unit rounds, no double that must stay one, and of a value that is no number the engine takes it for a unit |
| FoldExpressionMeaning.BooleanIdentityIsFaithful | crates/vlorql-core/src/optimizer/fold.rs:189-217 | the boolean identities keep the value under three-valued logic, whatever the other operand is |
| FoldExpressionMeaning.SimplifiedBinaryRefines | crates/vlorql-core/src/optimizer/fold.rs:82-119 | a binary node that folds keeps the value it has in a row, to the fidelity asked for, when its guard holds of the operands' values there |
| FoldExpressionMeaning.KeptBinaryRefines | crates/vlorql-core/src/optimizer/fold.rs:114-119 | a binary node that stays keeps its value when no operand that became an Int literal meets an integer it would have rounded |
| FoldPredicateMeaning.ConstantIsRead | crates/vlorql-core/src/optimizer/fold.rs:332-353 | a predicate read as a constant has that truth value, save for the encoding of false, for distinct numbers taken for equal and for literals the database reads otherwise |
| FoldPredicateMeaning.AndAgrees | crates/vlorql-core/src/optimizer/fold.rs:271-294 | AND short-circuiting keeps true, false and unknown, or encodes the constant, as its mode says |
| FoldPredicateMeaning.OrAgrees | crates/vlorql-core/src/optimizer/fold.rs:271-294 | the same of OR |
| FoldPredicateMeaning.NotAgrees | crates/vlorql-core/src/optimizer/fold.rs:136-149 | the same of NOT: double negation and negated literal comparisons |
| FoldMeaning.IsNullAgrees | crates/vlorql-core/src/optimizer/fold.rs:150-166 | the same of IS NULL over a literal, if a literal that is not null is none to the database |
| FoldMeaning.FoldedExpressionRefines | crates/vlorql-core/src/optimizer/fold.rs:80-132 | in every engine and row a folded expression has the original's value, wherever that has one, if every node's guard holds of the values there |
| FoldMeaning.FoldedAtomRefines | crates/vlorql-core/src/optimizer/fold.rs:134-187 | a folded comparison, BETWEEN, IN, LIKE or EXISTS has the original's truth value in the row under the same condition |
| FoldMeaning.FoldedPredicateAgrees | crates/vlorql-core/src/optimizer/fold.rs:134-187 | a folded predicate has the truth value its mode promises, at every nesting |
| FoldMeaning.FoldedPlanRefines | crates/vlorql-core/src/optimizer/rules.rs:14-23 | a folded plan returns the same relation, through CTEs, subqueries and set operations, if its clauses are sound on the rows the engine evaluates them on: exactly the same, or the same numbers |
| FoldLimits.IntegerTreesFoldExactly | crates/vlorql-core/src/optimizer/fold.rs:371-393 | a tree of +, - and * over Int literals within 2^53 folds to one Int literal, the exact integer |
| FoldLimits.IntegerTreesAreSound | crates/vlorql-core/src/optimizer/fold.rs:371-393 | such trees meet the condition of the preservation theorems in every engine and row |
| FoldLimits.SumIsLost | crates/vlorql-core/src/optimizer/fold.rs:371-393 | (2^53 + 1) + 1 is 2^53 + 2 but folds to 2^53, and is not sound |
| FoldLimits.RoundingMayCancel | crates/vlorql-core/src/optimizer/fold.rs:371-393 | (2^53 + 1) - (2^53 + 1) folds to 0 although its operands are no doubles |
| FoldLimits.LargeProductSaturates | crates/vlorql-core/src/optimizer/fold.rs:386-392 | 2^62 * 4 is 2^64 but folds to 2^63 - 1 |
| FoldLimits.NumbersAreReadExactlyIff | crates/vlorql-core/src/optimizer/fold.rs:347-350 | an equality of two number literals is read as its truth value if and only if the numbers the database takes them for are equal or further than epsilon apart after conversion |
| FoldLimits.EqualitiesMisread | crates/vlorql-core/src/optimizer/fold.rs:347-350 | `0 = 2^-60` and `2^53 + 1 = 2^53` are false but read as true |
| FoldTyping.PlainIffReadEverywhere | crates/vlorql-core/src/optimizer/fold.rs:371-426 | every database reads a literal as the folder does if and only if its declared type is the JSON value's own |
| FoldTyping.NegationIsLost | crates/vlorql-core/src/optimizer/fold.rs:297-322 | where a comparison of two literals is true to the database and false to the folder, its negation is false and folds to true |
| FoldTyping.DecimalsAreDecidedApart | crates/vlorql-core/src/optimizer/fold.rs:422 | `'10' > '9'` between decimals is such a comparison |
| FoldTyping.CasesAreDecidedApart | crates/vlorql-core/src/optimizer/fold.rs:422 | `'a' = 'A'` is one where case is ignored |
| FoldTyping.DecimalSumIsLost | crates/vlorql-core/src/optimizer/fold.rs:371-393 | an operation on two decimals folds to a number that does not stand for the decimal, and is not sound |
| FoldTyping.QuotientIsLost | crates/vlorql-core/src/optimizer/fold.rs:379 | `1 / 2` folds to 0.5 also where integers are divided as integers |
| FoldTyping.FloatUnitIsSoundIff | crates/vlorql-core/src/optimizer/fold.rs:219-268 | over a column that holds a number, `x * 1` with a one declared Float folds to the same number if and only if an integer in the column is a double, and to the same value if and only if there is no integer |
| FoldTyping.FloatUnitRounds | crates/vlorql-core/src/optimizer/fold.rs:219-268 | on a row where x is 2^53 + 1 it is 2^53, but folds to x |
| FoldTyping.RetaggedSumIsSoundIff | crates/vlorql-core/src/optimizer/fold.rs:371-393 | `x + (2.0 + 3.0)`, which folds to x + 5, is sound if and only if an integer x and x + 5 are doubles |
| FoldEncoding.FoldedIsTakenAs | crates/vlorql-core/src/optimizer/fold.rs:134-187 | what a folded predicate evaluates to in a row where its expressions are sound, misreadings and encodings included, in terms of the original's parts |
| FoldEncoding.SoundIsPreservedIff | crates/vlorql-core/src/optimizer/fold.rs:134-187 | where the mode makes a promise, folding keeps the truth value if and only if the result does not encode false |
| FoldEncoding.SwallowingAndIff | crates/vlorql-core/src/optimizer/fold.rs:271-294 | a conjunction with an operand read as false folds to a predicate taken as true, and is kept if and only if both operands are true |
| FoldEncoding.DroppingOrIff | crates/vlorql-core/src/optimizer/fold.rs:271-294 | a disjunction drops a left operand read as false; beside an operand that keeps its value it is kept if and only if the dropped one is false or makes no difference, beside an encoded false if and only if the dropped one is true |
| FoldEncoding.DroppingOrRightIff | crates/vlorql-core/src/optimizer/fold.rs:271-294 | the same of a right operand |
| FoldEncoding.NonNullLiteralBecomesTrue | crates/vlorql-core/src/optimizer/fold.rs:453-463 | `literal IS NULL` is false of a literal that has a value, but folds to a predicate that SQL takes as true |
| FoldEncoding.TrueDisjunctIsLost | crates/vlorql-core/src/optimizer/fold.rs:297-353 | `NOT (literal IS NULL) OR p` is true, but folds to p |
| FoldEncoding.FilterIsSwallowed | crates/vlorql-core/src/optimizer/fold.rs:271-353 | `NOT (literal IS NULL) AND p` is p, but folds to a predicate that SQL takes as true |
| FoldEncoding.FalseConjunctIsLost | crates/vlorql-core/src/optimizer/fold.rs:347-350 | `0 = 2^-60 AND p` is false, but folds to p |
| FoldEncoding.ConstantFormModes | crates/vlorql-core/src/optimizer/fold.rs:453-463 | with a real constant false only literals that the database reads or compares otherwise can mislead the folder |
| FoldEncoding.ConstantFormIsPreserved | crates/vlorql-core/src/optimizer/fold.rs:134-187 | with `Predicate::False` for constant false, folding keeps every truth value where no literals are misread |
| Rewriter.RewriterPipeline.constructor | crates/vlorql-core/src/optimizer/rules.rs:73-75 | a new pipeline has no rules |
| Rewriter.RewriterPipeline.Push | crates/vlorql-core/src/optimizer/rules.rs:85-87 | a rule is appended |
| Rewriter.RewriterPipeline.Rewrite | crates/vlorql-core/src/optimizer/rules.rs:101-109 | the loop chains the rules in order and stops at the first error |
| Rewriter.RewriterPipeline.RepeatUntilStable | crates/vlorql-core/src/optimizer/rules.rs:151-165 | the loop repeats the chain, at most the given number of rounds, until nothing changes |
| Rewriter.PushedRuleRunsLast | crates/vlorql-core/src/optimizer/rules.rs:85-109 | a pushed rule works on what all earlier rules produced |
| Rewriter.RunSucceedsIff | crates/vlorql-core/src/optimizer/rules.rs:101-109 | a run over the rules succeeds if and only if each rule does on what the one before gave, and gives what the last did |
| Rewriter.RunFailsIff | crates/vlorql-core/src/optimizer/rules.rs:101-109 | it fails if and only if some rule fails on what the ones before it gave, with that error |
| Rewriter.RunRoundsIff | crates/vlorql-core/src/optimizer/rules.rs:151-165 | repetition ends with the first of a run that fails, whose error is the result, a run that changes nothing, and the limit |
| Rewriter.EnoughRoundsAreStable | crates/vlorql-core/src/optimizer/rules.rs:111-165 | for any rules with a decreasing measure, that many rounds end in a fixed point of the pipeline |
| Rewriter.FoldingDecreases | crates/vlorql-core/src/optimizer/rules.rs:111-165 | the number of foldable nodes is such a measure for folding |
| Rewriter.FoldingIsStableAfterOneRound | crates/vlorql-core/src/optimizer/rules.rs:151-165 | with folding alone any limit of at least one round returns the fixed point |
| Rewriter.RunsPreserve | crates/vlorql-core/src/optimizer/rules.rs:14-23 | rules that each preserve meaning preserve it when chained |
| Rewriter.RoundsPreserve | crates/vlorql-core/src/optimizer/rules.rs:151-165 | and when repeated for any number of rounds |
| Rewriter.FoldingPipelineRefines | crates/vlorql-core/src/optimizer/rules.rs:151-165 | the folding pipeline keeps the result of every plan that is sound on its rows, for any number of rounds |
| Conjuncts.CollectConjuncts | crates/vlorql-core/src/optimizer/analyze.rs:44-52 | the collector appends the conjuncts to its output, left to right |
| Conjuncts.SplitConjuncts | crates/vlorql-core/src/optimizer/analyze.rs:38-42 | splitting returns exactly those |
| Conjuncts.SplitUndoesCombine | crates/vlorql-core/src/optimizer/analyze.rs:70-77 | splitting a combined nonempty list without top-level ANDs gives the list back |
| Conjuncts.SplitIsStable | crates/vlorql-core/src/optimizer/analyze.rs:38-77 | splitting what was recombined gives the same conjuncts |
| Conjuncts.CombinedFromTheLeft | crates/vlorql-core/src/optimizer/analyze.rs:70-77 | nothing combines to nothing, one predicate to itself, and a further one goes to the right of the rest |
| Conjuncts.RecombinedHasSameValue | crates/vlorql-core/src/optimizer/analyze.rs:38-77 | recombining keeps the truth value in every engine and row, errors included |
| Schema.GetTable | crates/vlorql-core/src/schema/snapshot.rs:103-137 | lookup finds the last table of that exact name, or there is none |
| TableRefs.CollectTablesInExpr | crates/vlorql-core/src/fix/joins.rs:37-80 | the collector adds exactly the qualifiers in an expression to the set |
| TableRefs.CollectTablesInPred | crates/vlorql-core/src/fix/joins.rs:83-117 | the same of a predicate |
| TableRefs.CollectTablesInPlan | crates/vlorql-core/src/fix/joins.rs:120-154 | the same of a subquery's plan |
| TableRefs.CollectReferenced | crates/vlorql-core/src/fix/joins.rs:312-342 | the tables a plan refers to, clause by clause |
| TableRefsReached.CollectedIff | crates/vlorql-core/src/fix/joins.rs:37-154 | a name is collected if and only if a chain of visited parts leads to a reference that carries it |
| TableRefsReached.ReferencedIff | crates/vlorql-core/src/fix/joins.rs:312-342 | the same of the plan being repaired, whose join conditions and CTEs are not visited |
| Joins.ScopeTables | crates/vlorql-core/src/fix/joins.rs:14-34 | the scope is the FROM table and every joined table |
| Joins.BuildReverseFkIndex | crates/vlorql-core/src/fix/joins.rs:158-177 | the index lists, for each table, the foreign keys that point to it |
| Joins.RefsAreDeclarations | crates/vlorql-core/src/fix/joins.rs:158-177 | what the index lists are exactly declared foreign keys, and no referring table is missed |
| Joins.FindJoinFor | crates/vlorql-core/src/fix/joins.rs:190-273 | a join is found if and only if a foreign key in either direction links the table to the scope; it follows the first key of some table in scope to it, failing that its own first key into the scope, failing that the first reference in schema order |
| Joins.JoinPass | crates/vlorql-core/src/fix/joins.rs:361-381 | one pass over the missing tables, in any order, adds well-scoped joins, and finds none only if none exists |
| Joins.AddMissingJoins | crates/vlorql-core/src/fix/joins.rs:344-381 | the loop ends with the least scope closed under foreign keys into referenced tables; old joins stay a prefix, and each new join follows the key preferred in the scope before it |
| Joins.FixMissingJoins | crates/vlorql-core/src/fix/joins.rs:311-390 | the same in the plan and all its CTEs, nothing else changes, and the flag tells whether anything did |
| Joins.ClosureIsUnique | crates/vlorql-core/src/fix/joins.rs:344-381 | there is only one such scope, whatever the iteration orders |
| Joins.RepairsAgree | crates/vlorql-core/src/fix/joins.rs:311-390 | two repairs of one plan join the same tables with equally many joins |
| Joins.AddedJoinsAreBounded | crates/vlorql-core/src/fix/joins.rs:344-381 | at most one join is added per referenced table out of scope |
| Joins.ClosureIsReachability | crates/vlorql-core/src/fix/joins.rs:344-381 | a table is in the final scope if and only if a chain of foreign keys through referenced tables reaches it |
| Joins.RepairIsIdempotent | crates/vlorql-core/src/fix/joins.rs:311-390 | a second repair changes nothing, whatever orders the two used |
| Validation.DropHallucinatedJoins | crates/vlorql-core/src/fix/joins.rs:285-304 | the in-place filter computes the plan without joins to unknown tables, and reports exactly whether there were any |
| Validation.KnownIff | crates/vlorql-core/src/fix/joins.rs:291-298 | a join stays if and only if some table of the schema has its name |
| Validation.DroppingKeepsPlanIff | crates/vlorql-core/src/fix/joins.rs:285-304 | it leaves a plan alone if and only if all joins are to known tables and the list is not empty, and does nothing twice |
| Validation.ValidatedUnchangedIff | crates/vlorql-core/src/validate/pipeline.rs:305-325 | a plan that the fixes leave alone is validated as it is if and only if nothing is dropped and nothing filtered |
| Validation.ValidatedEndsWithFilter | crates/vlorql-core/src/validate/pipeline.rs:267-282 | a row filter that applies stands behind what WHERE said before, and nothing else of the plan changes |
| Validation.FilterIsEnforced | crates/vlorql-core/src/validate/pipeline.rs:267-282 | on every row the filtered WHERE is true if and only if the filter is true and so is what WHERE said before |
| Validation.ValidationFailsIff | crates/vlorql-core/src/validate/pipeline.rs:217-325 | validation fails if and only if a stage objects, with the errors of the first that does |
| Validation.KnownJoinsOfConcat | crates/vlorql-core/src/fix/joins.rs:285-304 | the joins that stay keep their order |
| ColumnTable.ResolvesIff | crates/vlorql-core/src/fix/column_table.rs:55-66 | a reference resolves if and only if the last table of its name has a column of that name |
| ColumnTable.FindColumnViaFk | crates/vlorql-core/src/fix/column_table.rs:16-52 | what is found is the target of the first own foreign key that has the column, and only if there is none the first table that has it and refers to this one |
| ColumnTable.RequalifiedIff | crates/vlorql-core/src/fix/column_table.rs:55-72 | a reference is requalified if and only if it does not resolve, its table is known, and some foreign-key target has the column or some table has it and a foreign key to that table; and then to the table so found |
| ColumnTable.RequalifiedResolves | crates/vlorql-core/src/fix/column_table.rs:16-72 | a reference that resolves is never touched, and one that moves goes to a foreign-key neighbour that has the column, unless a later table of the same name hides it |
| ColumnTable.UniqueNamesAreUnshadowed | crates/vlorql-core/src/schema/snapshot.rs:131-137 | with unique table names nothing is hidden |
| ColumnTable.ShadowedTableMisleads | crates/vlorql-core/src/fix/column_table.rs:36-50 | a hidden column makes a reference move to a table that does not have it |
| ColumnTable.ShadowedTablesSwap | crates/vlorql-core/src/fix/column_table.rs:36-72 | where two tables that refer to each other are both hidden, a reference moves from one to the other and back with every repair |
| ColumnTableFix.FixExpr | crates/vlorql-core/src/fix/column_table.rs:55-110 | the in-place traversal fixes every reference it visits, and the flag goes up if and only if one of them was not settled, so whenever anything changed |
| ColumnTableFix.FixPred | crates/vlorql-core/src/fix/column_table.rs:113-137 | the same of predicates |
| ColumnTableFix.FixGroup | crates/vlorql-core/src/fix/column_table.rs:177-207 | GROUP BY entries are fixed and then retained |
| ColumnTableFix.FixPlan | crates/vlorql-core/src/fix/column_table.rs:140-230 | the same of whole plans, CTEs and set operands |
| ColumnTableLaws.RetainIsResolution | crates/vlorql-core/src/fix/column_table.rs:186-206 | the foreign-key disjunct of `retain` never decides: a GROUP BY reference stays if and only if it resolves |
| ColumnTableLaws.FixPlanSettles | crates/vlorql-core/src/fix/column_table.rs:140-230 | over a schema where references stay where they are moved, every visited reference is settled afterwards and every qualified GROUP BY column resolves; a plan is left alone, and the flag down, if and only if it was so already |
| ColumnTableLaws.RepairSettlesIff | crates/vlorql-core/src/fix/column_table.rs:140-230 | that is so of every plan over a schema if and only if references stay where they are moved |
| ColumnTable.UnshadowedMovesSettle | crates/vlorql-core/src/fix/column_table.rs:16-72 | and they do where no later table hides a column of a table with foreign keys |
| ColumnTableLaws.RepairIsIdempotent | crates/vlorql-core/src/fix/column_table.rs:237-239 | over such a schema a second repair changes nothing |
| GroupBy.CollectNonAggregatedColumns | crates/vlorql-core/src/fix/group_by.rs:59-87 | the required entries, each once, in SELECT order |
| GroupByAggregates.AggregateNameIff | crates/vlorql-core/src/fix/group_by.rs:10-13 | the aggregates are sum, count, avg, min and max, in any letter case |
| GroupByAggregates.AggregatesIff | crates/vlorql-core/src/fix/group_by.rs:8-43 | an expression, predicate or plan has an aggregate if and only if a chain of searched parts leads to a call of one, subqueries of expressions and window functions excepted |
| GroupByAggregates.RegroupedIs | crates/vlorql-core/src/fix/group_by.rs:96-163 | without an aggregate no GROUP BY remains; with one it holds exactly its earlier non-literals and the columns and unaggregated expressions of SELECT |
| GroupByAggregates.AddedInSelectOrder | crates/vlorql-core/src/fix/group_by.rs:57-87 | what is added follows the order in which SELECT first calls for it |
| GroupByAggregates.RepairGroupsThroughout | crates/vlorql-core/src/fix/group_by.rs:96-163 | the grouping rule holds afterwards here and in every CTE the repair visits |
| GroupBy.FixGroupBy | crates/vlorql-core/src/fix/group_by.rs:96-163 | the in-place repair computes the regrouped plan, and its flag is characterized exactly |
| GroupBy.RepairedGroupBy | crates/vlorql-core/src/fix/group_by.rs:96-163 | with an aggregate, GROUP BY becomes the earlier non-literal entries in order, then every other non-aggregated projection once, and nothing else |
| GroupBy.RepairedIsGrouped | crates/vlorql-core/src/fix/group_by.rs:96-163 | every repaired plan groups by each non-aggregated projection if it aggregates, and has no GROUP BY if it does not; literals stay only where projected, and nothing else but CTEs changes |
| GroupBy.SecondRunRaisesIff | crates/vlorql-core/src/fix/group_by.rs:96-163 | a second repair reports a change if and only if a bare literal is projected, here or in a visited CTE |
| GroupBy.QuietRunKeepsPlan | crates/vlorql-core/src/fix/group_by.rs:96-163 | a repair that reports no change made none |
| GroupBy.RepairIsIdempotent | crates/vlorql-core/src/fix/group_by.rs:96-163 | where no literal is projected the repair is idempotent and leaves no literal in GROUP BY |
| GroupByRuns.RepairIsIdempotentIff | crates/vlorql-core/src/fix/group_by.rs:96-163 | a second repair changes nothing if and only if, here and in every visited CTE, no projected literal precedes an entry that has to be appended |
| GroupByRuns.ThirdRunKeepsPlan | crates/vlorql-core/src/fix/group_by.rs:96-163 | a third repair never changes what the second left |
| GroupByRuns.LiteralChangesPlace | crates/vlorql-core/src/fix/group_by.rs:96-163 | SELECT 1, a, count(*) groups by [1, a] and, repaired again, by [a, 1] |
| Normalize.SortKeysSorts | crates/vlorql-core/src/cache/normalize.rs:84-85 | distinct keys come out strictly increasing |
| Normalize.SortedKeysPrecede | crates/vlorql-core/src/cache/normalize.rs:66-80 | a key stands before another if it begins it or has the smaller character where they first differ |
| Normalize.SortValue | crates/vlorql-core/src/cache/normalize.rs:77-101 | the recursion down to the depth cap computes the sorted value |
| Normalize.SortObject | crates/vlorql-core/src/cache/normalize.rs:82-93 | moving values from one map to another in key order loses none and yields the sorted object |
| NormalizeLaws.SortKeepsMeaning | crates/vlorql-core/src/cache/normalize.rs:77-101 | the sorted value is the input up to key order |
| NormalizeLaws.OrderedFormIsUnique | crates/vlorql-core/src/cache/normalize.rs:7-31 | of all key orders of a value only one is in order throughout |
| NormalizeLaws.SortedIffSettled | crates/vlorql-core/src/cache/normalize.rs:66-80 | the result is in order throughout if and only if everything at or below the cap already was |
| NormalizeLaws.SortIsCanonical | crates/vlorql-core/src/cache/normalize.rs:7-31 | two values settled at the cap sort to the same one if and only if they differ in nothing but key order |
| NormalizeLaws.SortIsCanonicalIff | crates/vlorql-core/src/cache/normalize.rs:66-101 | all key orders of a value sort to one form if and only if no object at or below the cap has two keys |
| NormalizeLaws.CapBreaksCanonicalForm | crates/vlorql-core/src/cache/normalize.rs:66-80 | under 64 arrays two key orders of one object keep two canonical forms, under 63 they get one |
| NormalizeLaws.SortIsIdempotent | crates/vlorql-core/src/cache/normalize.rs:73-101 | sorting twice is sorting once |
| NormalizeLaws.OrderedIsUnchanged | crates/vlorql-core/src/cache/normalize.rs:17-23 | a value whose keys are in order is left alone |
| CompileCache.CompileCache.constructor | crates/vlorql-core/src/cache/compile_cache.rs:78-99 | a new cache is empty |
| CompileCache.CompileCache.Get | crates/vlorql-core/src/cache/compile_cache.rs:107-123 | a lookup gives the latest insertion that still stands, or nothing if that was evicted |
| CompileCache.CompileCache.Insert | crates/vlorql-core/src/cache/compile_cache.rs:130-150 | both stores agree with the history extended by the insertion |
| CompileCache.CompileCache.InvalidatePlan | crates/vlorql-core/src/cache/compile_cache.rs:158-165 | the same for an invalidation |
| CompileCache.CompileCache.Clear | crates/vlorql-core/src/cache/compile_cache.rs:168-174 | the same for clearing |
| CompileCache.CompileCache.Evict | crates/vlorql-core/src/cache/compile_cache.rs:72-92 | the same for any eviction or expiry, which the mirror map does not see |
| CompileCache.CompileCache.Persist | crates/vlorql-core/src/cache/compile_cache.rs:200-237 | what is saved is the latest standing insertion of every key, evicted or not |
| CompileCache.CompileCache.Load | crates/vlorql-core/src/cache/compile_cache.rs:248-275 | a cache loaded from a file that is missing or does not decode is empty; otherwise it mirrors what the file decodes to, in whatever order that is walked and whatever the bounded store evicts meanwhile |
| CompileCache.SaveAndLoad | crates/vlorql-core/src/cache/compile_cache.rs:203-275 | if the written file decodes to what was saved, every hit is the latest standing insertion of the old cache, nothing withdrawn comes back, and whatever is missing was evicted in the new one; if it does not decode, nothing comes back |
| CompileCache.LatestIsLastInsertion | crates/vlorql-core/src/cache/compile_cache.rs:130-174 | the value of a key is that of an insertion with no later insertion, invalidation or clearing of it |
| CompileCache.DroppedIffEvictedSince | crates/vlorql-core/src/cache/compile_cache.rs:107-174 | a standing insertion is missing from the bounded store if and only if it was evicted since |
| CompileCache.InnerIsInEntries | crates/vlorql-core/src/cache/compile_cache.rs:66-70 | whatever the bounded store holds the mirror holds, with the same value |
| CompileCache.HitIsLatest | crates/vlorql-core/src/cache/compile_cache.rs:107-123 | every hit is the last standing insertion under its key |
| CompileCache.MissIsWithdrawnOrEvicted | crates/vlorql-core/src/cache/compile_cache.rs:107-123 | a miss of a standing insertion means it was evicted |
| SseLines.SplitIffFrames | crates/vlorql-llm/src/sse.rs:171-221 | a list of lines with LF or CR LF endings, and possibly an unterminated last one, makes up the input if and only if it is the reference split |
| SseLines.SseLines.Position | crates/vlorql-llm/src/sse.rs:172 | the position of the first LF in the buffer |
| SseLines.SseLines.TakeLine | crates/vlorql-llm/src/sse.rs:171-183 | a line is taken if and only if the buffer holds an LF; the buffer loses that line, its LF and one CR before it |
| SseLines.SseLines.PollNext | crates/vlorql-llm/src/sse.rs:190-221 | a poll yields the first line of the unread bytes, or passes on one fault or the end, or is pending without losing a byte |
| SseLines.SseLines.Collect | crates/vlorql-llm/src/sse.rs:190-221 | polling to the end yields the reference split of all bytes, however they were cut into chunks, with every fault in its place among the lines |
| SseLines.FramedSplits | crates/vlorql-llm/src/sse.rs:190-221 | the lines among the items are the split of the whole input, the failures the faults of the stream |
| SseLines.FaultStandsAt | crates/vlorql-llm/src/sse.rs:206-208 | a fault stands behind exactly one item per newline before it and behind the earlier faults |
| SseLines.FaultFreeFramed | crates/vlorql-llm/src/sse.rs:190-221 | without faults the items depend on the bytes alone |
| SseDelivery.CutsDoNotMatter | crates/vlorql-llm/src/sse.rs:64-224 | what the consumer sends for a byte stream without faults does not depend on how that was cut into chunks |
| SseDelivery.FaultFreeDelivery | crates/vlorql-llm/src/sse.rs:64-224 | it sends the texts of the lines of the whole input up to the done marker, and no error |
| SseConsumer.WhitespaceIs | crates/vlorql-llm/src/sse.rs:94-101 | the whitespace that `trim` takes off, code point by code point |
| SseConsumer.TrimIff | crates/vlorql-llm/src/sse.rs:94-101 | trimming takes off whitespace at both ends, and all of it |
| SseConsumer.DataLineIsRead | crates/vlorql-llm/src/sse.rs:94-124 | a line that is `data:` and a payload is judged by its payload alone, whatever whitespace stands around either |
| SseConsumer.LineSignalsIff | crates/vlorql-llm/src/sse.rs:94-124 | a line ends the stream if and only if its payload is `[DONE]`; it gives a text if and only if its payload is not that and parses to a value from which this nonempty text is extracted; any other, a malformed one included, is skipped |
| SseConsumer.OtherLinesAreSkipped | crates/vlorql-llm/src/sse.rs:94-100 | every other line is skipped |
| SseConsumer.RunStops | crates/vlorql-llm/src/sse.rs:64-132 | the consumer delivers exactly the texts before the first done marker, the last allowed fault or the end, and an error only for that fault |
| SseConsumer.SomeStop | crates/vlorql-llm/src/sse.rs:77-132 | every input has such a stopping point |
| SseConsumer.Drive | crates/vlorql-llm/src/sse.rs:64-132 | the two loops send exactly those messages, as far as the receiver takes them, return whether the stream ended short, and terminate |
| Channels.Channel.Send | crates/vlorql-llm/src/sse.rs:112-117 | a send succeeds while the receiver lives, and only then delivers |
| StreamRetry.PlanCompleteIff | crates/vlorql/src/retry.rs:261-301 | a plan is complete if and only if the text has no template leak and parses to it, and its validated form compiles |
| StreamRetry.AssembledErrorIff | crates/vlorql/src/retry.rs:261-301 | which error a text ends with: a retryable model error for a leak or a text that does not parse, the single validation error or several together, or that of compilation |
| StreamRetry.RetryableKinds | crates/vlorql/src/retry.rs:171-182 | model errors are worth another attempt, several validation errors together are not |
| StreamRetry.RetriedIff | crates/vlorql/src/retry.rs:196-249 | an attempt is repeated if and only if the error is retryable with which its reply broke off, or its whole text ended |
| StreamRetry.JoinedOfConcat | crates/vlorql/src/retry.rs:216-222 | the text assembled is the chunks in order |
| StreamRetry.CarriedPlanThroughStages | crates/vlorql/src/retry.rs:283-299 | a plan the fixes leave alone is sent as validated if and only if all its joins are to known tables and no row filter applies; a filter that applies is missing from the plan sent unless that came with it |
| StreamRetry.InvalidPlanIsRetriedIff | crates/vlorql/src/retry.rs:171-182 | an invalid plan is tried again if and only if it has a single, retryable error |
| StreamRetry.RunEndsAt | crates/vlorql/src/retry.rs:196-258 | the events are the text of all attempts up to the last, then what that one ends with |
| StreamRetry.RunIs | crates/vlorql/src/retry.rs:196-258 | after the text comes the error the last reply broke off with, or what its whole text gives and then its usage if it has one |
| StreamRetry.SomeEnd | crates/vlorql/src/retry.rs:196 | every sequence of replies has a last attempt, at most the limit |
| StreamRetry.RunFollowsProtocol | crates/vlorql/src/retry.rs:196-258 | text chunks, exactly one terminal item, then at most one usage and only after an Ok terminal; a complete plan is what the last attempt's own text parses to, its validated form compiled, and it did itself if validation left it alone |
| StreamRetry.RunCompletesIff | crates/vlorql/src/retry.rs:196-301 | a plan is completed if and only if some attempt completes it and every earlier one failed in a retryable way |
| StreamRetry.AskedPerAttempt | crates/vlorql/src/retry.rs:196-209 | one model call per attempt, each question made from the one before and the error it led to |
| StreamRetry.RunStreamWithRetry | crates/vlorql/src/retry.rs:185-259 | the loops send exactly these events as far as the receiver takes them, ask exactly these questions, and never fall off the end in silence |
| Quoting.ScanIffQuoted | crates/vlorql-core/src/compile/dialect_config.rs:67-75 | a scanner that reads a doubled quote as one character returns a name and the rest if and only if the text is that name quoted and a rest that does not start with the quote |
| Quoting.QuotingIsInjective | crates/vlorql-core/src/compile/dialect_config.rs:67-75 | different names are quoted differently, in every style |
| Quoting.DoubledOfConcat | crates/vlorql-core/src/compile/dialect_config.rs:67-75 | quotes are doubled character by character |
| Quoting.QuotedByStyle | crates/vlorql-core/src/compile/dialect_config.rs:67-75 | what each style makes of a name with its own quote in it; an unknown style is double quotes |
| Quoting.QualifiedNameIsUnambiguous | crates/vlorql-core/src/compile/dialect_config.rs:67-75 | a quoted `table.column` determines both parts, whatever dots and quotes they contain |
| Quoting.BracketScansIff | crates/vlorql-core/src/compile/dialect_config.rs:71 | a bracketed name can be read back if and only if it has no closing bracket |

## Left out

- FoldPredicateMeaning.AndAgrees: the modes `Entangled` (an encoded constant met another predicate) and `Misread` (the folder read a constant otherwise than the database) promise nothing by themselves; `FoldEncoding.FoldedIsTakenAs` says what such a predicate evaluates to, `SwallowingAndIff` and `DroppingOrIff` when that is right.
- FoldMeaning.FoldedExpressionRefines: its guards are exact for one node (the lemmas ending in `Iff`), save that integers beyond 53 bits whose rounding happens to cancel, and a literal of another type whose database value happens to agree with the folder's result, are left out.
- FoldMeaning.FoldedPlanRefines: a literal is worth the same wherever it stands; Int, Float, Boolean and String literals are integers, doubles, booleans and strings in every engine, although in CTEs some dialects cast Float to a decimal and Boolean to an integer type. An integer literal standing alone in ORDER BY or GROUP BY is taken by its value, not as the position of a column.
- Binary64.RoundIsDouble: the sign of zero, infinities and NaN are not modelled; the folder never folds to a non-finite value.
- FoldExpressionMeaning.NumbersFoldIff: an even quotient of integers is an integer; a database that gives a decimal of the same value is not told apart.
- ColumnTableLaws.FixPlanSettles: asks that references stay where they are moved, as they do where no later table of the same name hides a column; elsewhere one can move back and forth (`ColumnTable.ShadowedTablesSwap`).
- Joins.FixMissingJoins: FROM and JOIN sources are named tables; on others the source panics.
- GroupBy.FixGroupBy: aggregate names are lower-cased over ASCII only, which is enough because no other character lower-cases to a letter of theirs.
- CompileCache.CompileCache.Insert: the two stores are updated in one step, so interleaved concurrent calls are not covered; keys are given, not hashed, so two plans with one hash share an entry.
- SseLines.SseLines.PollNext: lines are bytes; their lossy decoding to UTF-8 is not modelled, nor is waking the task after Pending.
- SseConsumer.Drive: waiting between attempts, parsing of JSON payloads and the extraction of text from them are parameters or left out.
- Validation.ValidatedUnchangedIff: the schema-aware fixes, the checks and the row filter are parameters of the pipeline; its iff is for plans the fixes leave alone.
- StreamRetry.RunStreamWithRetry: the wording of a repeated question, the model client, parsing, validation and compilation are parameters.
- Metrics, logging, time-to-live timing and weights of the bounded store, and the file format of saved caches.
- Predicate pushdown, column pruning, join reordering, the SQL builder and the checks of the validation pipeline.
- `fix/aggregates.rs` and `fix/columns.rs`: the first contradicts its own comment, the second is string guesswork.
- `columns_in_*` and `referenced_tables` of `optimizer/analyze.rs`: plain collections.
- Schema fields the repairs do not read: types, nullability, descriptions, indexes.
- Placeholders and LIMIT/OFFSET templates of the dialect configuration: templates without an inverse.
- The command line, the providers' HTTP clients, prompts and telemetry.
