# A verified model of biscuit-go

The model covers the authorization engine of biscuit-go, a Go implementation of the Biscuit token
format: a Datalog evaluator in which every fact carries the set of block ids behind it, the trust
rules around it, the expressions in rules, the symbol tables and messages that feed it, and the
chain of signatures of a token. `dafny verify dfyconfig.toml` checks all of it.

| part | modules |
|---|---|
| Datalog evaluation with origins | `Odometer`, `Matching`, `Datalog`, `Evaluation`, `Iteration`, `Worlds`, `Rounds`, `Fixpoints`, `Derivations`, `Termination`, `Isolation` |
| Authorization | `Scopes`, `Checks`, `Verdicts`, `Authorization`, `Answers`, `Attenuation`, `Admission` |
| Expressions | `StackMachine`, `Expressions`, `Operators`, `Grammar`, `Printing`, `Grouping` |
| Symbols and messages | `Digits`, `Symbols`, `Windows`, `Interning`, `Reinterning`, `IdWorlds`, `IdChecks`, `Messages`, `Policies` |
| Representation | `HashSets`, `Ordering`, `Hashing`, `Origins`, `FactSets` |
| Tokens | `Tokens`, `Chains` |

How the model is put together:

- Where the source loops and updates state, the model does too: classes (`Combinations`, `CombineIt`,
  `World`, `Authorizer`, `HashSet`, `FactSet`, `SymbolTable`, `Builder`, `Buffer`) and methods with loops, each
  proved against a function or predicate, about which the lemmas then state what the source promises.
- The engine works on terms whose symbols are resolved. `Reinterning`, `IdWorlds` and `IdChecks` show that on table ids
  rules, whole runs and whole checks come to what they come to on symbols, with tables that grow on the way, and
  `Interning` that moving between tables keeps the meaning.
- The engine keeps facts in mathematical sets. `FactSets` shows that the hash sets under encoded origins behave
  like them, given lawful elements, and `Hashing` that steady facts are lawful, and only they under every hash
  function. The rows on worlds, runs, derivations, isolation and attenuation therefore speak of the source for facts
  that are steady, above all those in which no set has two elements (`Hashing.SingleIsSteady`); of a fact that is not,
  the source may keep two copies and count both (`Hashing.CountEquals`).
- Iteration over Go maps has no fixed order. Methods pick elements in any order, and their contracts hold for
  every choice. Where the order shows, as it does when an expression errs, `Verify` and `Authorize` are
  specified by what some order can give and what every order must give.
- Integers have the widths of the source. A fact limit is compared as an unsigned number, and the
  only quotient out of range wraps.
- What a holder can make of a token is what can be put together from the signatures in it and from those of keys
  that sign none of its blocks (`Chains.OnlyExtensions`).
- Keys and signatures are symbolic: a signature verifies under one key and over one payload. Payloads are
  trees, so different payloads never coincide.
- Every deterministic way of evaluating expressions is covered by the engine theorems; `Expressions` gives the one
  of the source, in which matching a regular expression is a parameter.

Where the source does something that a reader would not expect, the model follows the source:

- Authorizer checks are queries whatever their kind (authorizer.go:496-513): they are decided as checks of kind One
  (`Answers.AnswerIsOne`), so that a Reject passes where it should fail (`Answers.OwnRejectPasses`). When the
  verdict is that of the kind all the same is `Answers.AllAgreesIff` and
  `Answers.RejectAgreesIff`, and `Answers.AllAlwaysAgreesIff` and `Answers.RejectAlwaysAgreesIff` for the check alone.
- A Reject query without expressions never rejects (`Checks.RejectNeedsExpressions`), and Reject and One can both
  fail (`Checks.RejectNegatesOneIff`).
- A filtered fact set shares its buckets with the original, so that inserting into it corrupts the original's count
  (`FactSets.InsertFiltered` has the exact condition). The engine itself only reads filtered sets, and adds derived facts
  by InsertMulti.
- A set hashes its elements in iteration order, so that one fact can be stored twice (`Hashing.SteadyIff`).
- A slice that is nil compares as different from itself (`Ordering.SlicesEqual`).
- A message of policies carries no public keys, so that it loads only when nothing in it trusts one (`Policies.SavedLoads`).
  The scopes of the authorizer are not saved either, and what is loaded before an error stays loaded.
- Reading back a token with a third-party block that brings symbols of its own can shift the ids of
  later blocks (`Windows.ThirdPartyShiftsIds`); `Windows.IdsSurviveIff` has the exact condition.
- Code without the parentheses that the text would need prints as the text of another expression (`Grouping.SurvivesIff`).
- A variable keeps 32 bits of the id of its name (`Interning.ConvertTerm` and `Policies.SaveAndLoad` have the condition).
- Nothing verifies an external signature on the authority block; the theorems on what a signature pins leave it out.

## Model

| member | source | states |
|---|---|---|
| `Odometer.RankIsLexicographic` | datalog/evaluator.go:387-406 | the mixed-radix value of an index tuple orders the tuples exactly as the lexicographic order does |
| `Odometer.AdvanceAddsOne` | datalog/evaluator.go:441-459 | stepping the odometer gives the tuple whose mixed-radix value is one larger |
| `Odometer.NoAdvanceIsLast` | datalog/evaluator.go:441-459 | the odometer has no step left if and only if its digits have their largest value |
| `Odometer.AdvanceSkipsPrefix` | datalog/evaluator.go:408-434 | skipping at a failed position passes over exactly the remaining tuples that agree with the current one up to that position |
| `Odometer.Combinations.Increment` | datalog/evaluator.go:441-459 | the in-place increment leaves exactly the tuples after the current one ahead |
| `Odometer.Combinations.FailedAtIndex` | datalog/evaluator.go:408-434 | the in-place skip, in whatever turn and however often it is called, leaves exactly the tuples ahead that differ from the current one up to the failed position; out of range it does nothing |
| `Odometer.Combinations.Next` | datalog/evaluator.go:470-521 | the iterator yields every tuple still ahead, in order; the number of tuples left decreases |
| `Matching.UnifyExact` | datalog/evaluator.go:65-122 | unification yields bindings exactly when some bindings agree with every position of every fact, and they are the only ones |
| `Matching.UnifiedBodyIsInstance` | datalog/evaluator.go:172-183 | a ground tuple of facts that unifies with a body is that body instantiated |
| `Evaluation.InsertSlot` | datalog/evaluator.go:78-87 | inserting a variable accepts a free slot or the same term, and rejects another term |
| `Evaluation.Complete` | datalog/evaluator.go:89-97 | the slots are complete exactly when every variable is bound, and give those bindings |
| `Evaluation.CombineIt.FirstMismatch` | datalog/evaluator.go:338-348 | a position returned rules out every tuple with the same prefix; none means every fact matches its predicate |
| `Evaluation.CombineIt.Gather` | datalog/evaluator.go:350-363 | the variables gathered are the unifier of the tuple; a conflict rules out every tuple with the same prefix |
| `Evaluation.CombineIt.Next` | datalog/evaluator.go:323-385 | the next match is the first one at or after the horizon, with its bindings and origin; nothing before it matches |
| `Evaluation.AllMatches` | datalog/evaluator.go:323-385 | with pruning, exactly the index tuples whose facts match and unify with the body are yielded, each once, in lexicographic order |
| `Evaluation.Apply` | datalog/evaluator.go:156-192 | a rule produces exactly the facts its instances yield, with the union of the origins and its own block, or errs exactly when some instance errs, in any order of the facts |
| `Datalog.TuplesExact` | datalog/evaluator.go:467-521 | the tuples of k facts are exactly the lists of k facts of the set |
| `Datalog.DerivedMonotone` | datalog/evaluator.go:156-192 | more facts never take a derived fact or an error away |
| `Verdicts.FiringExact` | datalog/evaluator.go:156-192 | a rule yields a fact from a tuple if and only if the tuple unifies with the body, all expressions are true, and the fact is the head so bound, with its own block and all the blocks of the tuple as origin |
| `Verdicts.FiringErrs` | datalog/evaluator.go:156-192 | it errs if and only if the tuple unifies and an expression errs before one is not true, or all are true and a variable of the head is unbound |
| `Worlds.World.ApplyRules` | datalog/datalog.go:998-1024 | one pass over the rules gives what all of them produce from the facts of the round before, whatever the order of the rules |
| `Worlds.World.RunRound` | datalog/datalog.go:998-1043 | one round ends the run on a rule error, on too many facts, or when nothing is new, in this order of precedence |
| `Worlds.World.Run` | datalog/datalog.go:987-1053 | the loop computes the specified outcome and leaves the specified facts |
| `Rounds.RoundExact` | datalog/datalog.go:998-1029 | a round adds exactly what some rule yields on a tuple of facts all of whose blocks it trusts |
| `Rounds.RoundErrsExact` | datalog/datalog.go:998-1024 | a round errs if and only if some rule errs on such a tuple |
| `Rounds.DoneIsQuiet` | datalog/datalog.go:1026-1041 | on the facts a successful run leaves no rule errs, and none yields a fact that is not there |
| `Rounds.RunFailsAtOnce` | datalog/datalog.go:987-1024 | a rule that errs on the facts a run starts from ends it there, unless there are no iterations at all |
| `Rounds.LimitsMean` | datalog/datalog.go:987-1043 | limits that are not negative are what they say; a negative fact limit is out of reach, a negative number of iterations none |
| `Iteration.RunOutcomes` | datalog/datalog.go:987-1053 | a run ends for an error, for too many facts, or out of iterations if and only if this is what it meets first |
| `Iteration.RunSucceedsIff` | datalog/datalog.go:987-1053 | bounded iteration succeeds exactly when it stabilises within the limits |
| `Iteration.RunIsLeastFixpoint` | datalog/datalog.go:1026-1041 | a successful run leaves the least fixpoint above the start |
| `Iteration.IterateReachesFixpoint` | datalog/datalog.go:1026-1041 | growing within a finite universe reaches a fixpoint |
| `Iteration.EndlessRunGrows` | datalog/datalog.go:1026-1041 | until it stabilises every round adds at least one fact |
| `Fixpoints.RunSucceeds` | datalog/datalog.go:987-1053 | Run succeeds if and only if the rounds stabilise within the iteration limit, below the fact limit and without rule errors |
| `Fixpoints.RunLeavesLeastClosed` | datalog/datalog.go:987-1053 | after a successful run the facts are the least set that holds the start and is closed under every rule over its trusted origin; running again changes nothing |
| `Fixpoints.RoundMonotone` | datalog/datalog.go:998-1029 | a round of more facts yields at least as much |
| `Fixpoints.ClosedIsFixpoint` | datalog/datalog.go:998-1029 | sets closed under the rules are exactly the fixpoints of a round |
| `Derivations.OriginIsBlocks` | datalog/evaluator.go:161-189 | the origin of a derived fact is the union of the block ids of the leaves and rules of its derivation |
| `Derivations.RunLeavesDerivable` | datalog/datalog.go:987-1053 | at every exit of Run each fact has a derivation within the trusted origins whose blocks are its origin; after success a fact is there exactly when it has one |
| `Termination.FiringInUniverse` | datalog/evaluator.go:172-188 | a rule yields facts made of terms of its facts and of rule heads, and block ids already present, only |
| `Termination.RoundsEnd` | datalog/datalog.go:1026-1041 | without an iteration limit the rounds still reach a fixpoint, after no more rounds than the finite universe has facts |
| `Isolation.ProducedOrigin` | datalog/evaluator.go:161-189 | every fact a rule produces carries the id of its block |
| `Isolation.RoundIsolated` | datalog/datalog.go:998-1029 | one round with the facts and rules of a block nobody trusts leaves the facts without that block id as they are without the block |
| `Isolation.RoundsIsolated` | datalog/datalog.go:998-1029 | the same for any number of rounds |
| `Isolation.RunIsolated` | datalog/datalog.go:987-1053 | the same for a whole run within the limits: if the run with the block succeeds so does the run without it, and leaves exactly those facts |
| `Scopes.NewTrustedOriginFromScopes` | datalog/origin.go:181-221 | the trusted origin computed by the loops is the one the scopes define, with the block scopes as the default |
| `Scopes.TrustedExact` | datalog/origin.go:181-221 | which blocks are trusted, each id if and only if: itself, the authorizer, the authority by default, and what the scopes in force reach |
| `Scopes.LaterBlockTrusted` | datalog/origin.go:181-221 | an earlier block or the authorizer trusts a later block exactly when a key scope in force names a key registered for it |
| `Checks.VerifyAnyMatches` | datalog/evaluator.go:236-259 | some match has all its expressions true, up to the first error |
| `Checks.VerifyAllMatches` | datalog/evaluator.go:261-282 | there is a match and all matches have all their expressions true, up to the first error |
| `Checks.VerifyNoMatches` | datalog/evaluator.go:284-299 | no match has a true expression, up to the first error |
| `Checks.VerifyQuery` | datalog/datalog.go:504-530 | the verdict on one query under the kind of the check |
| `Checks.Verify` | datalog/datalog.go:486-535 | every verdict Verify returns is one that its specification allows for some order of the facts |
| `Checks.CheckComesTo` | datalog/datalog.go:486-535 | for every check over any facts some verdict is possible |
| `Checks.QueryMeans` | datalog/evaluator.go:236-299 | without errors the verdict on a query equals its quantified meaning over the visible facts |
| `Checks.VerifyMeans` | datalog/datalog.go:486-535 | without errors Verify equals its meaning: One some match with all expressions true, All every query a match and only such matches, Reject no match with a true expression |
| `Verdicts.JudgeExact` | datalog/evaluator.go:196-232 | the expressions hold on a match if and only if all are true, err if and only if the first that is not true errs, and fail otherwise |
| `Verdicts.JudgeNoneExact` | datalog/evaluator.go:284-299 | under Reject they pass if and only if none errs and none is true; otherwise the first that errs or is true decides |
| `Verdicts.QueryVerdicts` | datalog/evaluator.go:236-299 | errors or not: All is true exactly when there is a match and every match is all true, Reject exactly when no expression on any match errs or is true, and One is false exactly when every match stops on a value; any other verdict needs a match that gives it |
| `Verdicts.QueryVerdictsIff` | datalog/evaluator.go:236-299 | so these verdicts are possible if and only if they are forced, and an error is the only one when neither truth nor falsehood has a match for it |
| `Verdicts.OnlyErrors` | datalog/evaluator.go:236-299 | when there is a match and every match errs at its first expression, an error is the only verdict, of any kind |
| `Verdicts.OneVerdicts` | datalog/datalog.go:486-535 | a check of kind One is true only after queries that are false, on one that is true; false exactly when all are; and errs only after queries that are false |
| `Verdicts.EachVerdicts` | datalog/datalog.go:486-535 | a check of kind All or Reject is true exactly when all its queries are, gives an answer only if each query can, and errs only if one does |
| `Verdicts.CheckVerdictsIff` | datalog/datalog.go:486-535 | the same as an equivalence with what the check can come to |
| `Verdicts.ErringCheck` | datalog/datalog.go:506-530 | a query that errs on every match makes the whole check err: under All and Reject wherever it stands, under One after queries that are false |
| `Verdicts.PassingCheckHolds` | datalog/datalog.go:486-535 | a check that passes holds as its kind means, whether or not other expressions err |
| `Checks.RejectNegatesOne` | datalog/evaluator.go:284-299 | on one query with one expression Reject is the negation of One |
| `Checks.RejectNegatesOneIff` | datalog/evaluator.go:236-299 | Reject is the negation of One on a query if and only if it finds nothing when it has no expressions, and otherwise a true expression on some match comes with a match on which all are true |
| `Checks.RejectNeedsExpressions` | datalog/evaluator.go:284-299 | a Reject query without expressions never rejects, although it matches |
| `Authorization.AnswerMeans` | authorizer.go:496-513 | a check of the authorizer passes if and only if some query finds a fact and none before it finds one or errs; it errs if and only if a query errs before any finds one |
| `Authorization.DecideMeans` | authorizer.go:555-598 | the request is allowed, or denied, if and only if some policy of that kind has an answer and all earlier ones have none; it fails if and only if a policy errs first, and no policy matches if and only if none has an answer or errs |
| `Authorization.Authorizer.QueryRule` | datalog/datalog.go:1094-1104 | a query derives from exactly the facts its trusted origin covers |
| `Authorization.Authorizer.RunAuthorizerChecks` | authorizer.go:495-522 | an error of any check shows; otherwise they pass exactly when every check has an answer |
| `Authorization.Authorizer.RunBlockChecks` | authorizer.go:524-548 | an error is returned only when some check can err, success only when all can pass, and failure only when some can fail and all can answer |
| `Authorization.Authorizer.RunPolicies` | authorizer.go:555-598 | the policies are tried in order up to the first answer or error |
| `Authorization.Authorizer.Authorize` | authorizer.go:486-599 | the world is left as Run leaves it, and the decision is one that some order of the facts allows; so what every order forces is what comes |
| `Authorization.MustDecideMeans` | authorizer.go:486-599 | when each decision is the only possible one: QueryFailed if and only if an own check errs, some block check has no answer but an error, or all checks must pass and a policy errs; ChecksFailed if and only if no check can err and one must fail; Allowed, Denied and NoPolicy if and only if all checks must pass and the policies say so |
| `Authorization.SomethingDecided` | authorizer.go:486-599 | some decision is always possible |
| `Authorization.ErringCheckDecides` | authorizer.go:536-538 | a block check that errs in every order makes the query fail, whatever else fails |
| `Authorization.OwnCheckDecides` | authorizer.go:495-522 | an own check that errs makes the query fail; if none errs, one that finds nothing leaves ChecksFailed, or the error of a block check |
| `Authorization.AllowIsDecided` | authorizer.go:486-599 | that a request can be, or must be, allowed is one case of the possible decisions |
| `Answers.QueryAnswers` | datalog/evaluator.go:156-192 | a query without errors whose head is bound finds a fact if and only if some match has all its expressions true |
| `Answers.AnswerIsOne` | authorizer.go:496-513 | without errors a check of the authorizer passes if and only if its queries hold as a check of kind One |
| `Answers.AllAgreesIff` | authorizer.go:496-513 | a check of kind All is decided by the authorizer as its kind means if and only if it has a query and, when something is left open, One fails too |
| `Answers.RejectAgreesIff` | authorizer.go:496-513 | a check of kind Reject is decided by the authorizer as its kind means if and only if something is true on a match but One fails, or nothing is true and a query without expressions matches |
| `Answers.RejectNeverAgrees` | authorizer.go:496-513 | with one expression in each query the authorizer decides every Reject the wrong way round |
| `Answers.AllAlwaysAgreesIff` | authorizer.go:496-513 | an All check of one query is decided as its kind means, whatever the facts and the expressions come to, if and only if it has no expressions or its body no variables |
| `Answers.RejectAlwaysAgreesIff` | authorizer.go:496-513 | a Reject check of one query is so decided if and only if it has neither body nor expressions |
| `Answers.NeitherOneNorReject` | datalog/evaluator.go:284-299 | the input: a query with a true and a false expression passes neither as One nor as Reject |
| `Answers.OwnRejectPasses` | authorizer.go:496-513 | the input: Reject of a true query passes as a check of the authorizer, and does not as one of a block |
| `Attenuation.Build` | authorizer.go:304-462 | building loads the facts of every block under its id, its rules under their trusted origins, and the authorizer under its own id |
| `Admission.StartFactsExact` | authorizer.go:352-366 | the run starts from exactly the facts of each block under its id, and those of the authorizer under its own |
| `Admission.WorldRulesExact` | authorizer.go:369-388 | its rules are exactly those of each block and of the authorizer, each under its id and the trusted origin of its scopes |
| `Admission.SeenExact` | datalog/origin.go:181-221 | a query sees a fact if and only if it trusts every block behind it |
| `Admission.PolicyIsQuery` | authorizer.go:555-598 | a policy of one query decides by what that query finds without the scopes of the authorizer |
| `Admission.TokenCanIff` | authorizer.go:486-599 | a token can be allowed if and only if the run succeeds, every own check passes, every check of every block can pass, each over what its block trusts, and the policies allow |
| `Admission.TokenMustIff` | authorizer.go:486-599 | it must be if and only if, moreover, no check of a block can come to anything else |
| `Admission.AllowedTokenHolds` | authorizer.go:524-548 | every check of every block of a token that is allowed holds as its kind means, on the facts the run leaves |
| `Admission.AuthorizeToken` | authorizer.go:304-599 | Build followed by Authorize allows only tokens all of whose block checks hold, and all that must be allowed |
| `Attenuation.TrustForgets` | datalog/origin.go:181-221 | forgetting a block in the key registry takes just that block out of every trusted origin |
| `Attenuation.AppendedBlockOnlyRestricts` | authorizer.go:486-599 | if a token with an extra last block that nothing else trusts can be allowed, it can be allowed without that block, limits and errors included; the same for must |
| `Attenuation.FirstPartyBlockOnlyRestricts` | authorizer.go:486-599 | appending any first-party block can only restrict any token: what can be allowed with it can be without it, and what must be allowed with it must be without it |
| `StackMachine.ExecCode` | datalog/expressions.go:28-91 | the code of a tree pushes the value of the tree exactly when it has one and the stack has room; it never underflows |
| `StackMachine.RunCode` | datalog/expressions.go:28-91 | running the code of a tree succeeds exactly when the tree has a value and its stack need is at most 1000, with that value |
| `StackMachine.RunIsOfTree` | datalog/expressions.go:28-91 | whatever runs to the end with one value is the code of some tree |
| `Expressions.EvaluateOp` | datalog/expressions.go:31-80 | one turn of the evaluation loop does what the machine step does, errors included |
| `Expressions.Evaluate` | datalog/expressions.go:28-91 | the loop computes the result of running the code, or the same error |
| `Expressions.ArithmeticIsExact` | datalog/expressions.go:948-1062 | integer addition, subtraction and multiplication are exact or report an overflow |
| `Expressions.DivisionTruncates` | datalog/expressions.go:1086-1101 | division truncates toward zero, errs exactly on zero, and wraps in one case |
| `Operators.OrderingsMean` | datalog/expressions.go:497-640 | the four orderings are those of the numbers, on two integers or two dates, and err on anything else |
| `Operators.EqualMeans` | datalog/expressions.go:656-680 | equality is true of the same value only, sets by their elements, and errs exactly on different kinds or variables |
| `Operators.TextsMean` | datalog/expressions.go:727-945 | prefix, suffix and substring are what leaves a rest after, before, or around; a pattern is matched against the text on its left; strings add by concatenation |
| `Operators.ContainsMeans` | datalog/expressions.go:700-752 | a set contains an element, or all those of another set, and nothing else can be asked |
| `Operators.SetsMean` | datalog/expressions.go:766-826 | intersection and union by membership, of two sets only |
| `Operators.LogicMeans` | datalog/expressions.go:1106-1177 | the truth tables of and, or and not, on truth values only |
| `Operators.LengthMeans` | datalog/expressions.go:355-372 | the length of a string, a byte string or a set, and of nothing else |
| `Operators.ArithmeticTakesIntegers` | datalog/expressions.go:948-1101 | arithmetic errs on anything but two integers, or two strings to add |
| `Operators.BinaryCode` | datalog/expressions.go:28-91 | the code of two values and an operator evaluates to v if and only if the values, or what their variables are bound to, give v |
| `Operators.UnaryCode` | datalog/expressions.go:28-91 | the same for one value and a unary operator |
| `Grammar.ToExpr0` | parser/grammar.go:439-445 | compiling an expression appends exactly the code of its tree to the buffer |
| `Grammar.ToExpr3` | parser/grammar.go:463-469 | sums group to the left |
| `Grammar.ToExpr6` | parser/grammar.go:486-491 | method calls apply to all that is to their left |
| `Grammar.ToExprTerm` | parser/grammar.go:493-505 | parentheses append their operator after the expression inside |
| `Grammar.Compile` | parser/grammar.go:439-582 | the compiled code of an expression is the code of its tree |
| `Grammar.CompiledCodeComputesTree` | parser/grammar.go:439-582 | evaluating compiled code returns v if and only if evaluating the tree does and its stack need is at most 1000 |
| `Operators.WrittenComparisons` | parser/grammar.go:455-461 | a written comparison of two integers is that of the numbers |
| `Operators.WrittenSums` | parser/grammar.go:463-469 | written differences are taken from the left |
| `Operators.WrittenProducts` | parser/grammar.go:471-477 | written quotients and products are taken from the left |
| `Operators.WrittenCalls` | parser/grammar.go:486-491 | what the method calls on strings mean |
| `Operators.WrittenSetCalls` | parser/grammar.go:486-491 | what the method calls on sets mean |
| `Operators.WrittenLogic` | parser/grammar.go:439-453 | what or, and and not mean |
| `Printing.Print` | datalog/expressions.go:93-161 | the loop computes the printed text, or nothing where the source prints an error |
| `Printing.PrintParseRoundTrip` | datalog/expressions.go:93-161 | compiled code prints exactly when it fits the stack, and parsing the printed tokens gives back the same expression |
| `Printing.UngroupedCodeIsLost` | datalog/expressions.go:392-433 | the smallest family that does not survive: a sum under a product without parentheses comes back as another expression |
| `Grouping.SurvivesIff` | datalog/expressions.go:93-433 | the code of a tree prints, and parses back to itself, if and only if every operand is grouped as its operator needs and the tree fits the stack |
| `Grouping.CodeSurvivesIff` | datalog/expressions.go:93-433 | any code at all survives printing and parsing if and only if it is the code of such a tree |
| `Grouping.CodeInjective` | datalog/expressions.go:28-91 | two trees, of any size, have the same code only if they are the same |
| `Symbols.SymbolTable.Insert` | datalog/symbol.go:50-65 | the id returned is the one the string has in the table afterwards, and resolves to it |
| `Symbols.SymbolTable.Extend` | datalog/symbol.go:169-173 | extending interns the other symbols in order, known ones excluded |
| `Symbols.SymbolTable.SplitOff` | datalog/symbol.go:133-144 | the table is cut in two parts that together are the old table |
| `Symbols.IsDisjoint` | datalog/symbol.go:152-165 | true exactly when the tables share no symbol |
| `Symbols.SymStr` | datalog/symbol.go:67-80 | a string has an id exactly when it is known, and the id stands for it |
| `Symbols.StrSym` | datalog/symbol.go:97-109 | in a table without duplicates the id of what an id resolves to is that id |
| `Symbols.GrowthKeepsMeaning` | datalog/symbol.go:50-65 | an id keeps its meaning while the table grows |
| `Symbols.InternAllGrows` | datalog/symbol.go:169-173 | extending keeps the table as a prefix, makes just the new symbols known, and adds no duplicate |
| `Windows.Build` | builder.go:309-368 | the window of a block is just what building it adds to the table |
| `Windows.Rebuild` | builder.go:151-182 | reading a token back folds the windows into one table; extending twice changes nothing |
| `Windows.WindowIsFresh` | builder.go:309-368 | a window holds no known symbol and no symbol twice |
| `Windows.AppendKeepsBuiltTable` | biscuit.go:219-243 | appending a built block is never refused for an overlap, and leaves the token with the table the block was built with |
| `Windows.RebuiltExtends` | builder.go:140-182 | the rebuilt table extends that of the token if and only if every first-party window and the third-party symbols pending before it are prefixes one of the other |
| `Windows.RebuiltIsTable` | builder.go:140-182 | the rebuilt table is that of the token if and only if, moreover, no third-party symbol is pending at the end |
| `Windows.FirstPartyAligned` | builder.go:140-182 | first-party blocks alone always meet both conditions |
| `Windows.IdsSurviveIff` | builder.go:140-182 | every id of the token keeps its meaning in the rebuilt table if and only if the windows are so aligned |
| `Windows.WindowsAgree` | builder.go:309-368 | along aligned chains, third-party blocks included, every id a first-party block can use resolves alike in the table it was built with, in the table after every later append, and in the rebuilt table |
| `Windows.ThirdPartyShiftsIds` | builder.go:174-180 | the smallest chain that is not aligned: after a third-party block the rebuilt table gives a later id another meaning |
| `Interning.TermGrows` | types.go:278-316 | a term resolves alike while its table grows |
| `Interning.TermsResolveApart` | types.go:278-316 | in a table without duplicates terms resolve to the same value only if they are the same, sets included |
| `Interning.ConvertTerm` | types.go:949-951 | a converted term resolves to the original, sets included, when the table gives no variable of the term an id of more than 32 bits; and only then, provided its ids are defined or no variable is named like an undefined symbol. The table only grows |
| `Interning.ConvertPredicate` | types.go:880-890 | a converted predicate resolves to the original under the same condition, in both directions |
| `Interning.ConvertRule` | types.go:436-464 | a converted rule resolves to the original under the same condition, in both directions, although ids are issued while the table grows; whether it can be written does not change |
| `Interning.ConvertCheck` | types.go:814-839 | the same for a check, whose kind stays |
| `Reinterning.MatchCommutes` | datalog/datalog.go:338-353 | predicates match on ids exactly when they match on the symbols |
| `Reinterning.UnifyCommutes` | datalog/evaluator.go:65-122 | unification on ids and on symbols succeed together with mirrored bindings |
| `Reinterning.InstantiateCommutes` | datalog/evaluator.go:172-183 | instantiating a head on ids and on symbols gives the same fact, or fails alike |
| `Reinterning.BinaryCommutes` | datalog/expressions.go:497-1177 | a binary operator on ids gives what it gives on the symbols, or errs alike; string concatenation interns its result |
| `Reinterning.UnaryCommutes` | datalog/expressions.go:295-372 | a unary operator on ids gives what it gives on the symbols, or errs alike |
| `Reinterning.RunCommutes` | datalog/expressions.go:28-91 | evaluating on ids, with a table that grows, gives the value or the error that evaluating on symbols gives |
| `Reinterning.JudgeCommutes` | datalog/evaluator.go:196-232 | the expressions of a rule come to the same verdict on ids as on symbols |
| `Reinterning.FireCommutes` | datalog/evaluator.go:156-192 | a rule on one tuple of facts is silent, errs or yields on ids as it does on symbols, the yielded fact included |
| `Reinterning.MoveFact` | authorizer.go:355-366 | a fact moved to the authorizer table resolves as it did in its block when no variable is cut off to 32 bits, and only then under the same proviso |
| `Reinterning.MoveRule` | authorizer.go:369-388 | the same for a rule |
| `Reinterning.MoveCheck` | authorizer.go:391-403 | the same for a check |
| `Reinterning.JudgeNoneCommutes` | datalog/evaluator.go:284-299 | the expressions of a Reject query come to the same verdict on ids as on symbols |
| `IdWorlds.ApplyIds` | datalog/evaluator.go:156-192 | a rule applied on ids over a listed set of facts, with a table that grows from tuple to tuple, gives the facts that stand for those derived on symbols, or errs exactly when it does there |
| `IdWorlds.RoundIds` | datalog/datalog.go:998-1024 | the same for one pass over all the rules |
| `IdWorlds.RunWithIds` | datalog/datalog.go:987-1053 | a whole run on ids ends as the run on symbols does, and leaves facts that stand for its facts |
| `IdChecks.KindCommutes` | datalog/evaluator.go:236-299 | over bindings that mirror each other the verdict of each kind is the same on ids as on symbols |
| `IdChecks.MatchesOnSymbols` | datalog/evaluator.go:323-385 | the matches found on ids mirror the matches found on symbols, at the same index tuples and in the same order |
| `IdChecks.MatchesOnIds` | datalog/evaluator.go:323-385 | and every list of matches on symbols mirrors one on ids |
| `IdChecks.QueryCommutes` | datalog/datalog.go:504-530 | a query of a check can come to a verdict on ids if and only if it can come to it on symbols |
| `IdChecks.CheckCommutes` | datalog/datalog.go:486-535 | the same for a whole check, whose queries each go on with the table the one before left |
| `Reinterning.FiringMoves` | authorizer.go:352-403 | a rule does the same with the same tuple of facts before and after both are moved to another table |
| `Messages.EncodeTerm` | converters_v2.go:70-202 | a term can be written exactly when it is no set of mixed, variable or set elements, and reads back as itself |
| `Messages.EncodePredicate` | converters_v2.go:35-68 | a predicate that can be written reads back as itself |
| `Messages.EncodeExpression` | converters_v2.go:291-350 | an expression that can be written reads back as itself |
| `Messages.EncodeRule` | converters_v2.go:204-289 | a rule can be written exactly when all its terms can, and reads back as itself with its scopes |
| `Messages.EncodeCheck` | converters_v2.go:468-530 | a check can be written exactly when its queries can, and reads back as itself with its kind |
| `Messages.Forms` | converters_v2.go:70-202 | which term, scope and kind each form of message is read as |
| `Policies.SaveRules` | authorizer.go:130-138 | rules can be saved exactly when their terms can be written; what is saved reads back with the same scopes, and stands for them in the final table when none of their variables is cut off |
| `Policies.Builder.SerializePolicies` | authorizer.go:114-182 | facts, rules, checks and policies are saved in order, exactly when they can be written; the message stands for them when no variable is cut off |
| `Policies.Builder.LoadPolicies` | authorizer.go:184-275 | a message loads exactly when every part does, and is appended in order; after an error exactly the longest prefix that loads, over the parts in order, is appended |
| `Policies.LoadEach` | authorizer.go:199-275 | each loop loads up to the first element that fails |
| `Policies.SavedLoads` | authorizer.go:114-275 | a message that stands for its contents loads if and only if no rule or query trusts a public key, and then as they were |
| `Policies.WrittenLoads` | authorizer.go:114-275 | whatever was cut off, a saved message loads if and only if no rule or query trusts a public key; if it comes back as it was, and no variable is named like an undefined symbol, nothing was cut off |
| `Policies.LoadsIff` | authorizer.go:184-275 | a message loads if and only if its version is 3 to 6 and every part can be read and trusts no key; policies keep their kind |
| `Policies.SaveAndLoad` | authorizer.go:114-275 | saving into a message succeeds exactly when all can be written, and loading it into an empty builder exactly when nothing trusts a key; facts, rules, checks and policies are then restored in order when no variable is cut off, and only then unless a variable is named like an undefined symbol |
| `HashSets.HashSet.Of` | internal/set/hashset.go:19-30 | a new set holds exactly the values given |
| `HashSets.HashSet.Copy` | internal/set/hashset.go:36-47 | a clone has the same elements in buckets of its own |
| `HashSets.HashSet.Insert` | internal/set/hashset.go:62-81 | whatever the elements: looks for an equal one in the bucket of the hash, appends if there is none, and counts it; if equality and hash agree, the elements are those before and the new one |
| `HashSets.ChangeClone` | internal/set/hashset.go:36-47 | inserting into and removing from a clone leaves the original as it was |
| `HashSets.InsertShared` | internal/set/hashset.go:62-81 | inserting through a copy of the struct puts the element into the original too, whose size is then wrong if and only if the element is new |
| `HashSets.RemoveShared` | internal/set/hashset.go:84-99 | the same for removing an element that is there |
| `HashSets.InsertEquals` | internal/set/hashset.go:62-81 | of two equal elements both are kept and counted if and only if they hash apart |
| `HashSets.HashSet.Remove` | internal/set/hashset.go:84-99 | takes the element out, says whether it was there, and leaves the others |
| `HashSets.HashSet.Contains` | internal/set/hashset.go:101-111 | true exactly for elements |
| `HashSets.HashSet.ToSlice` | internal/set/hashset.go:49-59 | iteration lists every element once |
| `HashSets.HashSet.Intersect` | internal/set/hashset.go:113-123 | the intersection, as a new set |
| `HashSets.HashSet.Union` | internal/set/hashset.go:125-133 | the union, as a new set; the operands stay as they are |
| `HashSets.HashSet.IsSuperSet` | internal/set/hashset.go:135-142 | true exactly for supersets |
| `HashSets.NotInBucket` | internal/set/hashset.go:101-111 | an element that is not in the bucket of its hash is nowhere in the set |
| `Ordering.CompareFlips` | datalog/datalog.go:63-302 | comparing the other way round gives the opposite sign, sets included |
| `Ordering.CompareTransitive` | datalog/datalog.go:63-302 | the order of terms is transitive, sets included |
| `Ordering.CompareIsEquality` | datalog/datalog.go:63-302 | terms compare as 0 exactly when they are the same value; sets exactly when they have the same elements in any order |
| `Ordering.SortedSorts` | internal/set/helpers.go:25-31 | sorting gives a sorted permutation |
| `Ordering.SortedIsCanonical` | internal/set/helpers.go:25-31 | sorting the elements of one set in any order gives the same list of values |
| `Ordering.CompareSlices` | internal/set/helpers.go:53-69 | the loop finds the first difference; anything is greater than a nil slice |
| `Ordering.SlicesEqual` | internal/set/helpers.go:53-69 | slices compare as 0 exactly when the second is not nil and they hold the same values |
| `Ordering.CompareAscends` | datalog/datalog.go:63-302 | which way round: variables before integers, strings, dates, byte strings, truth values and sets, numbers and ids ascending, byte strings lexicographically, smaller sets first |
| `Origins.CompareIdsByRank` | datalog/datalog.go:376-393 | block ids are totally ordered, the authorizer first |
| `Origins.EncodeToString` | datalog/origin.go:90-103 | the loop writes the one key of the origin, whatever order the ids come in |
| `Origins.NewOriginFromString` | datalog/origin.go:35-51 | the loop reads a key as specified, or fails on the first part that is no number |
| `Origins.EncodingDecodes` | datalog/origin.go:35-103 | decoding the key of an origin gives it back, unless it is empty |
| `Origins.EncodingIsCanonical` | datalog/origin.go:90-103 | two origins have the same key only if they are the same |
| `FactSets.FactSet.Insert` | datalog/datalog.go:643-650 | adds the fact with this origin and nothing else, in place if the origin has facts already |
| `FactSets.FactSet.InsertMulti` | datalog/datalog.go:652-659 | adds all the facts with this origin and nothing else, in a new hash set |
| `FactSets.FactSet.InsertNew` | datalog/datalog.go:661-672 | adds the fact and says whether this pair was new |
| `FactSets.FactSet.Copy` | datalog/datalog.go:683-689 | every hash set is cloned into buckets of its own |
| `FactSets.FactSet.WithOrigin` | datalog/datalog.go:622-641 | keeps exactly the pairs whose origin lies within the trusted one, in copies of the structs that share their buckets with the original |
| `FactSets.FactSet.Count` | datalog/datalog.go:675-681 | the sum of the size fields, which is the number of pairs of an origin and a fact when the fact set is valid |
| `FactSets.InsertFiltered` | datalog/datalog.go:635-650 | inserting into a filtered fact set shows in the original if and only if the original has facts of that origin and the filter trusts it; the original does not count the fact, so that it stays valid if and only if nothing shows or the fact was there |
| `FactSets.InsertMultiFiltered` | datalog/datalog.go:635-659 | InsertMulti on a filtered fact set leaves the original as it was |
| `FactSets.InsertCloned` | datalog/datalog.go:643-689 | inserting into a clone leaves the original as it was |
| `Hashing.SteadyIff` | datalog/datalog.go:82-306 | all the orders in which a term can be stored write the same to the hash builder if and only if, in every set in it, what any two elements write commutes |
| `Hashing.ScalarSets` | datalog/datalog.go:82-88 | a set of integers, strings, dates, booleans and variables writes the same in every order if and only if it has at most one element |
| `Hashing.SingleIsSteady` | datalog/datalog.go:82-88 | a term in which no set has two elements writes the same however it is stored |
| `Hashing.OrderShows` | datalog/datalog.go:82-88 | two orders of the set of 1 and 2 are equal and write different streams; a set of two byte strings may yet write only one |
| `Hashing.FactSteadyIff` | datalog/datalog.go:326-332 | all stored forms of a fact write the same if and only if all those of each of its terms do |
| `Hashing.SteadyFactsLawful` | datalog/datalog.go:309-332 | whatever the hash function, steady facts are what a hash set expects: equality is an equivalence, and equal facts hash equally |
| `Hashing.SteadyIffHashes` | datalog/datalog.go:309-332 | a fact hashes like all its equals under every hash function if and only if it is steady |
| `Hashing.OneFactTwoStreams` | datalog/datalog.go:309-332 | the input: a fact with the set of 1 and 2 has two stored forms that write different streams |
| `Hashing.CountEquals` | datalog/datalog.go:309-332 | two stored forms of one fact are kept and counted twice if and only if they hash apart |
| `Tokens.AuthorizerFor` | biscuit.go:461-593 | accepts exactly the tokens every link of whose chain verifies, proof included |
| `Chains.AcceptedSigners` | biscuit.go:461-573 | in an accepted token every block is signed by the key the one before announces, the authority by the root key, over its own content, and in version 1 over the signature before it |
| `Chains.AcceptedExternals` | biscuit.go:540-560 | an external signature on a later block is by the key beside it, over the block and the signature before it |
| `Chains.AcceptedProof` | biscuit.go:575-593 | its proof is the secret of the last next key, or a signature by that key over the last block |
| `Chains.FinalSignaturePins` | biscuit.go:575-593 | one final signature belongs to one last block, and with version 1 to one token |
| `Chains.SealedCannotBeCut` | biscuit.go:575-593 | a sealed token is refused without any of its last blocks |
| `Tokens.AppendOutcome` | biscuit.go:200-331 | on an accepted token an append fails only when sealed or overlapping; it adds one block signed over the one before, and the token stays accepted |
| `Chains.NewKeys` | biscuit.go:88-160 | a new token announces the fresh key and hands over its secret, signed by the root key |
| `Chains.NewOutcome` | biscuit.go:88-160 | when a token can be made, and which symbols it then knows |
| `Chains.AppendKeys` | biscuit.go:254-300 | an appended block announces the fresh key, its secret is handed over, and the old secret signs |
| `Chains.AppendSymbols` | biscuit.go:219-331 | a first-party block brings its symbols into the table, a third-party block does not |
| `Chains.StrippedIsRefused` | biscuit.go:254-300 | the secret handed over with a block does not open the token without it |
| `Tokens.SealOutcome` | biscuit.go:362-423 | sealing an open accepted token keeps it accepted, with the same blocks and revocation ids |
| `Tokens.SealedIsFinal` | biscuit.go:200-423 | nothing can be appended to a sealed token, nor can it be sealed again |
| `Tokens.RunStaysAccepted` | biscuit.go:200-423 | through any run of appends and seals a token stays accepted, keeps its signed blocks, and its revocation ids grow by one per append at the end |
| `Tokens.ReachableIsAccepted` | biscuit.go:88-423 | every token made by create, append, third-party append and seal is accepted under the root key |
| `Chains.RunKeepsVersion1` | biscuit.go:200-423 | every block made carries a signature of version 1 |
| `Chains.FreshTokenCannotBeCut` | biscuit.go:200-423 | in a token made with fresh keys all keys are different, and its proof opens no shorter chain |
| `Chains.OnlyExtensions` | biscuit.go:461-593 | who holds an accepted token, and keys that sign none of its blocks, can make nothing of it that is accepted but what begins with all its blocks |
| `Chains.SealedStays` | biscuit.go:461-593 | of a sealed token whose last key is withheld nothing else can be made at all |
| `Tokens.SignedRequestIsBound` | third_party.go:132-173 | a block signed on request is taken by exactly the open tokens that end in the requested signature and share no symbol with it, in a recent enough version |
| `Chains.ThirdPartyOutcome` | biscuit.go:341-360 | third-party contents are taken if and only if the token is open, they are signed for its last signature by the key they bring, in version 5 or 6, and share no symbol with it |
| `Tokens.RevocationIdsIdentify` | biscuit.go:808-815 | two accepted tokens of one root key have the same revocation ids exactly when they hold the same signed blocks |
| `Tokens.LastSignaturePinsToken` | biscuit.go:896-921 | with signatures of version 1 the last signature alone determines all the signed blocks |

## Left out

- Cryptography: keys, signatures and the framing of payloads are symbolic. Two payloads that differ as trees are taken to differ as bytes.
- Messages are trees, and marshalling is taken to be one to one; a third-party payload that is not in the form the code itself writes is not covered.
- Blocks whose terms cannot be written are refused before a token is signed; the token model starts after that.
- The parser engine and lexer: the grammar is modelled on tokens, with literals as single tokens. Operators that have no code (`==`, `!=`, `!==`), empty parentheses and calls with the wrong number of arguments are not expressions of the model.
- Strings are sequences of bytes; the model has no Unicode.
- The time limit of Run, its goroutine and channel, and cancellation.
- The early stop of a consumer of matches: consumers run on the full list of matches, which they cannot tell from the iterator.
- World keeps facts and rules in plain sets, as set out above; what a run does on facts that are not steady is not modelled, as it depends on the hash function and the iteration order. Facts whose origin is empty, which no constructor makes, are not covered.
- Buckets are shared as a whole: that two maps of buckets could share the memory of one bucket's slice is not expressed. Clone copies every bucket.
- A fact whose terms are a nil slice, which equals nothing, itself included: `Hashing` covers facts whose terms are not nil.
- Public-key tables of blocks and the authorizer, and when keys are registered while rules are loaded: each block's registry is given as data, and a key is its index.
- Chains.OnlyExtensions: takes it that the keys of the chain differ; `Chains.FreshTokenCannotBeCut` gives this for tokens made with fresh keys. Nothing is said of an external signature beside the authority block, which the source does not verify.
- Two appends from one token, whose tables share memory: tables are values along one chain.
- Symbol ids of 2^63 and more, on which the source indexes with a negative number; ids are natural numbers here.
- Dates are whole seconds; the source drops fractions when it converts.
- Root key ids, which append and Seal do not keep, and the selection of a root key by id.
- Attenuation.Build: takes blocks whose symbols are resolved and whose keys are registered; re-interning is `Reinterning`, `IdWorlds` and `IdChecks`, and key registration is data.
- StackMachine.RunIsOfTree: says that some tree exists, not which text it came from.
- Debug printing, the inspection interface, the text of errors, samples, and the builders' boilerplate.
