# Verification of the circom constraint pipeline

circom turns a template program into a system of rank-1 constraints `A*B - C = 0` over a prime field. This project models
the parts of the compiler between the template graph and the R1CS file, with two pieces of the LLZK backend and the rule
that a signal is assigned at most once, and proves what each step keeps. Run `dafny verify dfyconfig.toml`.

A linear combination is a map from signals to integers, signal 0 being the constant wire with value one; an assignment is
a total function; a constraint holds when its residual is a multiple of the field prime. Hash maps and sets are visited in an
arbitrary order and pool workers finish in an arbitrary order, so every statement holds for all of them. Methods with loops
and state follow the source's loops and state and are proved against functions or predicates, about which the lemmas speak.

| files | what they model |
|---|---|
| Field, ModularArithmetic, LinearCombination, Algebra, Constraints, Elimination, SortedSets | prime fields, coefficient maps, expressions, constraints, solving for a signal |
| SimplificationUtils, LessOccurrences, FullSimplification | the two elimination heuristics for a linear cluster |
| Clusters, ClusterFacts, Equalities, EqSimplification, ConstantEqualities, LinearSimplification, LostEqualities | union-find clustering and the three kinds of linear simplification |
| Frames, FrameChain, FrameLists, NonLinear, Storage, Solutions, Witness | encoded substitutions, the walk over the encoding, the indexed store, extension of solutions, renumbering |
| EarlyFrames, LateFrames, Rounds, IdleSignals, Simplification, SmallCircuits, Determinacy | the whole simplifier, and what its wires determine |
| Dag, GraphRuns, TreeWalk, MapToList, InstancePaths, CircuitMap, RunInterfaces | the template graph, its numbering, the two traversals that flatten it, and its instances told by paths of edges |
| Bytes, R1csFormat, R1csFile, R1csAcceptance, R1csWriter, R1csReader, CustomGates, GateInstances, R1csPorting | the R1CS binary format, version 1 |
| Compilation | from the graph to the file |
| ArrayStatements, ArrayLiteral, ArraySoundness, ArrayRecognition, ArrayCompleteness, ChildFirstChains, NestedLiterals | recovering array literals from initialising statements |
| ScopeStack, ScopeLowering, ScopeResolution, ScopeContext | scoped variables and conditionals as SSA values |
| SignalAssignment, SingleAssignment | single assignment under unknown conditions |

## What the proofs found

- The map built from constant equalities keeps one entry for each signal, so equalities that disagree on a removable signal are
  lost and an unsatisfiable circuit can become satisfiable. `Simplification.EquivalentExactly` gives the exact condition on
  the input, `LostEqualities.ContradictionAccepted` a circuit.
- A local signal whose name is given out again is no longer listed by the tree walk; `GraphRuns.RunNamed` and
  `TreeWalk.WalkExactly` say exactly when, `GraphRuns.RepeatedName` shows one.
- A value set at its declaration (`set_named_value_at_declaration`) is not read back when an enclosed frame has overwritten the
  name; `ScopeContext.AtDeclarationReadBack` says exactly when, `ScopeContext.OverwriteWins` shows one.
- A number that does not fit its field of the R1CS file is written longer, and everything behind it is displaced;
  `Bytes.EncodeOverflows` says exactly when, `Bytes.TwoBytesFor256` shows one.
- When two assignments of a signal lie in different branches of a condition that is not the last of both, the earlier condition is
  forgotten; in structured runs no double assignment is missed through this and none is reported wrongly, as
  `SingleAssignment.ErrorsExactly` shows.
- The header of the R1CS file counts the private inputs of the circuit before simplification, not those left:
  `Compilation.HeaderInputs` says exactly when they differ, `Compilation.IdleInput` gives a condition on the circuit,
  `Compilation.UnusedInput` shows it for a circuit with one input that nothing mentions.
- Signals that must not stay and that no stored constraint mentions are dropped without a definition and stay free, and so does
  what is defined by them: the wires do not determine all signals. `Determinacy.DeterminedExactly` says exactly when they do,
  `Determinacy.LinkedFree` shows a circuit.
- An array literal whose temporaries come first is recovered only when the first temporary is one-dimensional; otherwise the
  first temporary is taken for the whole literal, as `ChildFirstChains.ChainRecognised` shows.

## Model

| member | source | states |
|---|---|---|
| Compilation.Compile | dag/src/map_to_constraint_list.rs:110-147 | mapping, simplification and export in a row: the file is written exactly when its length fits the device; the wire values satisfying its constraints are those some assignment, under which every template instance (reached by a path of edges, offsets summed) satisfies its constraints, gives to the surviving wires (the "only those" half whenever the constant equalities agree); the header counts are those of the main template; the gates are its custom gate templates, each applied by every instance on the wires of its ordered signals; the file reads back as it was written whenever the counts fit four bytes |
| Compilation.BuildList | dag/src/map_to_constraint_list.rs:110-147 | the constraint list of a graph: the outcome of a simplifier that has the counts, flags and forbidden signals of the graph and exactly its solutions |
| Compilation.RunHeader | constraint_list/src/r1cs_porting.rs:37-46 | for every run of the add operations the header counts the outputs, public inputs and private inputs added to the last template |
| Compilation.FileMeaning | constraint_list/src/r1cs_porting.rs:23-33 | wire values satisfy the renumbered constraints if and only if some solution of the circuit in force (of the constant equalities on one removable signal, the last) takes these values on the surviving wires |
| Compilation.FileOriginal | constraint_list/src/r1cs_porting.rs:23-33 | against the circuit as given: forward always, back when constant equalities agree |
| Compilation.HeaderInputs | constraint_list/src/r1cs_porting.rs:37-46 | the header counts the private inputs of the circuit before simplification, and that is the number left if and only if every private input has kept its wire |
| Compilation.ForbiddenInputs | constraint_list/src/r1cs_porting.rs:37-46 | it is, when every private input must stay |
| Compilation.IdleInput | constraint_list/src/r1cs_porting.rs:37-46 | it is not when a private input is idle, a condition on the circuit: removable, and mentioned by no constraint, or by linear ones only when linear simplification is on and no constraint is a product |
| Compilation.UnusedInput | constraint_list/src/r1cs_porting.rs:37-46 | a valid circuit with one private input and no constraint: whatever the run, the header says 1 and 0 are left |
| Compilation.CompiledFits | constraint_list/src/r1cs_porting.rs:4-9 | every number the exporter writes for a simplified circuit fits its width, as soon as labels, constraints, field size and gate lists fit four bytes: canonical coefficients, indexes and wire numbers always do |
| Simplification.Simplify | constraint_list/src/constraint_simplification.rs:442-730 | the stored constraints together with every substitution produced have exactly the solutions of the input equalities, linear and flattened non-linear constraints and constant equalities in force (all of them when they agree), for every hash order, worker order and heuristic; nothing is left undone: the renamed signals and the removable signals of the renamed constant equalities are defined (nothing else, with linear simplification off), and with linear simplification on every stored linear constraint mentions forbidden signals only, unless as many signals were defined as rounds allowed; no dangling wire; signals nothing mentions lose theirs; public prefix keeps its numbers; private inputs left counted exactly; coefficients canonical |
| Simplification.ManyRoundsSettle | constraint_list/src/constraint_simplification.rs:601-643 | with linear simplification on and more rounds allowed than there are signals, every stored linear constraint mentions forbidden signals only |
| Simplification.SolutionsExtend | constraint_list/src/constraint_simplification.rs:442-730 | each solution of the stored constraints on the kept wires extends to the deleted ones, giving a solution of the circuit in force, and in one way only modulo the field once the remaining signals without definition, dropped as unused, are fixed |
| Determinacy.DeterminedExactly | constraint_list/src/constraint_simplification.rs:101-124 | two solutions that agree on the wires agree on every signal, if and only if no signal was dropped as unused (every one has a wire or a definition) or there is no solution |
| Determinacy.DroppedFree | constraint_list/src/constraint_simplification.rs:101-124 | a dropped signal may take another value in a solution in which every wire keeps its own |
| Determinacy.UnmentionedFree | constraint_list/src/constraint_simplification.rs:101-124 | the wires leave something open as soon as the circuit has a solution and a removable signal that none of its constraints mentions |
| Determinacy.LinkedFree | constraint_list/src/constraint_simplification.rs:101-124 | x = 2y + 1 modulo 7, a valid circuit: one of the two signals is defined by the other, which is dropped, and two solutions agree on all wires and differ in both |
| IdleSignals.FramesSpare | constraint_list/src/constraint_simplification.rs:481-602 | the three frames define none of the signals that no constraint of the circuit mentions, and bring none into the linear constraints |
| Simplification.EquivalentExactly | constraint_list/src/constraint_simplification.rs:516-531 | the simplified circuit is equivalent to the input if and only if constant equalities on one removable signal agree, or the input with only the last of each in force has no solution: a condition on the input alone |
| Simplification.OriginalMeaning | constraint_list/src/constraint_simplification.rs:516-531 | a solution of the input is one of the circuit in force, and the converse holds when constant equalities agree |
| LostEqualities.ContradictionUnsatisfiable | constraint_list/src/constraint_simplification.rs:516-531 | the circuit x = 1, x = 2 modulo 7 is a valid input without a solution |
| LostEqualities.ContradictionAccepted | constraint_list/src/constraint_simplification.rs:516-531 | every simplification of it is satisfied by x = 2 |
| Simplification.DisagreementUnsatisfiable | constraint_list/src/constraint_simplification.rs:516-531 | a circuit whose constant equalities disagree on a removable signal has no solution |
| Simplification.ApplyAllFrames | constraint_list/src/constraint_simplification.rs:468-597 | the three frames and the walk: definitions are triangular, define exactly the deleted signals and no forbidden one, lose or add no solution, and define the renamed signals and the removable signals of the renamed constant equalities (nothing else, with linear simplification off) |
| Simplification.ApplyRounds | constraint_list/src/constraint_simplification.rs:601-646 | the rounds keep store, linear rest, constant rest and definitions equivalent to the input, with no deleted signal mentioned anywhere and all coefficients canonical; none runs with linear simplification off, otherwise they go on until the linear rest is empty or the budget is used up, each defining a signal or finding none to define |
| Simplification.Finish | constraint_list/src/constraint_simplification.rs:648-730 | linear and constant rests join the store, empty constraints leave it, wires are renumbered: meaning kept, every stored signal has a number |
| Simplification.Renumber | constraint_list/src/constraint_simplification.rs:700-722 | the map numbers exactly the surviving signals by rank, and the private inputs left are those not deleted |
| EarlyFrames.SingleFrame | constraint_list/src/constraint_simplification.rs:481-511 | first frame: renaming and kept equalities say what the equalities said; linear and constant equalities are rewritten by the unpruned frame although only relevant entries are handed on |
| EarlyFrames.RenamingUnique | constraint_list/src/constraint_simplification.rs:481-511 | the renaming depends on the equalities and the forbidden signals only, not on any scheduling |
| EarlyFrames.ConstantStep | constraint_list/src/constraint_simplification.rs:513-531 | second frame: frame and kept constraints say exactly what the constant equalities in force say, and the frame defines exactly their removable signals |
| LateFrames.LinearStep | constraint_list/src/constraint_simplification.rs:544-578 | third frame: solved form and rest equivalent to the linear constraints and the constants collected; with linear simplification off everything is kept as it is |
| LateFrames.WalkedMeaning | constraint_list/src/non_linear_utils.rs:6-31 | where the three frames hold, the walk result (store and linear list) is satisfied exactly when the flattened constraints are, although only relevant entries were applied |
| LateFrames.WalkedForm | constraint_list/src/non_linear_utils.rs:6-31 | after the walk every stored constraint is canonical, irreducible, non-linear or empty, and mentions no signal any frame deleted |
| LateFrames.ObtainNonLinear | constraint_list/src/constraint_simplification.rs:583-592 | the new storage and linear list are the frame-by-frame walk of the whole flattened circuit |
| Rounds.Round | constraint_list/src/constraint_simplification.rs:613-640 | one round keeps the invariant (canonical store, covering index, no deleted signal mentioned, constants over forbidden signals only) and the solutions; if it defines nothing, no linear constraint had a removable signal and no linear constraint is left; the next linear list is what the store gives up |
| Rounds.RunRounds | constraint_list/src/constraint_simplification.rs:613-646 | a chain of such rounds: it ends with no linear constraint left, or after the number of rounds allowed and then with at least as many signals defined; invariant and solutions kept, the definitions of all rounds triangular |
| Rounds.RoundMeaning | constraint_list/src/constraint_simplification.rs:616-640 | rewriting store and constants by the definitions of a round is an equivalence |
| Rounds.ApplyToConstants | constraint_list/src/constraint_simplification.rs:629-634 | the loops over constants and substitutions give the substitutions in order, then one fix |
| Solutions.ExtendHolds | constraint_list/src/constraint_simplification.rs:442-730 | every assignment of the kept signals extends to one satisfying all triangular definitions, unchanged elsewhere |
| Solutions.ExtendUnique | constraint_list/src/constraint_simplification.rs:442-730 | that extension is the only one modulo the field |
| FullSimplification.FullSimplification | circom_algebra/src/simplification_utils.rs:543-581 | for both heuristics: left-hand signals pairwise distinct, none forbidden, none mentioned on a right-hand side; leftover constraints mention forbidden signals only; same solutions as the input; removed signals listed in step; nothing is removed only when nothing is removable; with the fewest-occurrences heuristic every constraint with a signal occurring once loses such a signal, with the other each definition mentions smaller or forbidden signals only |
| FullSimplification.CreateNonoverlappingSubstitutions4 | circom_algebra/src/simplification_utils.rs:465-480 | expanding in elimination order leaves no right-hand side with a defined signal and keeps the solutions |
| SimplificationUtils.SubstitutionProcess3 | circom_algebra/src/simplification_utils.rs:143-154 | greatest-signal elimination: definitions and leftover have the solutions of the constraints, each definition mentions smaller or forbidden signals only, and nothing is defined only when no constraint has a removable signal |
| SimplificationUtils.TreatConstraint3 | circom_algebra/src/simplification_utils.rs:259-294 | one constraint worked off: solutions kept, loop ends because the greatest takable signal descends |
| SimplificationUtils.TakeSignal3 | circom_algebra/src/simplification_utils.rs:368-377 | the greatest signal that may be taken, none exactly when all are forbidden |
| SimplificationUtils.MergeDescending | circom_algebra/src/simplification_utils.rs:259-294 | merging a defined signal leaves only smaller takable signals: the measure of the loop |
| SimplificationUtils.MergeStep | circom_algebra/src/simplification_utils.rs:312-349 | merging a new and a stored definition of one signal: where the stored definition holds, the merged constraint says what the work constraint said |
| SimplificationUtils.StoreStep | circom_algebra/src/simplification_utils.rs:312-349 | storing a cleared signal: definitions say what they and the constraint said before |
| SimplificationUtils.NormalizeSubstitutions | circom_algebra/src/simplification_utils.rs:414-437 | every definition coef*x = rest becomes an equivalent x = to; none fails |
| SimplificationUtils.CoefficientInverses | circom_algebra/src/simplification_utils.rs:414-428 | one batch inversion gives each coefficient its own inverse at its own place |
| SimplificationUtils.CreateNonoverlappingSubstitutions | circom_algebra/src/simplification_utils.rs:451-463 | expanding in ascending order leaves no right-hand side with a defined signal and keeps the solutions |
| LessOccurrences.SubstitutionProcess4 | circom_algebra/src/simplification_utils.rs:156-185 | least-occurrence elimination: signals that occur once first (every constraint with one has such a signal defined), then the rest from the back; solutions kept, deletion order recorded; nothing is defined only when no constraint has a removable signal |
| LessOccurrences.TreatConstraint4 | circom_algebra/src/simplification_utils.rs:312-349 | one constraint worked off keeps the state (counters exact over the constraints still to do, definitions mention later-deleted signals only) and the solutions |
| LessOccurrences.TreatUniqueConstraint4 | circom_algebra/src/simplification_utils.rs:296-310 | a signal occurring once is eliminated with its constraint, counters staying exact |
| LessOccurrences.EliminateUniques | circom_algebra/src/simplification_utils.rs:156-175 | phase one keeps the solutions and the state, hands on exactly the constraints not used, and uses every constraint that has a signal occurring once |
| LessOccurrences.MergeWeight | circom_algebra/src/simplification_utils.rs:312-349 | each merge makes the work constraint weigh less, the deleted signals it mentions read as a binary number with the earliest deleted on top |
| LessOccurrences.TakeSignal4 | circom_algebra/src/simplification_utils.rs:379-411 | a deleted signal if there is one, else fewest occurrences, greatest among equals, whatever the visiting order; no counter is missing |
| LessOccurrences.CountOccurrences | circom_algebra/src/simplification_utils.rs:66-92 | counters are the exact numbers of constraints holding each takable signal, and uniques point at the one constraint holding theirs |
| LessOccurrences.SignalsInformation.RemoveConstraint | circom_algebra/src/simplification_utils.rs:94-107 | exactly the takable signals of the constraint lose one, and none is at zero before |
| Constraints.FixMeaning | circom_algebra/src/algebra.rs:1309-1344 | fixing keeps the residual A*B - C of every assignment |
| Constraints.FixForm | circom_algebra/src/algebra.rs:1309-1344 | a fixed constraint is zero-free, canonical if it was, mentions nothing new, and is linear or a product of two non-constant factors |
| Constraints.FixIdempotent | circom_algebra/src/algebra.rs:1309-1344 | fixing twice is fixing once |
| Constraints.ApplyMeaning | circom_algebra/src/algebra.rs:1138-1147 | substituting where the substitution holds changes no satisfaction |
| LinearCombination.DotSubst | circom_algebra/src/algebra.rs:1279-1294 | substituting a signal by a combination of equal value keeps the value |
| Constraints.ToConstraintMeaning | circom_algebra/src/algebra.rs:113-154 | the constraint form of an expression holds exactly where the expression vanishes |
| Constraints.IntoExprMeaning | circom_algebra/src/algebra.rs:804-826 | the smallest expression form of a coefficient map has the value of the map |
| Constraints.NewSubstitutionMeaning | circom_algebra/src/algebra.rs:844-862 | a substitution, when it exists, holds exactly where signal and expression agree |
| Algebra.AddMeaning | circom_algebra/src/algebra.rs:247-347 | addition is exact, and non-quadratic exactly when an operand is or both are quadratic |
| Algebra.MulMeaning | circom_algebra/src/algebra.rs:349-440 | multiplication is exact up to degree two, and non-quadratic exactly beyond |
| Algebra.SubMeaning | circom_algebra/src/algebra.rs:441-451 | subtraction is exact, and non-quadratic exactly when an operand is or both are quadratic |
| Algebra.DivMeaning | circom_algebra/src/algebra.rs:452-498 | dividing by a number errs exactly on one that vanishes in the field, and otherwise multiplies back to the dividend; every other divisor gives a non-quadratic expression |
| Elimination.ClearMeaning | circom_algebra/src/algebra.rs:1126-1136 | solving for a signal without normalising says what the constraint said |
| Elimination.ClearNormalizedMeaning | circom_algebra/src/algebra.rs:1108-1124 | solving with normalisation always succeeds on a canonical, zero-free constraint and says what it said |
| Elimination.MergeMeaning | circom_algebra/src/simplification_utils.rs:312-349 | the merged constraint holds exactly where the new definition does, given the stored one |
| Elimination.NormalizeMeaning | circom_algebra/src/simplification_utils.rs:414-437 | dividing a definition by its coefficient keeps its meaning |
| ModularArithmetic.MultiInv | circom_algebra/src/modular_arithmetic.rs:71-91 | for nonzero values modulo a prime every output is the canonical inverse of the value at its index; one trailing zero |
| ModularArithmetic.Modulus | circom_algebra/src/modular_arithmetic.rs:9-12 | the double truncated remainder is the Euclidean remainder, for negative arguments too |
| ModularArithmetic.Div | circom_algebra/src/modular_arithmetic.rs:41-46 | quotient times divisor is the dividend; the error is raised exactly on a zero divisor modulo a prime |
| Field.ModInverse | circom_algebra/src/modular_arithmetic.rs:41-46 | modulo a prime an inverse exists exactly for values that do not vanish (by extended Euclid) |
| Field.NoZeroDivisors | circom_algebra/src/modular_arithmetic.rs:31-46 | a product vanishes modulo a prime only with a factor |
| Clusters.BuildClusters | constraint_list/src/constraint_simplification.rs:45-99 | exactly the connected components of "shares a signal": the non-empty constraints conserved as a multiset, pairwise disjoint signals, each connected, exact number of signals |
| Clusters.ShrinkJumpsAndFind | constraint_list/src/constraint_simplification.rs:48-59 | path compression returns the root and changes no root; it ends because parents never point below their index |
| Clusters.ArenaMerge | constraint_list/src/constraint_simplification.rs:61-69 | the tree of the source, and only it, moves under the destination; the merged slot holds both contents |
| Clusters.LinkRoot | constraint_list/src/constraint_simplification.rs:61-69 | hanging a root under a later one moves exactly its own tree |
| ClusterFacts.ClustersSat | constraint_list/src/constraint_simplification.rs:45-99 | the system holds exactly when every cluster holds |
| Equalities.ConnectedAllEqual | constraint_list/src/constraint_simplification.rs:126-196 | a connected set of equalities holds exactly when all its signals have one value |
| Equalities.ComponentMeaning | constraint_list/src/constraint_simplification.rs:126-196 | renamings to the representative and the kept equalities together say that the component has one value |
| Equalities.EqClusterSimplification | constraint_list/src/constraint_simplification.rs:126-196 | renamings and kept equalities are equivalent to the cluster; renamed are exactly the removable signals but the representative |
| Equalities.SeveralEqualities | constraint_list/src/constraint_simplification.rs:155-195 | the several-signal case, for any order of the sets |
| Equalities.SingleEquality | constraint_list/src/constraint_simplification.rs:131-154 | the single-equality shortcut gives the same renamings as the general case |
| EqSimplification.EqSimplify | constraint_list/src/constraint_simplification.rs:198-251 | equivalent to the equalities for any order in which pool workers finish |
| EqSimplification.SameRenamings | constraint_list/src/constraint_simplification.rs:198-251 | two runs on the same equalities, however scheduled, give the same substitution map |
| ConstantEqualities.ConstantEqSimplification | constraint_list/src/constraint_simplification.rs:253-273 | one definition for each constant equality on a removable signal, the others kept |
| ConstantEqualities.ConstantsMeaning | constraint_list/src/constraint_simplification.rs:253-273 | definitions and kept constraints say what the constant equalities said |
| ConstantEqualities.ConstantFrameExact | circom_algebra/src/simplification_utils.rs:520-526 | the map kept from constant equalities loses nothing if and only if equalities on one removable signal agree |
| ConstantEqualities.ForceMeaning | circom_algebra/src/simplification_utils.rs:520-526 | map and kept constraints say exactly what is left when, of the constant equalities on one removable signal, only the last is in force |
| ConstantEqualities.DisagreementLost | circom_algebra/src/simplification_utils.rs:520-526 | x = 1 and x = 2 modulo 7: the map accepts an assignment the equalities refuse |
| LinearSimplification.LinearSimplify | constraint_list/src/constraint_simplification.rs:275-326 | solving every cluster, in any order of the workers, gives one solved form and a leftover over forbidden signals, equivalent to the linear constraints; something is defined in every cluster that mentions a removable signal |
| Frames.FastEncodedConstraintSubstitution | circom_algebra/src/simplification_utils.rs:496-507 | visiting signals in any order gives the simultaneous substitution, for a non-overlapping frame; the flag says whether any signal was defined |
| Frames.AnyFirst | circom_algebra/src/simplification_utils.rs:496-507 | any pending signal may be substituted first without changing the result |
| Frames.SubstCommute | circom_algebra/src/algebra.rs:1279-1294 | two substitutions that do not mention each other commute, coefficient by coefficient |
| Frames.FrameMeaning | circom_algebra/src/simplification_utils.rs:496-507 | where the frame holds, applying it changes no satisfaction |
| Frames.FrameKeys | circom_algebra/src/simplification_utils.rs:496-507 | applying a non-overlapping frame leaves no defined signal and adds right-hand side signals only |
| Frames.FramePruned | constraint_list/src/constraint_simplification.rs:431-440 | dropping entries a constraint does not mention changes nothing |
| FrameChain.PrunedSame | constraint_list/src/constraint_simplification.rs:533-587 | applying the three pruned frames to a flattened constraint is applying the full ones |
| FrameChain.ChainKeys | constraint_list/src/constraint_simplification.rs:583-589 | after the three frames no signal any of them defines is left |
| FrameChain.ChainMeaning | constraint_list/src/constraint_simplification.rs:583-589 | where the three frames hold, the chain changes no satisfaction |
| FrameChain.OnlyRelevantEncoded | constraint_list/src/constraint_simplification.rs:556-563 | filtering the definitions before building the map is pruning the map |
| FrameChain.ConstantsDefined | constraint_list/src/constraint_simplification.rs:513-531 | the map kept from constant equalities defines exactly the removable signals they mention |
| FrameLists.FrameAllMeaning | constraint_list/src/constraint_simplification.rs:494-503 | rewriting a list by a frame that holds changes no satisfaction |
| FrameLists.RenamedConstants | constraint_list/src/constraint_simplification.rs:499-503 | a renamed constant equality is still a constant equality |
| Storage.ApplySubstitutionToMap | constraint_list/src/constraint_simplification.rs:345-396 | rewriting only indexed constraints is rewriting the whole store; constraints that became linear leave the store, with nothing lost; nothing leaves it without a substitution; the index still covers every occurrence |
| Storage.ConstraintProcessing | constraint_list/src/constraint_simplification.rs:351-380 | after one substitution exactly the listed constraints are rewritten, repeated entries included; reported are all and only the linear ones |
| Storage.RewriteTwice | constraint_list/src/constraint_simplification.rs:351-380 | rewriting a constraint twice is rewriting it once |
| Storage.RewriteUntouched | constraint_list/src/constraint_simplification.rs:382-388 | a constraint not mentioning the signal is left as it is |
| Storage.RewrittenCovered | constraint_list/src/constraint_simplification.rs:382-388 | with a covering index, rewriting the listed constraints is rewriting all |
| Storage.ExtractedMeaning | constraint_list/src/constraint_simplification.rs:389-396 | store and extracted list together say what the rewritten store said |
| Storage.BuildNonLinearSignalMap | constraint_list/src/constraint_simplification.rs:328-343 | the index lists every occurrence of every signal in the store |
| Storage.ConstraintStorage.ExtractEmpty | circom_algebra/src/constraint_storage/mod.rs:48-60 | only empty constraints are removed, the others stay in order |
| NonLinear.ObtainAndSimplifyNonLinear | constraint_list/src/non_linear_utils.rs:6-31 | the walk stores and reports exactly the flattened constraints, each once and in order, each rewritten frame by frame and sorted by linearity |
| NonLinear.SortedConserves | constraint_list/src/non_linear_utils.rs:12-24 | sorting by linearity loses and duplicates no constraint |
| NonLinear.OffsetMeaning | constraint_list/src/state_utils.rs:14-35 | an offset constraint says of the instance what the template constraint says of the template |
| NonLinear.BuildEncodingIterator | constraint_list/src/state_utils.rs:14-35 | the iterator holds every constraint of the node at the offset of the instance |
| NonLinear.Next | constraint_list/src/lib.rs:87-97 | the child iterator stands at the sum of the offsets |
| NonLinear.BuildRelevantSet | constraint_list/src/constraint_simplification.rs:398-429 | the set gains exactly the signals of flattened constraints, seen through renamings and without the deleted ones |
| Witness.RebuildWitness | constraint_list/src/constraint_simplification.rs:101-124 | each kept signal gets its rank among the kept signals, the free queue being the interval from the rank to the signal |
| Witness.RankMonotone | constraint_list/src/constraint_simplification.rs:101-124 | kept signals get strictly increasing numbers |
| Witness.RankOnto | constraint_list/src/constraint_simplification.rs:101-124 | every number below the count is taken |
| Witness.PrefixFixed | constraint_list/src/constraint_simplification.rs:101-124 | a forbidden prefix keeps its numbers |
| Witness.RenumberedNumbering | constraint_list/src/constraint_simplification.rs:101-124 | the map is an increasing bijection onto 0..n |
| Witness.GetWitnessAsVec | constraint_list/src/lib.rs:187-193 | the vector is the inverse of the map, both ways |
| Witness.CorrespondenceMeaning | circom_algebra/src/algebra.rs:1245-1264 | renaming succeeds exactly on constraints over known signals, and then keeps satisfaction through the map |
| Witness.CountPrivateInputs | constraint_list/src/constraint_simplification.rs:715-729 | the subtraction counts private inputs only and cannot underflow |
| Dag.DAG.AddEdge | dag/src/lib.rs:328-371 | the component takes the next interval of identifiers; an edge to the node itself or later is refused and changes nothing |
| Dag.DAG.AddInput | dag/src/lib.rs:179-192 | the next identifier, its name, its kind and, when public, its place among the forbidden ones |
| Dag.DAG.AddOutput | dag/src/lib.rs:194-204 | the next identifier as a forbidden output |
| Dag.AddEdgeOk | dag/src/lib.rs:328-371 | adding an edge keeps: every identifier has exactly one owner among local signals and components, edges go to lower nodes |
| Dag.WithLocalOk | dag/src/lib.rs:179-214 | adding a signal keeps the partition and one name per local identifier |
| Dag.WithLocalNamed | dag/src/lib.rs:179-214 | all local signals stay named if and only if the new name named no local signal |
| Dag.AddEdgeNamed | dag/src/lib.rs:328-371 | all local signals stay named if and only if no qualified name of the component named one |
| GraphRuns.RunOk | dag/src/lib.rs:318-422 | after every run of the add operations identifiers are partitioned at every node and edges go to lower nodes |
| GraphRuns.RunNamed | dag/src/lib.rs:318-422 | every local signal keeps its name if and only if no step of the run reused the name of a local signal |
| GraphRuns.FreshRunWalks | dag/src/lib.rs:33-85 | after a run of such steps the walk from any node lists every identifier of its interval exactly once |
| GraphRuns.RepeatedName | dag/src/lib.rs:206-214 | two signals of one name: the walk lists the first no more |
| GraphRuns.RunCommands | dag/src/lib.rs:318-422 | the object goes through exactly the graphs of the run |
| TreeWalk.ProduceWitness | dag/src/witness_producer.rs:3-9 | the vector is the constant wire followed by the walk from the main node |
| TreeWalk.ProduceTreeWitness | dag/src/witness_producer.rs:11-19 | the recursion appends the walk, local signals sorted, then the subtrees in edge order |
| TreeWalk.CollectSignals | dag/src/lib.rs:34-80 | collecting in any order of the names, then sorting, gives the same list |
| TreeWalk.WalkExactly | dag/src/lib.rs:33-85 | the walk lists every identifier of its interval exactly once if and only if no local signal below has lost its name |
| TreeWalk.WalkAtMost | dag/src/lib.rs:33-85 | for every graph the walk lists no identifier twice and none outside the interval |
| TreeWalk.WitnessExactly | dag/src/witness_producer.rs:3-9 | together with the constant wire the main walk lists 0..number_of_signals once each |
| MapToList.MapTree | dag/src/map_to_constraint_list.rs:12-44 | the recursion collects wires, sorted offset constraints and forbidden gate wires of the whole subtree: by CircuitMeaning and InstancesCounted the constraints are those of the instances at the ends of the paths of edges, none lost and none twice |
| MapToList.ProduceEncoding | dag/src/map_to_constraint_list.rs:46-69 | the encoding keeps per node its non-linear constraints and the offsets of its edges |
| MapToList.NumberSignals | dag/src/map_to_constraint_list.rs:71-104 | the ordered signals of a node by their numbers, in their order |
| MapToList.KindsConserve | dag/src/map_to_constraint_list.rs:22-34 | sorting into constant equalities, equalities, linear and the rest loses and duplicates nothing |
| MapToList.FlatIsNonLinear | dag/src/map_to_constraint_list.rs:71-104 | the second traversal meets exactly the non-linear constraints of the instances, in order |
| MapToList.TraversalsConserve | dag/src/map_to_constraint_list.rs:12-104 | the three lists of the first traversal and the constraints of the second are, as a multiset, the constraints of all instances, which InstancesCounted counts over the paths of edges |
| InstancePaths.CircuitMeaning | dag/src/lib.rs:33-80 | the constraints collected hold if and only if, for every path of edges from the main template, every constraint of the template it leads to holds of the signals moved by the summed offsets |
| InstancePaths.InstancesCounted | dag/src/lib.rs:33-80 | a constraint is collected as often as the constraints of the instances give it, summed over all paths; empty ones are kept for the main template only |
| InstancePaths.PathsListed | dag/src/lib.rs:82-85 | the paths summed over are those that follow edges, each once |
| InstancePaths.GateWiresExactly | dag/src/map_to_constraint_list.rs:20-25 | a wire must stay for custom gates if and only if it is that of a named local signal of a custom gate at the end of some path |
| CircuitMap.Map | dag/src/map_to_constraint_list.rs:110-147 | the simplifier it builds is well-formed and has a solution exactly where every template instance, told by its path of edges, has its constraints satisfied; its counts and flags are those of the main template and the call, what must stay is exactly what the main template forbids and the wires of custom gate instances, and every constraint of every instance is handed on as often as the instances give it, to the list of its kind |
| CircuitMap.InstancesOk | dag/src/map_to_constraint_list.rs:12-44 | every instance constraint stays within the identifiers of its instance and is canonical |
| CircuitMap.InterfaceKept | dag/src/lib.rs:179-214 | declaring outputs, then public inputs, then the rest keeps the public interface a forbidden prefix |
| RunInterfaces.RunTells | dag/src/lib.rs:179-223 | after every run the counts of the last template are the numbers of outputs, public and private inputs added to it, and its constraints and ordered signals those added, in order |
| RunInterfaces.RunInterface | dag/src/lib.rs:179-223 | when outputs come first, then public inputs, then the rest, what must stay is exactly the constant wire, the outputs and the public inputs, and these are the first identifiers |
| RunInterfaces.RunCounts | dag/src/map_to_constraint_list.rs:116-119 | the counts the mapping takes from the last template are numbers of commands |
| RunInterfaces.ComponentNamed | dag/src/lib.rs:328-371 | component.name stands for the identifier that the walk lists for the signal in the component added |
| R1csFile.RoundTrip | constraint_writers/src/r1cs_reader.rs:453-564 | reading any file written for the data gives back header, constraints, signals and custom gates, for every order of signals in the blocks, given numbers that fit their widths |
| R1csAcceptance.AcceptedExactly | constraint_writers/src/r1cs_reader.rs:453-564 | for every byte string and all data, a field size of zero included: it is read as the data if and only if magic, version and scan are right and its sections begin with the bytes of the data; where a file repeats a signal in a combination, the last factor counts |
| R1csAcceptance.BlockAccepted | constraint_writers/src/r1cs_reader.rs:69-85 | for every field size, zero included, a block is read as a combination if and only if it lists factors that give it |
| R1csAcceptance.HeaderWritten | constraint_writers/src/r1cs_reader.rs:241-261 | with a positive field size the bytes accepted as a header are those the writer gives |
| R1csAcceptance.GatesWritten | constraint_writers/src/r1cs_reader.rs:343-369 | with a positive field size the bytes accepted as gates are those the writer gives |
| R1csFile.WrittenLength | constraint_list/src/r1cs_porting.rs:4-124 | every layout of the data has the same length |
| R1csFile.ScanFinds | constraint_writers/src/r1cs_reader.rs:460-476 | the offset scan finds the start of every section, in whatever order they come |
| R1csFile.SectionAt | constraint_writers/src/r1cs_reader.rs:460-476 | what stands at a found start is the section |
| R1csFormat.BlockBack | constraint_writers/src/r1cs_reader.rs:69-85 | a written block is read back as the same map, for any order of its entries |
| R1csFormat.ConstraintBack | constraint_writers/src/r1cs_reader.rs:87-98 | a written constraint is read back |
| R1csFormat.HeaderBack | constraint_writers/src/r1cs_reader.rs:241-261 | a written header is read back with its own field size |
| R1csFormat.GatesBack | constraint_writers/src/r1cs_reader.rs:343-369 | written custom gates are read back, names up to their zero byte; a name that is not UTF-8 is refused |
| R1csFormat.ApplicationsBack | constraint_writers/src/r1cs_reader.rs:387-404 | written custom gate applications are read back |
| Bytes.EncodeFits | constraint_writers/src/r1cs_writer.rs:16-28 | a number below 256^width is written in exactly that width and read back |
| Bytes.EncodeOverflows | constraint_writers/src/r1cs_writer.rs:16-28 | a number takes exactly the width if and only if it is below 256^width; others are written longer |
| Bytes.TwoBytesFor256 | constraint_writers/src/r1cs_writer.rs:16-28 | 256 in one byte takes two |
| Bytes.EncodeFrom | constraint_writers/src/r1cs_writer.rs:16-28 | any bytes are what their number is written as in their width |
| Bytes.IntoFormat | constraint_writers/src/r1cs_writer.rs:16-23 | the padding loop adds zeros up to the width and cuts nothing |
| R1csWriter.LinearCombinationBlock | constraint_writers/src/r1cs_writer.rs:49-72 | the block is a layout of the map in some order of its signals, and the size returned is its length |
| R1csWriter.R1csWriter.StartSection | constraint_writers/src/r1cs_writer.rs:30-37 | type and placeholder written, section open and empty; it fails exactly when they do not fit the device |
| R1csWriter.R1csWriter.EndSection | constraint_writers/src/r1cs_writer.rs:39-47 | the back-patched size is the number of bytes written in the section, everything else stays, the cursor is at the end again |
| R1csWriter.R1csWriter.WriteConstraint | constraint_writers/src/r1cs_writer.rs:282-308 | the three blocks are appended and counted, and it fails exactly when they do not fit, whatever the order in the blocks |
| R1csWriter.R1csWriter.WriteHeader | constraint_writers/src/r1cs_writer.rs:246-269 | the header bytes are appended and counted, or do not fit |
| R1csWriter.R1csWriter.WriteCustomGatesUsages | constraint_writers/src/r1cs_writer.rs:358-391 | the gate list is appended and counted, or does not fit |
| R1csWriter.R1csWriter.WriteCustomGatesApplications | constraint_writers/src/r1cs_writer.rs:408-441 | the application list is appended and counted, or does not fit |
| R1csPorting.PortR1cs | constraint_list/src/r1cs_porting.rs:4-124 | it succeeds if and only if the length of the file fits the device; then the file holds the renumbered constraints, the wire list, the counts, the gates of the nodes and the applications of the instances, and reads back as such when the numbers fit |
| R1csPorting.WriteConstraints | constraint_list/src/r1cs_porting.rs:20-35 | one written constraint for each stored one, over wire numbers, all of them known; it fails exactly when they do not fit |
| R1csPorting.FieldFits | constraint_list/src/r1cs_porting.rs:6-10 | the multiples of eight whose bytes hold the field, hence every canonical coefficient, are exactly those from the computed field size on |
| CustomGates.CutName | constraint_list/src/r1cs_porting.rs:62-67 | the loop pops a name up to its last opening parenthesis |
| CustomGates.CollectUsages | constraint_list/src/r1cs_porting.rs:58-70 | usages and full names of the custom gate nodes, in step |
| CustomGates.Iterate | constraint_list/src/r1cs_porting.rs:91-111 | the recursion collects every custom gate instance in walk order, its ordered signals as wire numbers, and does not go below one: by AppliedExactly, signal j of the instance at the end of a path is the number of the j-th ordered name at the summed offset |
| CustomGates.FindIndexes | constraint_list/src/r1cs_porting.rs:76-89 | the inner loop ends at the first place of the name |
| CustomGates.CollectGates | constraint_list/src/r1cs_porting.rs:58-117 | both lists, for every encoding whose gate signals have wires |
| CustomGates.ApplicationsPoint | constraint_list/src/r1cs_porting.rs:74-117 | each application points at a usage with the base name of its instance, taken from a node of the same full name |
| CustomGates.GatesNumbered | constraint_list/src/r1cs_porting.rs:95-101 | no unwrap fails: when the wires of the gates are kept, every ordered signal of every instance has a number |
| GateInstances.GatesAre | constraint_list/src/r1cs_porting.rs:58-120 | in terms of the graph: the gates are the custom gate templates in order, name and parameters; the applications are the paths to custom gates in walk order, each with the index of its gate and, for every ordered signal, the number its identifier plus offset has as a wire |
| GateInstances.GatePathsListed | constraint_list/src/r1cs_porting.rs:91-111 | the paths listed are exactly those ending at a custom gate without passing one, each once, the first edge that differs deciding the order |
| GateInstances.AppliedExactly | constraint_list/src/r1cs_porting.rs:91-111 | what the walk over the encoding collects are the instances at the ends of these paths: signal j of an instance is the number of what its template calls by the j-th ordered name, at the summed offset |
| GateInstances.UsagesExactly | constraint_list/src/r1cs_porting.rs:58-70 | usage k is that of the k-th custom gate template: its name without arguments and its parameters |
| R1csReader.ReadR1cs | constraint_writers/src/r1cs_reader.rs:453-564 | the cursor-moving reader gives what the parser gives, value or error, on every byte string |
| R1csReader.R1csReader.ScanSections | constraint_writers/src/r1cs_reader.rs:460-476 | the scan loop, with backward seeks on sizes of half the range and up, gives the section starts or the error; every start leaves room for a section head |
| R1csReader.R1csReader.ReadAllSections | constraint_writers/src/r1cs_reader.rs:498-564 | header first wherever it is, then constraints, signals and gates, each error in its place |
| R1csReader.R1csReader.ReadLinearCombinationBlock | constraint_writers/src/r1cs_reader.rs:69-85 | a repeated signal keeps the last factor; a short file is an error |
| R1csReader.R1csReader.ReadConstraints | constraint_writers/src/r1cs_reader.rs:512-524 | as many constraints as the header says, or the first error |
| R1csReader.R1csReader.ReadCustomGatesUsages | constraint_writers/src/r1cs_reader.rs:343-369 | the gate list or the first error |
| ArrayRecognition.RecognitionSound | llzk_backend/src/function.rs:1566-1597 | interpreting the consumed statements from any store leaves the named array equal to the row-major values, their number the product of dimensions, for any nesting and both layouts, given distinct declared names; never out of range |
| ArrayRecognition.ParentFirstSound | llzk_backend/src/function.rs:1438-1466 | the parent-first case, by induction over the nesting |
| ArrayRecognition.ChildFirstSound | llzk_backend/src/function.rs:1523-1557 | the child-first case: the pool of known arrays stays known |
| ArrayRecognition.PassSound | llzk_backend/src/function.rs:1393-1430 | a successful child pass rebuilds the whole parent |
| ArraySoundness.ConstantInsertsRun | llzk_backend/src/function.rs:1474-1515 | complete ordered inserts rebuild the parent from any store that knows the children |
| ArraySoundness.DirectSound | llzk_backend/src/function.rs:1318-1380 | a one-dimensional literal is what its statements build, the last complete pass winning |
| ArrayCompleteness.RecognitionComplete | llzk_backend/src/function.rs:1438-1466 | every rectangular literal laid out parent-first, of any nesting, every declaration with its dimensions written or recorded by the cleaner only, is recovered with its dimensions and values |
| ArrayCompleteness.RecordedAsWritten | llzk_backend/src/function.rs:1295-1316 | whatever follows, a first declaration whose dimensions are only recorded gives the same literal, or none, as one that writes them |
| ChildFirstChains.ChainRecognised | llzk_backend/src/function.rs:1523-1597 | for every chain of temporaries and of parents declared after the temporaries they select, in any order and repeatedly, in either form of declaration: the last parent is recovered with its dimensions and values exactly when the first temporary is one-dimensional and a parent follows; otherwise the first temporary alone is |
| ArrayLiteral.MatchLiteral | llzk_backend/src/function.rs:1566-1597 | the outer loop computes the matcher the theorems are about, sound by RecognitionSound and complete by RecognitionComplete and ChainRecognised for both forms of declaration |
| ArrayLiteral.MatchParentFirst | llzk_backend/src/function.rs:1438-1466 | the pass loop, mutually recursive with the child pass, ends and computes the matcher |
| ArrayLiteral.MatchChildPass | llzk_backend/src/function.rs:1393-1430 | the scanning loop ends and computes the matcher |
| ArrayLiteral.MatchChildFirst | llzk_backend/src/function.rs:1523-1557 | computes the child-first matcher |
| ArrayLiteral.MatchInserts | llzk_backend/src/function.rs:1474-1515 | the loop over inserts stops at the first one that does not fit |
| ArrayLiteral.MatchDirect | llzk_backend/src/function.rs:1318-1380 | the loop over passes computes the direct matcher |
| NestedLiterals.FlattenDenotes | llzk_backend/src/gen_context.rs:75-116 | the flat values nested by the dimensions are the array the expression denotes |
| NestedLiterals.BuildConsumes | llzk_backend/src/template_ext.rs:316-346 | building uses exactly one row-major block and fails exactly when the values run out |
| NestedLiterals.BuildFlatten | llzk_backend/src/template_ext.rs:316-346 | flattening what was built gives back the dimensions and the block |
| ScopeLowering.LowerMeaning | llzk_backend/src/gen_context.rs:2006-2088 | lowering blocks, declarations, assignments and conditionals gives every visible variable the value direct interpretation gives |
| ScopeLowering.FunctionLowering | llzk_backend/src/function.rs:864-898 | the same for a whole function body from its parameters |
| ScopeResolution.LowerResolves | llzk_backend/src/gen_context.rs:2006-2088 | lowering succeeds if and only if every name read or assigned is declared, at that point, in an open scope |
| ScopeResolution.FunctionResolves | llzk_backend/src/function.rs:864-898 | the same for a whole function body, with the meaning of what comes out |
| ScopeLowering.ResultsMeaning | llzk_backend/src/gen_context.rs:2006-2088 | setting the results of the conditional is setting the overwrites of the branch taken |
| ScopeStack.GetNearest | llzk_backend/src/gen_context.rs:489-494 | reading through local and overwriting maps is reading the innermost declaring scope |
| ScopeStack.GetUndeclared | llzk_backend/src/gen_context.rs:489-494 | an undeclared name is an error |
| ScopeStack.SetAllRefines | llzk_backend/src/gen_context.rs:477-487 | setting names in the top frame updates each in its innermost declaring scope; it fails exactly on an undeclared name |
| ScopeStack.DeclareRefines | llzk_backend/src/gen_context.rs:388-402 | declaring adds the name to the innermost scope, and fails exactly when it is there |
| ScopeStack.PushRefines | llzk_backend/src/gen_context.rs:503-507 | pushing opens an empty scope and changes no other |
| ScopeStack.PopMergeRefines | llzk_backend/src/gen_context.rs:734-747 | popping a frame and merging its overwrites drops the innermost scope and nothing else |
| ScopeContext.BlockContextStack.SetNamedValues | llzk_backend/src/gen_context.rs:477-487 | for any order of the names, the frames are those of setting them all |
| ScopeContext.BlockContextStack.SetNamedValue | llzk_backend/src/gen_context.rs:434-444 | top frame changed, or nothing on an undeclared name |
| ScopeContext.BlockContextStack.PopAndMerge | llzk_backend/src/gen_context.rs:734-747 | the merge cannot fail, and leaves the enclosing scopes as they are seen |
| ScopeContext.BlockContextStack.SetNamedValueAtDeclaration | llzk_backend/src/gen_context.rs:446-458 | the value goes to the frame that declares the name, whatever lies above |
| ScopeContext.AtDeclarationReadBack | llzk_backend/src/gen_context.rs:446-458 | a value set at its declaration is read back if and only if no enclosed frame has overwritten the name, or it was that value already |
| ScopeContext.OverwriteWins | llzk_backend/src/gen_context.rs:446-458 | x = 1 declared, x = 2 inside: setting 3 at the declaration still reads 2 |
| ScopeContext.AddOverwrites | llzk_backend/src/gen_context.rs:629-640 | missing names take the value of the current scope; it fails exactly on a name with none |
| ScopeContext.GenResults | llzk_backend/src/gen_context.rs:2006-2088 | both completed sides joined name by name are the results of the conditional |
| ScopeContext.GenStatement | llzk_backend/src/function.rs:864-898 | the stack-mutating generator goes through the frames of the lowering |
| SingleAssignment.SingleAssignmentHolds | constraint_generation/src/assignment_utils.rs:234-313 | in every loop-free structured run without an assignment error no valuation of the unknown conditions assigns a signal twice; NoAssigned means never, Assigned always, MightAssigned(c) whenever c holds |
| SingleAssignment.ErrorsExactly | constraint_generation/src/assignment_utils.rs:234-313 | a structured run raises an error if and only if some valuation of the unknown conditions assigns some signal twice: no false alarm, none missed |
| SingleAssignment.AssignKeeps | constraint_generation/src/assignment_utils.rs:234-313 | each transition without an error keeps the invariant that the state explains the assignments so far |
| SingleAssignment.ExecuteKeeps | constraint_generation/src/execute.rs:2664-2713 | pushing, flipping and popping a condition around the branches keeps it |
| SingleAssignment.PathsAreTimes | constraint_generation/src/execute.rs:2664-2713 | the assignments recorded with their conditions are those the run following a valuation performs |
| SignalAssignment.CompareConditions | constraint_generation/src/assignment_utils.rs:263-284 | the comparison loop reports by the first difference of the two condition lists |
| SignalAssignment.UpdateCell | constraint_generation/src/assignment_utils.rs:234-310 | one cell is updated by the three flags of that loop as the transition the theorems are about |
| SignalAssignment.Runtime.PerformSignalAssignment | constraint_generation/src/assignment_utils.rs:234-310 | cells are overwritten in order, stopping with an error at the first assigned again |
| SignalAssignment.Runtime.ExecuteStatement | constraint_generation/src/execute.rs:2664-2713 | the condition stack is restored, the counter and the cells are those of the run |

## Left out

- File, path, thread and console plumbing: a file is a byte string with a cursor, a write fails when the file would outgrow a given capacity, the pool is an arbitrary order of results.
- The JSON, sym and log writers, the substitution log, flags and reports, and `non_linear_simplification::simplify`, which does nothing.
- The compressed encoding of coefficients inside `ConstraintStorage` (a growable sequence of constraints here).
- In-place updates of one coefficient map by `add_coefficients_to_coefficients`, `raw_substitution` and `fix_raw_constraint`: functions from maps to maps, in which aliasing plays no role.
- Nodes of the template graph are values held in the fields of the `DAG` object; component counters, reachable and underscored signals and parallel flags of a node are not modelled.
- Big-integer inversion is extended Euclid; bit operations, shifts, powers and comparisons of `modular_arithmetic.rs` would only add easy members.
- `substitution_process_1` and `_2`, the `debug_*` checks and `algebra::normalize` are not called by the simplifier.
- The number of signals given to `full_simplification` only reserves capacity.
- The byte-lexicographic order in which the writer sorts the keys of a block: any order is allowed, and the reader accepts any.
- Template names without an opening parenthesis, on which the loop that cuts a gate name would not end: every custom gate has one, and its ordered signals are signals of its own.
- `with_capacity` on counts read from a file, and section flags that are set but never read.
- Overflow of `usize` in `consumed + element_count` and in the checked products of array sizes: integers are unbounded there.
- Layouts that mix both orders inside one literal are proved sound (`ArrayRecognition.RecognitionSound`); which of them are recognised is stated for parent-first literals and child-first chains.
- Everything that builds MLIR (casts, types, pods, struct writes): generated values are terms with a conditional, operations and inputs are arbitrary.
- Early returns, array aliasing and `while` in the LLZK backend: statements are scalar declarations, assignments, blocks and conditionals.
- The `While` arm of `execute_statement` and the rest of `execute.rs`: conditions are pushed and popped by conditionals only, and known conditions choose their branch before the run.
- Bus assignments, tags and the dimension checks around `perform_signal_assignment`: the cells of the slice are given.
- The construction of a circuit by the interpreter: `Compilation.Compile` starts from a graph with canonical constraints over its own identifiers, whose main template declares outputs and public inputs first.
