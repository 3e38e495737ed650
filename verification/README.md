# Verified models of OpenSMT2

OpenSMT2 is an SMT solver. This project models five of its parts in Dafny and proves what they
promise. Each module follows one source file.

**Incremental clauses** (`Terms`, `Logic`, `TermMapper`, `CnfShapes`, `Cnfizer`, `BoolRewriting`,
`MainSolver`, `Runs`). Hash-consed terms and their simplifying constructors; the literals of terms;
clauses, De Morgan's rule and Tseitin definitions; the stack of assertion frames. The main result is
about whole runs: for every sequence of push, pop, assert and check, each check is answered by whether
the formulas of the frames still open hold together, and frames that were popped never matter. Theory
atoms are free Boolean variables, and the SAT search is an exact oracle over clauses and assumptions.

**Substitutions** (`Graph`, `Tarjan`, `LoopFinder`, `Sweeping`, `SubstLoopBreaker`, `Semantics`,
`Substitution`, `SubstitutionClosure`, `StatedLiterals`, `TopLevelFacts`, `SubstitutionRetrieval`,
`SolvedModels`, `SubstitutionRounds`, `ComputeSubstitutions`). Strongly connected components with an
explicit stack, the breaking of loops, substitution over a shared DAG, the closure of the map, and the
loop that repeats all this. The proofs chain: acyclicity after breaking makes the closure end, a closed
map makes every later round remove a variable, and because of that every model of the final formula
extends to one of the original. Terms are interpreted over two sorts, with arbitrary functions and
predicates.

**FastRational** (`Rationals`, `WordArithmetic`, `FastRational`, `Multiplicand`). Numbers that are kept
as 32-bit words, as an exact fraction, or as both. Every operation is exact whatever path it takes, or
the exact condition under which it is not is given. GMP computes on exact numbers.

**Linear arithmetic** (`LinearTerms`, `LALogic`). Sums, products and inequalities over real numbers:
value in every valuation, normal forms, and inequalities that are identical exactly when they compare
positive multiples of the same difference.

**Two data algorithms** (`SplayTree`, `Decimals`). The top-down splay tree, over a store of nodes that
point to each other with the nil node and the header among them, and the conversion of decimal
literals.

Vectors, maps and the term store are sequences and maps; a reference is a position. `Vec` holds sorting
and the removal of repetitions.

## Findings

Properties that the code does not have, with the input and the exact condition:

- A difference of word fractions can wrap: 2147483647/3221225472 - (-1073741825/3221225472) is
  computed as -7/9 instead of 1 (src/common/FastRational.h:659-673). The difference is exact if and
  only if the 64-bit difference does not wrap, or wraps to something that leaves the checked range
  (`WordArithmetic.SubWords`, `FastRationals.Substraction`, `WordArithmetic.SubCounterexample`);
  numerators within half the range of a word are safe (`WordArithmetic.HalfRangeNeverBreaks`).
- A denominator above the range of a signed word is read from an exact part that need not exist
  (src/common/FastRational.h:222-227), as for 1/65536 * 1/65535
  (`FastRationals.MultiplyUnreadably`). The read is defined exactly when the exact part is valid or the
  denominator fits a signed word (`FastRationals.GetDen`), and so `get_multiplicand` is defined exactly
  when this holds of every number that is not an integer (`Multiplicand.GetMultiplicand`).
- The search for facts ends early at a literal whose term is false in the previous frames, even when
  that is what the literal states (src/logics/Logic.C:1582-1584): with x known to be false, the
  conjunction of y and the negation of x loses y (`TopLevelFacts.FactLost`). The literals found are
  exactly those before the first such literal, or before a variable whose negation was visited, in
  visiting order (`TopLevelFacts.GetNewFacts`). Nothing is lost when no stated literal is false in the
  previous frames and no variable is stated both ways (`TopLevelFacts.NothingLost`); for a formula with
  a model the search ends early exactly when some stated literal is false there
  (`TopLevelFacts.EndsEarlyExactly`).
- Boolean equality is declared to commute (src/logics/Logic.C:145), but its sides are not sorted when it
  is stored (src/logics/Logic.C:1213-1235): for two variables a and b, the equality of a and b and that
  of b and a are two terms. Two orders of the sides give different terms if and only if the sides are
  Boolean, neither is a constant, and they are neither equal nor complementary
  (`LogicStore.SameEquality`).
- On the empty splay tree, `remove` deletes the nil node (src/common/SplayTree.h:182-205;
  `SplayTrees.SplayTree.Remove`).
- The decimal conversion accepts more than the numerals and decimals of section 3.1 of the SMT-LIB
  Standard 2.6, such as the empty text, a point alone, `5.`, `.5`, `07` and `00.5`
  (`Decimals.UntidyAccepted`). A text is such a literal if and only if it is accepted as a decimal, has
  digits on both sides of its point, and no zero before another digit
  (`Decimals.StandardLiterals`).

## Model

| member | source | states |
|---|---|---|
| Runs.Run | src/api/MainSolver.C:41-375 | Whole runs: for every sequence of push, pop, insert and check there is one answer for every check, and it says whether all that is still asserted at that point holds together: the formulas of frames that have stayed open since, and nothing that was popped. The answers are also those of a reference run over a plain stack of formula lists. |
| Runs.PoppedFramesNeverMatter | src/api/MainSolver.C:41-67 | A push, with or without a formula, any balanced commands and the matching pop leave all later answers as if none of these had been issued. |
| Runs.BottomStays | src/api/MainSolver.C:47-56 | A pop that finds only the bottom frame changes no answer. |
| Runs.AnswerMeaning | src/api/MainSolver.C:41-67 | Over the reference run, a check is answered by the frames that have stayed open, described by the numbers of pushes and pops alone, without any stack. |
| Runs.AssertedUntilPopped | src/api/MainSolver.C:47-56 | A formula stays asserted exactly until the pop that matches its frame, and in the bottom frame for ever. |
| Runs.CheckedTogether | src/api/MainSolver.C:60-100 | Every check before that pop is answered "satisfiable" only together with the formula. |
| Incremental.MainSolver.Check | src/api/MainSolver.C:358-375 | A check answers "satisfiable" exactly when the conjunction of the formulas on the stack is, and changes neither the stack nor the invariant. |
| Incremental.MainSolver.CheckMeaning | src/cnfizers/Cnfizer.C:64-90 | The clause database under the assumptions for the enabled frames has a model exactly when the stack is satisfiable. |
| Incremental.StackGivesModel | src/cnfizers/Cnfizer.C:404-443 | From every model of the stack, a model of all clauses of all frames ever given, with the frame variables of the enabled frames false and all others true. |
| Incremental.ModelSatisfiesStack | src/cnfizers/Cnfizer.C:404-443 | Every model of the clauses that has the enabled frame variables false satisfies every formula on the stack. |
| Incremental.MainSolver.Pop | src/api/MainSolver.C:47-56 | Drops the top frame unless it is the only one; the count of simplified frames is cut down with it. |
| Incremental.MainSolver.InsertFormula | src/api/MainSolver.C:70-102 | The formula joins the top frame, which has to be simplified again; a formula that is not Boolean is refused and changes nothing. |
| Incremental.MainSolver.SimplifyFormulas | src/api/MainSolver.C:104-161 | Every frame below the mark has all its formulas in the clause database, guarded by the frame variable; the answer "unsatisfiable" is only given when the stack is. |
| Incremental.MainSolver.GiveRoot | src/api/MainSolver.C:143-158 | The flattened root of a frame is asserted under the identifier of the frame, and what it means is what the formulas of the frame mean. |
| Incremental.MainSolver.Solve | src/api/MainSolver.C:377-394 | With an inconsistent database the answer is "unsatisfiable", otherwise that of the search under the assumptions. |
| Incremental.SimplifiedRoot | src/logics/Theory.C:68-78 | Without substitutions the root of a frame is the conjunction of its formulas, with the same truth value in every valuation. |
| BoolRewriting.RewriteMaxArity | src/simplifiers/BoolRewriting.h:64-107 | Merging nested conjunctions and disjunctions over a shared DAG keeps the truth value in every valuation, whichever shared nodes are left alone; every conjunction or disjunction becomes that of its flattened arguments with those merged spliced in, and stays itself when none changes. |
| BoolRewriting.NestedMerged | src/simplifiers/BoolRewriting.h:26-59 | Unless the whole collapses, the arguments of a nested term of the same kind that is not shared become arguments of the outer one, and the other flattened arguments stay arguments. |
| BoolRewriting.SameFlattening | src/simplifiers/BoolRewriting.h:64-107 | The flattened formula depends on the formula and the shared nodes only, not on the order of the visit nor on other terms stored. |
| Cnf.Cnfizer.CnfizeAndGiveToSolver | src/cnfizers/Cnfizer.C:136-216 | The three routes assert the same thing: after the call, a database model makes the frame variable or the formula true, and every model of the old database that does so, with definitions consistent, is a model of the new one. |
| Cnf.Cnfizer.SetFrameTerm | src/cnfizers/Cnfizer.C:116-131 | The bottom frame has no variable; every other identifier gets its own variable once, and the variables of other frames stay as they are. |
| Cnf.Cnfizer.GiveConjunct | src/cnfizers/Cnfizer.C:171-205 | A conjunct that is a clause, a negated conjunction of literals, or anything else is asserted by the route that fits, with one meaning. |
| Cnf.Cnfizer.GiveToSolver | src/cnfizers/Cnfizer.C:448-487 | A formula in clausal form becomes clauses equivalent to it, each with the frame literal. |
| Cnf.Cnfizer.DeMorganize | src/cnfizers/Cnfizer.C:230-259 | A negated conjunction of literals becomes one clause equivalent to it. |
| Cnf.Cnfizer.Cnfize | src/cnfizers/Tseitin.C:36-52 | Soundness and completeness of the encoding in the database: its models satisfy the formula or disable the frame, and consistent models of the formula are models of the new clauses. |
| Cnf.Cnfizer.Declare | src/cnfizers/Tseitin.C:54-104 | The visit of the DAG with a stack adds exactly the definitions of the operators that are reached, except that of a top-level disjunction, which is asserted. |
| Cnf.EncodingIsFaithful | src/cnfizers/Tseitin.C:36-104 | Every valuation of a formula extends over the definition variables to a model of its definitions, and in every model of the definitions that satisfies the top clause the formula is true. |
| Cnf.Cnfizer.CnfizeAnd | src/cnfizers/Tseitin.C:107-135 | The clauses say that the definition variable equals the conjunction. |
| Cnf.Cnfizer.CnfizeOr | src/cnfizers/Tseitin.C:139-174 | The clauses say that the definition variable equals the disjunction, or, for the top formula, that the disjunction holds. |
| Cnf.Cnfizer.CnfizeXor | src/cnfizers/Tseitin.C:177-231 | The four clauses say that the variable equals the exclusive or. |
| Cnf.Cnfizer.CnfizeIff | src/cnfizers/Tseitin.C:233-289 | The four clauses say that the variable equals the equivalence. |
| Cnf.Cnfizer.CnfizeIfthenelse | src/cnfizers/Tseitin.C:292-333 | The four clauses say that the variable equals the if-then-else. |
| Cnf.Cnfizer.CnfizeImplies | src/cnfizers/Tseitin.C:336-375 | The three clauses say that the variable equals the implication. |
| Cnf.Cnfizer.AddClause | src/cnfizers/Cnfizer.C:404-443 | A clause is added with the current frame literal, if there is one, so it holds in exactly the models where the frame variable or the clause is true. |
| Cnf.Cnfizer.Solve | src/cnfizers/Cnfizer.C:64-90 | The search runs under one assumption for every frame variable, false for the enabled frames and true for all others, and is exact for the database. |
| CnfShapes.CheckClause | src/cnfizers/Cnfizer.C:321-356 | The worklist check accepts exactly the nested disjunctions of literals. |
| CnfShapes.CheckConj | src/cnfizers/Cnfizer.C:281-314 | The worklist check accepts exactly the literals and the nested conjunctions of clauses. |
| CnfShapes.CheckCnf | src/cnfizers/Cnfizer.C:267-275 | Accepts exactly literals, clauses and conjunctions of clauses. |
| CnfShapes.CheckDeMorgan | src/cnfizers/Cnfizer.C:363-402 | Accepts exactly the negations of nested conjunctions of literals. |
| CnfShapes.RetrieveTopLevelFormulae | src/cnfizers/Cnfizer.C:492-516 | The conjuncts, each once, are together equivalent to the formula and none is a conjunction. |
| CnfShapes.RetrieveClause | src/cnfizers/Cnfizer.C:521-534 | The literals of a nested disjunction: one of them is true exactly when the formula is. |
| CnfShapes.RetrieveConjuncts | src/cnfizers/Cnfizer.C:539-552 | The literals of a nested conjunction: all of them are true exactly when the formula is. |
| CnfShapes.DefinitionsDetermine | src/cnfizers/Tseitin.C:54-104 | Where all definitions below a term hold, the value of its variable is the truth value of the term. |
| CnfShapes.ExtensionIsConsistent | src/cnfizers/Tseitin.C:54-104 | Every valuation of the atoms extends to one that makes all definitions hold. |
| TermMapping.TermMapper.GetOrCreateLit | src/cnfizers/TermMapper.C:91-109 | One variable for every purified term, the sign by the parity of the negations, and no existing binding changes. |
| TermMapping.TermMapper.GetTerm | src/cnfizers/TermMapper.C:61-68 | Strips all negations and keeps their parity. |
| TermMapping.LiteralsAreFaithful | src/cnfizers/TermMapper.C:91-109 | Two terms share a literal exactly when they have the same purified term and sign, and have complementary literals exactly when only the sign differs. |
| TermMapping.SatIsTermAssignment | src/cnfizers/Cnfizer.C:64-90 | Assignments of the solver variables and valuations of the mapped terms satisfy the same clauses. |
| TarjanScc.DiscoverStep | src/logics/SubstLoopBreaker.cpp:101-102 | Discovering a child keeps the invariant of the search: reachability along and against the stack, low links, finished components. |
| TarjanScc.RescanStep | src/logics/SubstLoopBreaker.cpp:103-104 | Looking at a child that was seen before keeps the invariant, and its index is accounted for in the low link if it is on the stack. |
| TarjanScc.LeaveStep | src/logics/SubstLoopBreaker.cpp:106-108 | Leaving a node that reaches an older one keeps the invariant: it stays on the component stack and passes its low link on. |
| TarjanScc.CompleteStep | src/logics/SubstLoopBreaker.cpp:109-117 | Leaving a node whose low link is its own index pops exactly one strongly connected component. |
| LoopFinding.TarjanAlgorithm.GetLoops | src/logics/SubstLoopBreaker.cpp:91-133 | One search with the shared counter: reports exactly the new components of more than one node, finishes everything that the start node reaches, and does nothing but renumber a start node that was complete. |
| LoopFinding.TarjanAlgorithm.PopComponent | src/logics/SubstLoopBreaker.cpp:112-117 | The component stack is cut back to the node, and exactly the popped nodes become complete. |
| LoopFinding.AllLoopsFound | src/logics/SubstLoopBreaker.cpp:201-210 | After all start nodes the reported loops are exactly the strongly connected components of more than one node that the start nodes reach, each once. |
| SubstLoops.SubstLoopBreaker.FindLoops | src/logics/SubstLoopBreaker.cpp:201-210 | The same for the method, which leaves no trace in the nodes. |
| LoopFinding.SubstNodeAllocator.GetVars | src/logics/SubstLoopBreaker.cpp:16-41 | Exactly the variables that occur in the term, each once. |
| LoopFinding.SubstNodeAllocator.Alloc | src/logics/SubstLoopBreaker.cpp:43-63 | One node for every term, with the variables of its target as children. |
| SubstLoops.SubstLoopBreaker.ConstructSubstitutionGraph | src/logics/SubstLoopBreaker.cpp:136-199 | The edges of the graph are exactly the dependencies of enabled entries, and the roots reach every node. |
| SubstLoops.SubstLoopBreaker.BreakLoops | src/logics/SubstLoopBreaker.cpp:257-268 | Exactly the last node of every loop loses its children, and these are returned. |
| SubstLoops.StillReached | src/logics/SubstLoopBreaker.cpp:230-268 | Removing children and starting from them as well keeps every node reachable. |
| SubstLoops.BreakStep | src/logics/SubstLoopBreaker.cpp:230-255 | A round of the iteration keeps its invariant and takes the children of at least one more node, so the iteration ends. |
| SubstLoops.SubstLoopBreaker.Apply | src/logics/SubstLoopBreaker.cpp:230-255 | Same keys and targets. Loops are broken one after the other, each by disabling one entry that lies on a loop left by those before, until no variable depends on another that depends on it; so only keys on a loop are disabled, and an acyclic map comes back unchanged. |
| SubstLoops.ComponentKeepsEntry | src/logics/SubstLoopBreaker.cpp:230-268 | Every component of more than one variable keeps an enabled entry. |
| SubstLoops.OneOfTwo | src/logics/SubstLoopBreaker.cpp:230-268 | Of a loop of two entries exactly one is disabled. |
| SubstLoops.OrderUp | src/logics/SubstLoopBreaker.cpp:212-268 | Nodes that lose their children in an order, each while on a loop of the graph, are entries that are disabled in this order, each while its key is on a loop of the map. |
| Sweeping.LastsInOrder | src/logics/SubstLoopBreaker.cpp:257-268 | The loops found in one search are disjoint: each is still whole when the others of this search are broken. |
| SubstLoops.SubstLoopBreaker.ConstructLooplessSubstitution | src/logics/SubstLoopBreaker.cpp:212-225 | Disables exactly the enabled entries whose node has lost its children. |
| SubstLoops.NoLoopsLeft | src/logics/SubstLoopBreaker.cpp:230-255 | When the search finds nothing more, no variable depends on another that depends on it. |
| LogicStore.Logic.MkAnd | src/logics/Logic.C:759-805 | The conjunction has the right truth value and no new variables, and it is simplified: "false" when an argument is, "true" without arguments other than "true", a single other argument itself, and otherwise a conjunction of exactly the arguments other than "true", each once, in the order of the store. |
| LogicStore.SameConjunction | src/logics/Logic.C:759-805 | The same set of arguments gives the same reference, then and later, whatever their order and repetitions and whatever "true" stands among them. |
| LogicStore.Logic.MkOr | src/logics/Logic.C:807-857 | The disjunction has the right truth value and no new variables, and it is simplified: "true" when an argument is or two are complementary, "false" without arguments other than "false", a single other argument itself, and otherwise a disjunction of exactly the arguments other than "false", each once, ordered by the terms under the negations. |
| LogicStore.SameDisjunction | src/logics/Logic.C:807-857 | The same set of arguments gives the same disjunction, then and later. |
| LogicStore.Logic.MkXor | src/logics/Logic.C:859-888 | The exclusive or has the right truth value and no new variables; it collapses on equal and complementary sides and on constants, and is otherwise stored with its sides in order. |
| LogicStore.SameXor | src/logics/Logic.C:859-888 | Exchanging the sides gives the same reference, then and later. |
| LogicStore.Logic.MkImpl | src/logics/Logic.C:900-929 | The implication has the right truth value and no new variables; it is a constant when the sides make it one, and otherwise the simplified disjunction with the negated first side. |
| LogicStore.Logic.MkEq | src/logics/Logic.C:931-945 | In every interpretation the result is true exactly when both sides have the same value, for Boolean and other sorts; it collapses on equal sides and on constants, between Boolean sides also on complementary ones and on one constant, and is otherwise stored. |
| LogicStore.SameEquality | src/logics/Logic.C:1213-1235 | Exchanging the sides gives the same reference, except exactly for Boolean sides on which the equality does not collapse. |
| LogicStore.Logic.MkNot | src/logics/Logic.C:952-971 | The negation, without double negations and negated constants. |
| LogicStore.Logic.InsertTerm | src/logics/Logic.C:1140-1174 | In every interpretation the simplified term has the value that the symbol gives to the values of the arguments, it has no variables but theirs, and it is simplified as the constructor of its symbol does. |
| LogicStore.Logic.InsertTermHash | src/logics/Logic.C:1176-1243 | Equal terms get equal references, and stored terms never change. |
| Substitution.VarSubstitute | src/logics/Logic.C:1357-1436 | The memoised pass with a stack gives a term whose value in every interpretation is that of the original with every enabled key standing for its target; the flag says whether a moved key occurs in the root. |
| Substitution.RewriteNew | src/logics/Logic.C:1402-1424 | A term built anew from rewritten arguments is a correct rewriting. |
| Substitution.RewriteSame | src/logics/Logic.C:1402-1424 | A term none of whose arguments changed stands for itself. |
| SubstitutionClosure.SubstitutionsTransitiveClosure | src/logics/Theory.C:34-58 | On an acyclic map the loop ends, no enabled target contains an enabled key afterwards, and the map has exactly the solutions it had. |
| SubstitutionClosure.HeightDrops | src/logics/Theory.C:44-55 | One substitution into a target either changes nothing, and then no enabled key occurs in it, or lowers the greatest rank of a key in it. |
| SubstitutionClosure.ClosureStep | src/logics/Theory.C:44-55 | Replacing a target by its substituted form keeps the ranks and the solutions. |
| SubstitutionClosure.SubstitutedMeaning | src/logics/Logic.C:1357-1436 | Where the keys equal their targets the substituted formula has its old value, and after closing the map no enabled key is left in it. |
| FastRationals.FastRational.EnsureMpqValid | src/common/FastRational.h:150-160 | The exact part becomes valid, and neither the value nor the word part changes. |
| FastRationals.FastRational.TryFitWord | src/common/FastRational.h:176-186 | The word part becomes valid exactly when the value fits, and the value does not change. |
| FastRationals.Addition | src/common/FastRational.h:593-637 | The sum is the exact rational sum on every path; the operands keep their values, and the parts of the result agree and are in lowest terms. |
| WordArithmetic.SubWords | src/common/FastRational.h:640-677 | The word path of the difference is exact if and only if the wrapped cross difference, reduced, does not look like a small result. |
| FastRationals.Division | src/common/FastRational.h:740-763 | The quotient by a nonzero divisor is exact on every path, with the right sign. |
| FastRationals.AdditionAssign | src/common/FastRational.h:774-813 | The compound sum is exact, also when both operands are one object. |
| FastRationals.SubstractionAssign | src/common/FastRational.h:815-838 | The compound difference is exact, also when both operands are one object. |
| FastRationals.MultiplicationAssign | src/common/FastRational.h:840-859 | The compound product is exact, also when both operands are one object. |
| FastRationals.DivisionAssign | src/common/FastRational.h:861-886 | The compound quotient is exact, also when both operands are one object. |
| FastRationals.FastRational.Inverse | src/common/FastRational.h:893-916 | The inverse of a nonzero number is exact on both paths. |
| FastRationals.FastRational.Negate | src/common/FastRational.h:468-478 | The opposite, also for the one word whose opposite is not a word. |
| FastRationals.FastRational.Opposite | src/common/FastRational.h:455-466 | The opposite as a new number; the original keeps its value. |
| FastRationals.FastRational.Compare | src/common/FastRational.h:480-491 | The sign of the difference, on both paths. |
| FastRationals.FastRational.Equals | src/common/FastRational.h:446-453 | Equal parts mean equal numbers and the other way round, because lowest terms are unique. |
| FastRationals.Ceil | src/common/FastRational.h:271-288 | The least integer not below the number. |
| FastRationals.Floor | src/common/FastRational.h:289-293 | The greatest integer not above the number; the subtraction used never wraps here. |
| FastRationals.FdivQ | src/common/FastRational.C:160-185 | The quotient of two integers rounded down, for divisors of both signs, also where the word path gives up. |
| FastRationals.LcmExact | src/common/FastRational.h:520-528 | The common multiples of two numbers are exactly the multiples of the computed one. |
| WordArithmetic.GcdLoop | src/common/FastRational.h:504-518 | The loop computes the greatest common divisor. |
| WordArithmetic.AddWords | src/common/FastRational.h:593-629 | The word path of the sum, when it succeeds, gives the sum in lowest terms. |
| WordArithmetic.ReducedFits | src/common/FastRational.h:611-624 | A divisor that wraps in a signed 64-bit variable never gets through: what passes the range checks is the fraction in lowest terms. |
| WordArithmetic.ProductFits | src/common/FastRational.h:601-604 | A product of a word and an unsigned word, and such a product plus or minus a word, fit 64 bits. |
| WordArithmetic.MulWords | src/common/FastRational.h:704-730 | The word path of the product, including divisors that wrap as signed words, gives the product in lowest terms. |
| WordArithmetic.DivWords | src/common/FastRational.h:741-755 | The word path of the quotient gives the quotient in lowest terms with the right sign. |
| WordArithmetic.SubAssignWords | src/common/FastRational.h:816-831 | The divisor always fits 32 bits, because a zero difference leaves equal denominators, and the difference is exact. |
| WordArithmetic.CompareWords | src/common/FastRational.h:481-487 | The cross products fit 64 bits and decide the comparison. |
| WordArithmetic.CeilWord | src/common/FastRational.h:276-281 | The word path of rounding up. |
| WordArithmetic.FloorQuotientWords | src/common/FastRational.C:162-175 | The word path of the quotient rounded down succeeds for every dividend but the least word. |
| Rationals.LowestUnique | src/common/FastRational.h:446-449 | A fraction has only one form in lowest terms, so comparing parts compares numbers. |
| Rationals.AddExact | src/common/FastRational.h:593-637 | The exact sum and difference are those of the real numbers. |
| Rationals.MulExact | src/common/FastRational.h:687-738 | The exact product, quotient, inverse and opposite are those of the real numbers. |
| Rationals.CmpExact | src/common/FastRational.h:480-491 | The exact comparison is that of the real numbers. |
| Incremental.MainSolver.Push | src/api/MainSolver.C:41-45 | A new empty frame on top, with an identifier that no frame made before has. |
| Incremental.MainSolver.PushFormula | src/api/MainSolver.C:58-67 | A push followed by an assertion: the stack has one more frame, with the formula in it unless it is not Boolean. |
| Cnf.Cnfizer.GetNestedBoolRoots | src/logics/Logic.C:459-480 | Exactly the Boolean arguments that predicates and functions below the formula have. |
| TopLevelFacts.GetNewFacts | src/logics/Logic.C:1534-1608 | Every fact found is implied by the formula in all interpretations, has no variables but those of the formula, and agrees with what was known. Exactly the terms of the literals visited become known, exclusive ors by an equality, where the literals visited are those before the first, in visiting order, that ends the search; so all literals are known exactly when these suffice, a condition on the formula and the previous frames alone. |
| TopLevelFacts.AddFact | src/logics/Logic.C:1578-1607 | What is known stays; an equality, predicate or variable that is not known becomes a fact with its polarity, a true exclusive or the fact of its equality, and nothing else changes; the search ends exactly when the term is known to be false. |
| TopLevelFacts.NothingLost | src/logics/Logic.C:1534-1608 | When no literal stated is false in the previous frames and no variable is stated both ways, all literals are visited and known. |
| TopLevelFacts.EndsEarlyExactly | src/logics/Logic.C:1582-1584 | For a formula with a model, the search ends early exactly when the term of some literal that it states is false in the previous frames. |
| TopLevelFacts.FactLost | src/logics/Logic.C:1582-1584 | With x known to be false, the conjunction of y and the negation of x loses y. |
| TopLevelFacts.ConflictBlocks | src/logics/Logic.C:1504-1527 | What the maps say of the next literal ends the search exactly when its term is false in the previous frames, or it states a variable that was visited negated. |
| StatedLiterals.OrderStates | src/logics/Logic.C:1543-1577 | The visiting order lists exactly the literals that the formula states, each once. |
| StatedLiterals.OrderVisits | src/logics/Logic.C:1543-1577 | The literal popped from the worklist is the next in the order, and the worklist then gives the rest. |
| StatedLiterals.OrderSkips | src/logics/Logic.C:1546-1547 | A literal that comes up again has nothing below it that was not visited, so dropping it changes nothing. |
| TopLevelFacts.IsInHashes | src/logics/Logic.C:1504-1527 | Compares the polarity with the first value that the previous frames or the new facts give to the term. |
| TopLevelFacts.XorFact | src/logics/Logic.C:1595-1598 | A true exclusive or becomes an equality with a negated side, with the same value in every interpretation; it never collapses to another kind of term. |
| TopLevelFacts.PurifyTerm | src/logics/Logic.C:2295 | Strips all negations and keeps their parity. |
| SubstitutionRetrieval.RetrieveSubstitutions | src/logics/Logic.C:1441-1502 | The entries are exactly ones that facts determine, and every fact that determines a variable gives an entry to it or to the variable it is replaced by. Loops are broken one after the other; an entry is disabled only when its key lies on a loop of the entries as retrieved, so none is when these are acyclic. The substitutions are acyclic, hold wherever the facts do, and use no variables but theirs; the early end happens only for contradictory facts. |
| SubstitutionRetrieval.JoinEquality | src/logics/Logic.C:1447-1487 | An equality with a variable or constant side gives an entry for a variable, replaced by the other side, unless one side contains the other. |
| SubstitutionRetrieval.JoinAtom | src/logics/Logic.C:1488-1496 | A Boolean variable is replaced by its truth value; a conflict is reported exactly when it is to be replaced by the other one. |
| SubstitutionRetrieval.Contains | src/logics/Logic.C:1622-1646 | The traversal with a stack finds the variable exactly when it occurs in the term. |
| ComputingSubstitutions.ComputeSubstitutions | src/logics/Theory.C:68-148 | The loop ends with a round on the final root that replaces nothing, after rounds that all did; the units hold the facts of every round, and the substitutions found are those of the rounds. The final root has the value of the formula in every interpretation that solves them, every model of the formula solves them, none of their enabled keys is left in the root, and the root is satisfiable exactly when the formula is. |
| ComputingSubstitutions.FindSubstitutions | src/logics/Theory.C:115-131 | One round: every literal that the root visits has its fact among the units, a true exclusive or by its equality; each new unit is such a fact; the retrieval is handed exactly the facts given and the new units; and the substitutions are those of these facts, with loops broken, closed under themselves, implied by the formula and without conflict. |
| ComputingSubstitutions.OneRound | src/logics/Theory.C:115-148 | The round with its substitution: the root is rewritten, and it changes exactly when it holds an enabled key; a later round that changes it leaves it with fewer variables. |
| SubstitutionRounds.AllFactsKnown | src/logics/Theory.C:115-127 | At the end the units hold the facts of every round. |
| SubstitutionRounds.FactsUsed | src/logics/Theory.C:115-130 | Every fact handed to the retrieval is used by the substitutions of the round, and the enabled entries are those that loop breaking left. |
| SubstitutionRounds.NothingMore | src/logics/Theory.C:109-148 | One more round on the final root finds no new unit and no substitution. |
| ComputingSubstitutions.RoundKeeps | src/logics/Theory.C:131-144 | Substituting what the formula implies keeps the value of the root wherever the substitutions are solved. |
| ComputingSubstitutions.RoundRemovesVariable | src/logics/Theory.C:133-148 | A later round that changes the root leaves it with fewer variables, none of them new. |
| ComputingSubstitutions.SameSatisfiability | src/logics/Theory.C:109-148 | The final root is satisfiable exactly when the formula is. |
| SolvedModels.Complete | src/logics/Theory.C:109-148 | Every model of the final root extends over the eliminated variables to one that solves all substitutions found, from the last round back to the first. |
| SolvedModels.AssignSolves | src/logics/Theory.C:34-58 | Giving every enabled key the value of its target solves a closed map. |
| SolvedModels.EliminatedMore | src/logics/Theory.C:133-144 | After each round neither the root nor later substitutions mention a key eliminated before. |
| FastRationals.FastRational.Assign | src/common/FastRational.h:427-444 | The value of the other number, whichever parts are valid, also when it is the same object. |
| FastRationals.Multiplication | src/common/FastRational.h:687-738 | The product is exact on every path, including the shortcuts for zero and one; a product that fits the checked word range leaves no exact part. |
| FastRationals.Substraction | src/common/FastRational.h:639-685 | The difference is exact if and only if the 64-bit difference of the cross products does not wrap into the accepted range; otherwise the result is that wrapped difference, reduced. |
| WordArithmetic.SubCounterexample | src/common/FastRational.h:659-673 | Two 32-bit fractions whose difference 1 is computed as -7/9. |
| WordArithmetic.HalfRangeNeverBreaks | src/common/FastRational.h:659-673 | Numerators within half the range of a word never wrap in a difference. |
| FastRationals.GetDen | src/common/FastRational.h:222-227 | The denominator as a number; the read is defined exactly when the denominator fits a signed word or the exact part is valid. |
| FastRationals.UnreadableProduct | src/common/FastRational.h:704-730 | The product of 1/65536 and 1/65535 takes the word path and has a denominator above the range of a signed word. |
| FastRationals.MultiplyUnreadably | src/common/FastRational.h:222-227 | That product is a valid number whose denominator cannot be read. |
| FastRationals.LcmRationals | src/common/FastRational.C:103-123 | The least common multiple of two integers that are not negative, by words or exactly. |
| FastRationals.FastRational.Sign | src/common/FastRational.h:493-502 | The sign is the comparison with zero, on both parts. |
| Rationals.RealInjective | src/common/FastRational.h:446-453 | Equal fractions in lowest terms are equal real numbers and the other way round. |
| Multiplicand.GetMultiplicand | src/common/FastRational.C:218-267 | Defined exactly when every number that is not an integer has a readable denominator; then the result makes every number an integer, no smaller positive factor does, and the common multiples of the denominators are exactly its multiples. |
| Multiplicand.ReadDens | src/common/FastRational.C:221-223 | The denominators of the numbers that are not integers, unless one of them cannot be read. |
| Multiplicand.TakeOut | src/common/FastRational.C:227-261 | A pass of the loop moves a factor into the result, keeps the common multiples that the two describe together, and shortens the list. |
| Multiplicand.Round | src/common/FastRational.C:249-260 | The last two denominators are replaced by their least common multiple and the others shortened, losing no common multiple and gaining none. |
| Multiplicand.RemainingDenominator | src/common/FastRational.C:256 | What is left of a denominator can always be read. |
| Multiplicand.LeastMultiplicand | src/common/FastRational.C:217 | The least common multiple of the denominators is the least factor that makes every rational an integer. |
| SplayTrees.SplayTree.Splay | src/common/SplayTree.h:228-272 | Splaying ends, keeps the nodes in their order and all keys, touches no node outside the tree, and leaves everything smaller than the key left of the new root and everything greater right of it, so the root is the key or a neighbour. |
| SplayTrees.SplayTree.GoLeft | src/common/SplayTree.h:242-252 | A step to a smaller key: an optional rotation, then the middle node goes to the tree of greater keys, or there is no left child. |
| SplayTrees.SplayTree.GoRight | src/common/SplayTree.h:253-263 | The mirror image. |
| SplayTrees.LinkRight | src/common/SplayTree.h:248-251 | Linking keeps the three trees apart, in order, and around the key. |
| SplayTrees.RotatedLeft | src/common/SplayTree.h:278-285 | The rotation with the left child keeps the three trees and their nodes in order. |
| SplayTrees.RotatedRight | src/common/SplayTree.h:291-298 | The rotation with the right child keeps the three trees and their nodes in order. |
| SplayTrees.AssembledShape | src/common/SplayTree.h:268-271 | The last four assignments make one search tree of the three, with every node once and in order. |
| SplayTrees.SplayTree.Insert | src/common/SplayTree.h:125-176 | The tree stays a search tree, its keys are the old ones and the new one, and the key is at the root; nothing changes in the set when it was present. |
| SplayTrees.SplayTree.PutOnTop | src/common/SplayTree.h:144-172 | The new node gets the parts around it, or the key was found at the root. |
| SplayTrees.SplayTree.Remove | src/common/SplayTree.h:182-205 | On a tree with keys, exactly the given key is gone and its node is out of the tree; on the empty tree the nil node is what is deleted. |
| Decimals.StringToRational | src/common/Global.h:167-239 | A literal is accepted exactly when it consists of digits with at most one point, or of digits with one slash, after an optional minus; a decimal gets exactly its value in lowest terms, a fraction is handed on as text. |
| Decimals.ScanNumerator | src/common/Global.h:178-195 | The first scan accepts exactly these literals and counts the digits of the numerator: the significant ones without the trailing zeros of the fractional part. |
| Decimals.ScanDenominator | src/common/Global.h:207-216 | The second scan counts one more than the digits of the fractional part without its trailing zeros. |
| Decimals.WriteQuotient | src/common/Global.h:219-235 | The buffer is filled exactly: numerator, slash, a one and zeros, and the terminating NUL; the third scan never leaves the literal. |
| Decimals.QuotientValue | src/common/Global.h:178-216 | With these counts the quotient equals the value of the literal. |
| Decimals.QuotientParts | src/common/Global.h:121-133 | The text is read back as the numerator over the power of ten; no part of it looks like an octal or hexadecimal number. |
| Decimals.StandardLiterals | src/common/Global.h:178-195 | The numerals and decimals of section 3.1 of the SMT-LIB Standard 2.6 are exactly the accepted decimals with digits on both sides of a point and without superfluous leading zeros. |
| Decimals.UntidyAccepted | src/common/Global.h:178-195 | The empty text, a point alone, a point without digits on one side, and leading zeros are accepted and are not literals of the Standard. |
| Decimals.ZeroValue | src/common/Global.h:202-205 | A literal without significant digits has the value zero. |
| Decimals.Rejected | src/common/Global.h:194 | A rejected character cannot be continued to an accepted literal. |
| LinearArithmetic.MkNumPlus | src/logics/LALogic.C:513-579 | The sum has the value of the sum of the arguments in every valuation and is in normal form: every variable once, no zero coefficient, at most one constant, no nested sum, sorted arguments. |
| LinearArithmetic.SimplifyConstSum | src/logics/LALogic.C:778-839 | Adding up the constants and dropping zeros keeps the value and leaves at most one constant. |
| LinearArithmetic.CollectFactors | src/logics/LALogic.C:540-554 | The factors collected for each variable have together the value of the sum. |
| LinearArithmetic.MkNumTimes | src/logics/LALogic.C:580-605 | The product of constants and at most one other factor has the right value and is in normal form; a constant is distributed over a sum. |
| LinearArithmetic.SimplifyConstTimes | src/logics/LALogic.C:840-887 | Zero ends it, ones disappear, and the constant is distributed over the sum. |
| LinearArithmetic.MkNumDiv | src/logics/LALogic.C:606-623 | The quotient by a constant has the right value; division by zero is reported exactly for zero. |
| LinearArithmetic.MkNumNeg | src/logics/LALogic.C:288-311 | The negation has the opposite value in every valuation and is in normal form. |
| LinearArithmetic.NormalizeMul | src/logics/LALogic.C:100-111 | A product becomes the variable or its negation, a positive fraction of it. |
| LinearArithmetic.NormalizeSum | src/logics/LALogic.C:56-98 | The sum is divided by a positive number so that its first variable has the factor 1 or -1. |
| LinearArithmetic.MkNumLeq | src/logics/LALogic.C:627-687 | The result is true in exactly the valuations where the left side is at most the right side; it has a constant on the left, no constant on the right, and the factor 1 or -1 for the first variable. |
| LinearArithmetic.LeqMeaning | src/logics/LALogic.C:627-687 | An inequality that divides the difference of the sides by a positive number has the meaning of the comparison. |
| LinearArithmetic.LeqCanonical | src/logics/LALogic.C:625-687 | Comparisons whose differences are positive multiples of each other give the identical term. |
| LinearArithmetic.LeqOfMultiples | src/logics/LALogic.C:625-687 | In particular both sides can be multiplied by the same positive number. |
| LinearArithmetic.LeqSeparates | src/logics/LALogic.C:625-687 | The identical inequality only stands for comparisons whose differences are positive multiples of each other. |
| LinearTerms.NormalFormsUnique | src/logics/LALogic.h:173-198 | Terms in normal form that have the same value in every valuation are identical: the order of the arguments makes sums canonical. |
| LinearTerms.SumSorted | src/logics/LALogic.h:173-198 | Sorting the arguments keeps the value of a sum. |

## Left out

What a contract does not cover:

- Incremental.MainSolver.InsertFormula: formulas that mention the variables `.frame<id>` are excluded, because these are reserved for the solver.
- Runs.Run: substitutions are off, the solver is initialised at construction as src/api/Opensmt.C does, and conjoining extra formulas is the identity because no if-then-else is lifted.
- Incremental.SimplifiedRoot: which shared nodes the flattening leaves alone is an arbitrary set instead of a count of incoming edges.
- Cnf.Cnfizer.CnfizeAndGiveToSolver: Boolean `distinct` is not a term of the model, and the Boolean result of the encoding is not described, only the clauses.
- Cnf.Cnfizer.Solve: the SAT search and its early detection of conflicts are oracles, exact and sound.
- LogicStore.Logic.InsertTerm: the if-then-else constructor and disequality are not modelled. The constructor introduces a fresh variable and never stores an if-then-else term, so stores without one are all that it can produce.
- LogicStore.Logic.MkEq: arguments of different sorts are excluded; the source asserts on them.
- Substitution.VarSubstitute: keys are variables, and the store holds no if-then-else term.
- SubstitutionClosure.SubstitutionsTransitiveClosure: keys are variables, and the store holds no if-then-else term.
- SubstLoops.SubstLoopBreaker.Apply: keys are variables, and no lists are shared between nodes, as the source never shares any.
- SubstitutionRetrieval.RetrieveSubstitutions: the store does not mix applications of uninterpreted functions with constants of non-Boolean sorts (`Plain`), because then an application can become a key; nothing is said of the substitutions when the facts contradict each other.
- ComputingSubstitutions.ComputeSubstitutions: the store is `Plain`, and the units of the previous frames are implied by the formula and do not contradict each other (`PrevOk`); the theory check of the units and the later re-adding of substitutions to the frame (src/logics/Theory.C:159-260) are not modelled.
- FastRationals.FdivQ: the divisor is not zero; the source divides by it.
- FastRationals.LcmRationals: negative operands are excluded.
- FastRationals.Addition: the result object is neither operand; the compound assignments cover aliasing.
- FastRationals.FastRational.TryFitWord: modelled without its assertion that the word part is invalid, which some callers do not meet.
- Multiplicand.GetMultiplicand: the sorting of the library is an insertion sort.
- SplayTrees.SplayTree.Remove: on the empty tree nothing is promised but what is deleted. `find` and the size statistic are not modelled.
- SplayTrees.SplayTree.Insert: keys are integers with their usual order.
- Decimals.StringToRational: lengths are unbounded, a literal is the characters before its NUL, and the value of a fraction is left to GMP.
- LinearArithmetic.MkNumPlus: uninterpreted functions inside arithmetic are excluded.
- LinearArithmetic.MkNumTimes: products with more than one factor that is not constant are excluded; the source throws on some of them and drops a factor of others.
- LinearArithmetic.MkNumLeq: numbers are real numbers; that the operations on rationals are exact is what the FastRational modules prove.

Parts of the repository that the model does not have:

- Declaring variables to the theory solvers, frozen variables, proof partitions and interpolation.
- The SAT search, the theory solvers, if-then-else lifting, Gaussian elimination and bit-blasting.
- Parsing, printing, options, the command interpreter and the C interface.
- Memory layout: region allocation, reallocation and reference invalidation.
- Of FastRational: the remainder, hashing, conversion from strings and to floating point, exact division of integers and rounding to an integer.
- The other comparisons of linear arithmetic, which call the one that is modelled.
