# Verified model of SBSAT's formula processing

SBSAT is a satisfiability solver that keeps its constraints as reduced ordered
binary decision diagrams (BDDs). This project models the algorithms that turn
formulas into other formulas on the way in and out of the solver, and proves that
each of them keeps the meaning it is supposed to keep:

- **Quine–McCluskey output** (`Cubes`, `QuineMcCluskey`, `PrimeClosure`, `TruthTable`,
  `AndClauses`, `CnfOutput`): truth table of a BDD, prime implicants level by level, the
  resolution and subsumption loop behind them, functions that equate a literal with a
  conjunction, and the header and clauses printed.
- **Tseitin output** (`Tseitin`, `ThreeSat`): one made-up variable per node of a shared BDD.
- **XOR format** (`XorDiagram`, `XorFlat`, `XorWriter`, `XorText`, `XorScanner`, `XorNames`,
  `XorReader`, `XorFormat`, `XorAcceptance`, `XorRoundTrip`, `XorCollision`): BDDs as sums
  of products, the text printed for them, the reader that cuts long products out with new
  variables, which files it accepts, and when a new variable's name collides.
- **Clause clustering** (`ClauseOrder`, `ClauseStore`, `XorSearch`, `AndEqualSearch`,
  `ThreeLists`, `MajoritySearch`, `IteSearch`, `CnfProcess`): sorted clauses are
  searched for XOR, AND=/OR=, MAJ= and ITE= groups, which become one function each.
- **AIGER** (`AigGraph`, `AigModel`, `AigSemantics`, `CycleCheck`, `ReencodeWalk`,
  `Reencode`, `AndList`, `Renumbering`, `ReencodeAig`, `AigerBinary`, `AsciiFormat`,
  `AigerAscii`, `BinaryCheck`): cycle check, renumbering, and the binary and the ASCII
  file format (version 20071012 of the format).
- **Variable elimination** (`OccurrenceLists`, `OccurrenceIndex`, `Elimination`,
  `EliminationRun`, `Preprocessing`): the index from variables to functions, and the two
  elimination loops that rely on it. A run of either loop is a sequence of steps, each
  with the condition under which it is allowed and its exact effect on functions, marks
  and kinds; the loops end where no step is allowed.
- **Distances** (`Diameter`): breadth-first search over variables and functions.
- **Instance generators** (`Ramsey`, `VanDerWaerden`): the clauses of Ramsey and van der
  Waerden problems, and the counts in their headers.

`Arithmetic`, `Basics`, `Bdd`, `Clauses` and `Decimals` hold what several of these share.
A BDD is a value with an evaluation function; the operations of the BDD table have their meaning
proved once (`Bdd.IteEval`, `Bdd.ExistsEval`). An assignment is the set of variables
that are true. Code that changes arrays, lists or object fields in place is modelled
by methods that do the same, each proved against a specification; what the
specification is worth is proved in lemmas beside it.

Where the code does not do what its comments or callers expect, the code is
modelled and the exact condition is proved:

- `printBDDToCNF3SAT` uses the numbers numinp+2 and numinp+3 for the constants, and
  made-up variables can get the same numbers. With m the largest variable and i the number
  of inner nodes that are no literals, the numbers given are m+1 to m+i: every function is
  printed as itself if and only if none of these nodes that is a child of another has one
  of the two numbers (`ThreeSat.Taken`), and for one function the output is right if and
  only if m+i is at most numinp+2 (`ThreeSat.Fits`, `ThreeSat.PrintBDDToCNF3SAT`). A
  conjunction of four variables already goes wrong (`ThreeSat.FourConjuncts`). A constant
  root is printed as literal 0.
- `printBDDToCNFQM` trusts the labels of AND= and OR= functions: what it prints for one is
  the function if and only if fixing the equality variable to its two values gives a
  function other than false and that function's negation (`AndClauses.SaysExactly`). Labels
  from `isAND_EQU` are always right (`CnfOutput.ClassifyOne`).
- `printXORFormat` prints the false function as an empty line, which the reader skips
  (`XorRoundTrip.FalseIsLost`: the meaning survives if and only if there is no false function
  or the others are unsatisfiable anyway). A file is accepted if and only if its equations
  and the products cut out are at most twice the functions announced and no name gets a
  number above the limit (`XorAcceptance.RunExactly`); a single function with ten or more
  products of two variables is refused (`XorRoundTrip.AloneTooMany`). A new variable can
  get a name the file uses. Then a model of the functions printed extends to one of those
  read if and only if each such old variable equals its product in it
  (`XorCollision.ExtendsExactly`), so no model is lost if and only if that holds in all of
  them (`XorCollision.NoneLostExactly`); an accepted file of two equations loses one
  (`XorCollision.CollisionExample`). Without a collision every model has exactly one
  extension (`XorRoundTrip.OneExtension`), with one it has one at most
  (`XorCollision.OneAtMost`).
- `find_and_build_andequals` builds a function for the literal it found; that function is
  the conjunction of the clauses taken if and only if the literal occurs once in the long
  clause, or the clause has both signs of another variable
  (`AndEqualSearch.MatchIsFunction`; a failing input is in
  `AndEqualSearch.RepeatedLiteralExample`). It follows from them in any case
  (`AndEqualSearch.MatchImplies`), so `cnf_process` loses no model, and gains none unless
  two clauses double a literal (`CnfProcess.CnfProcess`). The search can pass over a group whose two-literal
  clauses include both signs of a variable (`AndEqualSearch.BothSignsExample`); which groups it
  does find is stated exactly.
- `find_and_build_iteequals` marks further clauses by counting their literals; such a clause
  follows from the four if and only if it has both opposed literals
  (`IteSearch.ExtraExactly`); one that has one of them twice is marked without following
  (`IteSearch.DoubledExample`: five clauses and the assignment that shows it).
- `aiger_check_for_cycles` never clears its marks, so a second check sees no gate
  (`CycleCheck.SecondCheckBlind`).
- `aiger_write_binary` does not renumber an AIG that is in order already, and its
  reader refuses the file unless the maximal variable counts the inputs, latches and
  ANDs (`AigerBinary.FileRoundTrip`, `AigerBinary.WriteThenRead`).
- An ASCII AIGER file gives back the symbols it was written with if and only if no name has
  a new line (`AsciiFormat.AagReadBack`); nothing stops a program from giving such a name.
- `compute_diameter` does not clear the depth of the last variable. With a depth left over,
  the search goes around that variable: its depths are the true distances if and only if
  the depth left over is the true one and no other variable needs it on its shortest
  paths (`Diameter.DepthsRight`). The result is the greatest distance around that variable,
  plus one; where no other variable needs it, that is the true greatest if and only if the
  last variable itself is not farther away (`Diameter.BypassedRadius`).

## Model

| member | source | states |
|---|---|---|
| Bdd.Canonicity | src/utils/bddtable.cc:155-160 | with larger variables above and no redundant node, two diagrams are the same diagram exactly when they are the same function; this is why comparing with true_ptr decides validity |
| Bdd.IteEval | src/utils/bdd_ite.cc:462-617 | ite(f, g, h) is g where f holds and h elsewhere |
| Bdd.IteRobdd | src/utils/bdd_ite.cc:462-617 | ite gives a reduced ordered diagram and mentions no variable its arguments do not mention |
| Bdd.OperatorsEval | include/bdd_ite.h:62-66 | not, and, or, xor and equ, built from ite, compute these connectives |
| Bdd.ExistsEval | src/utils/bdd.cc:1396-1418 | xquantify(f, v) holds exactly where some value of v makes f hold |
| Bdd.ExistsRobdd | src/utils/bdd.cc:1396-1418 | xquantify gives a reduced ordered diagram that no longer mentions v and mentions nothing new |
| TruthTable.BCount | src/formats/smurf.cc:41-62 | the vector becomes the next binary number, least significant bit first, and nothing else in the buffer changes |
| TruthTable.IncrementIndex | src/formats/smurf.cc:41-62 | flipping as bcount does adds one modulo 2^n to the index the vector stands for |
| TruthTable.GetTruth | src/formats/smurf.cc:64-78 | the walk from the largest variable down returns the BDD's value on the vector, terminals looping on themselves |
| TruthTable.BuildTable | src/formats/bdd2cnf.cc:765-775 | entry i of the table is the BDD's value on the bits of i |
| QuineMcCluskey.FindPivot | src/formats/bdd2cnf.cc:614-632 | the scan reaches the end exactly for equal cubes and cubes that differ in one 0/1 position, which it returns |
| QuineMcCluskey.ResolvePair | src/formats/bdd2cnf.cc:614-665 | marks both cubes and adds their merge once, exactly when they merge; the exit for a negative pivot cannot be reached |
| QuineMcCluskey.ResolveRows | src/formats/bdd2cnf.cc:612-668 | two rows against each other: marked are exactly those that merge with one of the other row, made exactly the merges, each once |
| QuineMcCluskey.PairOfRows | src/formats/bdd2cnf.cc:608-669 | if both rows hold exactly the implicants with j and j+1 ones and i don't-cares, the new row holds exactly those with j ones and i+1 don't-cares |
| QuineMcCluskey.Seed | src/formats/bdd2cnf.cc:578-590 | the first column holds each table entry of the given sign once, by its number of ones |
| QuineMcCluskey.Levels | src/formats/bdd2cnf.cc:607-669 | afterwards clauses[j][i] holds exactly the implicants with j ones and i don't-cares, each once, and every one is marked on both sides |
| QuineMcCluskey.UsedIsNotPrime | src/formats/bdd2cnf.cc:638-639 | used is set on exactly the implicants that are not prime |
| QuineMcCluskey.Assemble | src/formats/bdd2cnf.cc:671-692 | the pile holds exactly the prime implicants, each once |
| QuineMcCluskey.Resolve | src/formats/bdd2cnf.cc:562-724 | returns exactly the prime implicants of the entries of the given sign, each once, and its closing loop ends within two rounds |
| PrimeClosure.ApplyBoundedResolution | src/formats/bdd2cnf.cc:472-529 | puts in front of the list exactly the consensus cubes of its pairs with one clash at most and few enough literals, and reports whether there were any |
| PrimeClosure.ConsensusImplicant | src/formats/bdd2cnf.cc:472-529 | the consensus of two implicants is an implicant |
| PrimeClosure.ApplySubsumption | src/formats/bdd2cnf.cc:528-559 | what stays is a duplicate-free antichain taken from the list that covers every cube of the list |
| PrimeClosure.SubsumptionLeavesPrimes | src/formats/bdd2cnf.cc:528-559 | from implicants that include all primes exactly the primes are left |
| PrimeClosure.Close | src/formats/bdd2cnf.cc:694-708 | on the primes the loop ends within two rounds and returns the primes |
| Cubes.PrimesCover | src/formats/bdd2cnf.cc:562-724 | the primes cover exactly the assignments the table marks |
| TruthTable.ZerosAreTheDiagram | src/formats/bdd2cnf.cc:846 | the clauses of the primes of the zeros hold together exactly where the BDD does |
| Bdd.SetVariableEval | src/utils/bdd.cc:1673-1696 | fixing a variable gives the function at the assignments with that value |
| AndClauses.GetAndLiterals | src/formats/smurf.cc:90-120 | finds a literal for every variable exactly when the equality variable is one of them and each other variable has a value that makes the fixed function false |
| AndClauses.RecordsMean | src/formats/bdd2cnf.cc:798-825 | the long and the short records together say that the equality literal is the conjunction of the others |
| AndClauses.SaysExactly | src/formats/bdd2cnf.cc:786-825 | these clauses are the function exactly when it is a function other than false at one value of the equality variable and the negation of that at the other |
| AndClauses.IsAnd | src/utils/bdd.cc:1143-1155 | true exactly for functions of two variables or more that one value of each variable makes false, without being false themselves |
| AndClauses.IsAndEqu | src/utils/bdd.cc:1160-1171 | returns a variable of an AND= equation, a negated one of an OR= equation, and 0 exactly when there is neither |
| CnfOutput.ClassifyOne | src/utils/bdd.cc:1264-1278 | labels a function exactly when it is such an equation and long enough, and then the label is right and the literals can be found |
| CnfOutput.PrintBDDToCNFQM | src/formats/bdd2cnf.cc:726-894 | exits exactly when a labelled function hides its literals; otherwise the header has the number of clauses and the largest variable of any function, and with right labels the clauses have exactly the common models of the functions |
| ThreeSat.GetMaxVarNoInBDD | src/formats/bdd2cnf.cc:68-83 | returns the largest variable, -1 for a constant, and clears tmp_int on every inner node |
| Tseitin.NodeClausesDefine | src/formats/bdd2cnf.cc:123-337 | the clauses of a node say that its number is the then child's value or the else child's, by its variable, whatever mix of constants and literals the children are |
| Tseitin.Bdd2Cnf | src/formats/bdd2cnf.cc:123-337 | gives each node without a number, in a fixed order, the next number and exactly one definition, counts its clauses, keeps numbers already given, and the root means its BDD unless a child's number is the number of a constant |
| Tseitin.ExtensionDefines | src/formats/bdd2cnf.cc:123-337 | every assignment of the original variables extends to one that satisfies all definitions |
| Tseitin.ExtensionUnique | src/formats/bdd2cnf.cc:123-337 | and to only one |
| Tseitin.MistakeShows | src/formats/bdd2cnf.cc:49-51 | a BDD with inner nodes taken for constants, if it differs at all, differs on some assignment |
| Tseitin.RightUnlessMisread | src/formats/bdd2cnf.cc:49-51 | a node's number means its own BDD exactly when no node under it reads a child's number as a constant |
| ThreeSat.EquisatisfiableClauses | src/formats/bdd2cnf.cc:378-388 | an assignment extends to a model of the printed clauses exactly when all roots hold, and the made-up variables are then determined |
| ThreeSat.TreesExactly | src/formats/bdd2cnf.cc:352-410 | all functions are printed as themselves exactly when no child in the order of printing has a number of a constant, which depends on the functions and numinp only |
| ThreeSat.PrintBDDToCNF3SAT | src/formats/bdd2cnf.cc:352-410 | garbage exactly for a constant root; otherwise the header has the largest variable plus the number of inner nodes that are no literals, and the number of clauses, and the models are those of the functions if no number is taken; for one function exactly if all numbers fit under numinp+2 |
| ThreeSat.FourConjuncts | src/formats/bdd2cnf.cc:49-51 | for the conjunction of four variables the printed clauses have a model that is none of the function |
| XorDiagram.XddXorEval | src/utils/bdd.cc:499-519 | the XOR of two XOR diagrams evaluates to the sum of their values |
| XorDiagram.ToXddEval | src/utils/bdd.cc:607-625 | the XOR diagram of a BDD evaluates as the BDD |
| XorFlat.FlatValue | src/formats/xorbdd.cc:259-290 | the sum of the products of the flattened diagram is its value |
| XorFlat.GetFlatXdd | src/formats/xorbdd.cc:259-290 | the loops give exactly these products, none longer than the buffer of the function's length |
| XorFlat.InvertedValue | src/formats/xorbdd.cc:233-249 | inverting the list complements the sum |
| XorWriter.LineValue | src/formats/xorbdd.cc:181-206 | the equation printed for a function, "=0" and "=1" included, holds exactly where the function does |
| XorWriter.PrintXORFormat | src/formats/xorbdd.cc:357-369 | a line for every function except true, its products and its right-hand side in the order of the diagram |
| XorText.FileRead | src/formats/xorbdd.cc:377-441 | text written as equations and blank lines is parsed as exactly these equations |
| XorScanner.Scanner.GetNextSymbol | src/formats/xorbdd.cc:377-595 | the symbol at the current character and the place after it, or an error |
| XorScanner.Scanner.ReadEquation | src/formats/xorbdd.cc:657-697 | the products and the right-hand side up to the end of the line, or an error for a missing or a second space |
| XorNames.ProductValue | src/formats/xorbdd.cc:660-676 | the BDD of a product holds where all its variables do, whatever numbers their names get |
| XorNames.LongIsTwoDeep | src/formats/xorbdd.cc:700-707 | walking down the then children finds two nodes exactly for products of two different variables |
| XorReader.XorReader.AddEquation | src/formats/xorbdd.cc:699-746 | the functions after an equation hold exactly where those before and the equation hold and each new variable equals its product; refused exactly for a number too large or too many functions |
| XorFormat.XorLoop | src/formats/xorbdd.cc:597-751 | accepts exactly the files that parse and stay within the limits, and its functions hold exactly where all equations hold and the new variables equal their products |
| XorRoundTrip.EquationsHold | src/formats/xorbdd.cc:357-369 | all equations printed together hold exactly where all functions other than false do |
| XorRoundTrip.PrintAndRead | src/formats/xorbdd.cc:597-751 | what was printed is accepted exactly when equations and cuts fit in twice the functions and no number exceeds the limit; the functions read are then equivalent to those printed together with definitions of the new variables |
| XorRoundTrip.NewVariablesDetermined | src/formats/xorbdd.cc:724-735 | without a name used twice every choice of the old variables has exactly one choice of the new ones |
| XorRoundTrip.OneExtension | src/formats/xorbdd.cc:724-735 | so a model of the functions printed has exactly one extension to a model of those read, and other assignments have none |
| XorRoundTrip.FalseIsLost | src/formats/xorbdd.cc:363-368 | the meaning survives exactly when no function is false or the others have no model |
| XorRoundTrip.ShortEquationsAccepted | src/formats/xorbdd.cc:710-714 | a file without ten products of two variables in one equation meets this condition and adds no variable |
| XorRoundTrip.AloneTooMany | src/formats/xorbdd.cc:748-751 | a single function with ten such products does not |
| XorAcceptance.RunExactly | src/formats/xorbdd.cc:597-751 | a parsed file is accepted exactly when equations and cuts fit in twice the functions and no name, of the file or new, gets a number above the limit; the state at the end is then the closed form |
| XorCollision.ExtendsExactly | src/formats/xorbdd.cc:724-735 | an assignment of the file's names extends to a model of the functions read exactly when the functions printed hold and every cut whose name the file uses is equal to its product |
| XorCollision.NoneLostExactly | src/formats/xorbdd.cc:724-735 | so no model is lost exactly when in every model of the functions printed each such name equals its product |
| XorCollision.OneAtMost | src/formats/xorbdd.cc:724-735 | whatever collides, the new variables have one choice at most |
| XorCollision.CollisionExample | src/formats/xorbdd.cc:729-730 | a file of two equations, one with ten products of two variables, is accepted, and a solution of the equations is lost because a new variable gets a name of the file |
| ClauseOrder.Compare | src/formats/cnf.cc:63-97 | compares by length, then variables, then literals, and returns 0 for equal clauses only |
| ClauseOrder.SameVariablesBetween | src/formats/cnf.cc:333-338 | a clause sorted between two clauses over the same variables has these variables too |
| ClauseStore.ReduceClauses | src/formats/cnf.cc:261-296 | duplicates of a predecessor are marked, and the clauses not marked are kept in place in their order |
| ClauseStore.DropSound | src/formats/cnf.cc:280-293 | dropping clauses that follow from the rest changes no model |
| ClauseStore.ReduceSound | src/formats/cnf.cc:261-296 | after a search reduce_clauses keeps the models, leaves strictly sorted clauses and none marked |
| ClauseStore.SearchSound | src/formats/cnf.cc:986-1002 | a search keeps the models if its functions follow from the clauses and each clause it marks follows from its functions |
| XorSearch.Saturated | src/formats/cnf.cc:324-331 | n increasing numbers below n are 0 to n-1: distinct sorted clauses of one parity, as many as there are patterns, are all of them |
| XorSearch.WindowFull | src/formats/cnf.cc:320-353 | an accepted block contains every clause over its variables with the sign product of its first clause |
| XorSearch.XorIsWindow | src/formats/cnf.cc:356-360 | the XOR of the first clause's literals holds exactly where all clauses of the block hold |
| XorSearch.TryWindow | src/formats/cnf.cc:317-353 | the tests decide exactly whether a block starts here, and the positions they skip start none |
| XorSearch.FindAndBuildXors | src/formats/cnf.cc:314-369 | one function for each block, in order, and exactly the blocks' clauses are marked |
| XorSearch.XorsSound | src/formats/cnf.cc:314-369 | the XOR search keeps the models |
| AndEqualSearch.BuildTwoLists | src/formats/cnf.cc:373-441 | for each literal the list of the two-literal clauses it is in, with the other literal, in order |
| AndEqualSearch.TestCover | src/formats/cnf.cc:460-475 | the two-pointer scan succeeds exactly when each other literal of the clause, in order, has its opposite in the list and only entries of smaller variables lie between |
| AndEqualSearch.AndFunctionValue | src/formats/cnf.cc:489-508 | the function built says that the literal is the negation of the disjunction of the others, whichever sign it has |
| AndEqualSearch.MatchIsFunction | src/formats/cnf.cc:447-511 | the function built holds exactly where all clauses taken by the match hold, if and only if the literal occurs once in the long clause or that clause has both signs of another variable |
| AndEqualSearch.MatchImplies | src/formats/cnf.cc:447-511 | right or not, the function built follows from the clauses the match takes |
| AndEqualSearch.NoDoublesFaithful | src/formats/cnf.cc:447-511 | every match is right if no two-literal clause repeats a literal whose opposite a longer clause repeats |
| AndEqualSearch.FindAndBuildAndEquals | src/formats/cnf.cc:372-525 | one function for each match, in order, and exactly the clauses of the matches are marked |
| AndEqualSearch.AndEqualsSound | src/formats/cnf.cc:372-525 | the AND=/OR= search keeps the models if every match is right |
| AndEqualSearch.AndEqualsLoseNone | src/formats/cnf.cc:372-525 | on any sorted clauses it loses no model |
| AndEqualSearch.RepeatedLiteralExample | src/formats/cnf.cc:463-487 | with a repeated literal the function built allows an assignment that the clauses exclude |
| AndEqualSearch.BothSignsExample | src/formats/cnf.cc:460-475 | a clause whose literals all have their two-literal clauses is passed over because both signs of a variable are in the list |
| ThreeLists.BuildThreeLists | src/formats/cnf.cc:770-809 | for each literal the increasing list of the three-literal clauses it is in |
| MajoritySearch.PairForces | src/formats/cnf.cc:831-882 | two of the three clauses with v0 determine the four literals |
| MajoritySearch.SearchVariable | src/formats/cnf.cc:828-933 | six clauses are found for v0 exactly when there are six |
| MajoritySearch.SixAreFunction | src/formats/cnf.cc:935-938 | the function built holds exactly where the six clauses hold |
| MajoritySearch.MajFunctionValue | src/formats/cnf.cc:935-937 | the function built says that v0 is the negation of the majority of the other three literals |
| MajoritySearch.FindAndBuildMajvEquals | src/formats/cnf.cc:766-960 | one function for each variable that has six clauses, none for others, and exactly the clauses of the sixes are marked |
| MajoritySearch.MajvEqualsSound | src/formats/cnf.cc:766-960 | the MAJ= search keeps the models |
| IteSearch.HalfUnique | src/formats/cnf.cc:627-643 | a clause and its counterpart leave one choice for the shared and one for the opposed literal |
| IteSearch.HalvesAreFunction | src/formats/cnf.cc:691-709 | the function built holds exactly where the four clauses hold |
| IteSearch.ExtraImplied | src/formats/cnf.cc:711-729 | the further clauses the search marks follow from the four |
| IteSearch.ExtraExactly | src/formats/cnf.cc:711-729 | a further clause that is marked follows from the four exactly when it has both opposed literals |
| IteSearch.DoubledExample | src/formats/cnf.cc:711-729 | five clauses on which a further clause with a literal twice is marked, and an assignment that the four allow and it forbids |
| IteSearch.FindAndBuildIteEquals | src/formats/cnf.cc:527-746 | one function for each variable where two halves join, none for others, and exactly the clauses of the halves and those that follow from them are marked |
| IteSearch.IteEqualsSound | src/formats/cnf.cc:527-746 | the ITE= search keeps the models |
| CnfProcess.BuildClauseBdds | src/formats/cnf.cc:298-312 | every clause left becomes the function of its literals, appended in order, and is marked |
| CnfProcess.PhaseKeeps | src/formats/cnf.cc:986-1002 | a search followed by reduce_clauses leaves sorted distinct clauses which, with the functions, have all models of the original clauses, and no other one if the search was exact |
| CnfProcess.CnfProcess | src/formats/cnf.cc:962-1009 | no clause is left and no model is lost; the functions have exactly the models of the clauses that came in, with clustering if no two clauses double a literal; three-literal clauses to be clustered have three variables |
| AigGraph.WalkCycle | src/formats/aiger.c:622-698 | a gate met again while it is on the stack closes a cycle |
| AigGraph.RankedAcyclic | src/formats/aiger.c:622-698 | gates finished after their children have no cycle |
| CycleCheck.CheckForCycles | src/formats/aiger.c:622-698 | ends, and reports a variable exactly when the ANDs unmarked on entry have a cycle; the variable is on one |
| CycleCheck.SecondCheckBlind | src/formats/aiger.c:622-698 | after a check has passed, a second one reports nothing whatever the ANDs have become |
| AigSemantics.RunExists | src/formats/aiger.c:700-713 | a well-formed AIG has values for all variables, for every input and state |
| AigSemantics.RunUnique | src/formats/aiger.c:700-713 | and its outputs and next state are determined |
| ReencodeWalk.NewCode | src/formats/aiger.c:1044-1054 | the next even number becomes the code of the variable, the odd one that of its negation |
| ReencodeWalk.ReencodeLit | src/formats/aiger.c:1056-1161 | ends on acyclic AIGs, gives codes to exactly the uncoded ANDs below the literal, children first, and leaves every onstack bit as it was |
| Reencode.MaxInputOrLatch | src/formats/aiger.c:972-996 | the largest literal among inputs and latches, 0 if there are none |
| Reencode.IsReencoded | src/formats/aiger.c:998-1042 | true exactly when inputs, latches and ANDs are numbered in this order without gaps and each AND's literals descend |
| Reencode.CodeInputs | src/formats/aiger.c:1198-1208 | inputs get the codes from 2 on, in order, with both signs |
| Reencode.CodeLatches | src/formats/aiger.c:1210-1218 | latches get the codes after the inputs, so that every input and latch has one code |
| Reencode.ReencodeNexts | src/formats/aiger.c:1220-1225 | every next-state literal becomes its code, and the ANDs numbered are in the cone of these literals |
| Reencode.ReencodeOutputs | src/formats/aiger.c:1227-1232 | the same for the outputs |
| Reencode.ConeExactly | src/formats/aiger.c:1220-1232 | every AND in the cone of a next-state literal or output has been numbered |
| AndList.Compact | src/formats/aiger.c:1236-1263 | coded ANDs stay, renumbered and with their literals in order, in their old sequence; the others are gone |
| AndList.Consecutive | src/formats/aiger.c:1265-1269 | sorted left-hand sides that take exactly the numbers from a base on have no gaps |
| ReencodeAig.SortedAnds | src/formats/aiger.c:1236-1269 | the ANDs kept, once sorted, are numbered consecutively after inputs and latches |
| ReencodeAig.ResetTypes | src/formats/aiger.c:1271-1313 | the types fit the new numbers, positions included, and inputs and latches have their new literals |
| ReencodeAig.ConeOnly | src/formats/aiger.c:1220-1232 | exactly the ANDs in the cone of an output or next-state function are numbered |
| Renumbering.RenumberedEquivalent | src/formats/aiger.c:1171-1328 | renumbering keeps every output and next-state function, for every input and state |
| ReencodeAig.AigerReencode | src/formats/aiger.c:1171-1328 | the result is well formed, renumbered, equivalent, has only the cone's ANDs, each once, and no larger maximal variable; an AIG already in order is left alone |
| AigerBinary.WriteDelta | src/formats/aiger.c:759-778 | appends the seven-bit groups of the number, least significant first, with the top bit on all but the last |
| AigerBinary.DeltaFiveBytes | src/formats/aiger.c:759-778 | at most five bytes for a 32-bit number |
| AigerBinary.DeltaRoundTrip | src/formats/aiger.c:1834-1877 | the reader gets back every 32-bit number, and the rest of the file after it |
| AigerBinary.DecimalRoundTrip | src/formats/aiger.c:1554-1566 | reading digits gives back every 32-bit number printed |
| AigerBinary.WriteHeader | src/formats/aiger.c:780-836 | magic, five counts, next-state literals and outputs, one a line; inputs and latches are implicit |
| AigerBinary.WriteBinary | src/formats/aiger.c:1340-1373 | renumbers, keeping the behaviour, and writes header and deltas of the result |
| AigerBinary.Reader.ReadNumber | src/formats/aiger.c:1554-1566 | consumes the digits at the current character, 32 bits kept |
| AigerBinary.Reader.ReadLiteral | src/formats/aiger.c:1574-1608 | a number and the required white space after it, an error for anything else |
| AigerBinary.Reader.ReadDelta | src/formats/aiger.c:1834-1877 | the delta at the current character, or an error at the end of the file or after too many bytes |
| AigerBinary.Reader.ReadAnds | src/formats/aiger.c:1879-1916 | the ANDs with consecutive left-hand sides, or an error for a delta that is too large |
| AigerBinary.ReadFile | src/formats/aiger.c:1645-1785 | the AIG the bytes stand for, or the error |
| AigerBinary.FileRoundTrip | src/formats/aiger.c:1340-1373 | reading what was written returns the same AIG, exactly when the maximal variable counts inputs, latches and ANDs |
| AigerBinary.WriteThenRead | src/formats/aiger.c:1340-1373 | writing any well-formed AIG and reading it back gives an equivalent AIG, except for one already in order with unused variables, which the reader refuses |
| BinaryCheck.FileComplete | src/formats/aiger.c:1646-1916 | an AIG read from a binary file is numbered in order, counts its variables, and has every literal in range |
| BinaryCheck.ReadWellFormed | src/formats/aiger.c:2055-2092 | so the check after reading a binary file passes exactly when no AND has its own left-hand side on the right, that is no first delta is zero |
| AsciiFormat.AagRoundTrip | src/formats/aiger.c:948-970 | parsing the text of an AIG and its symbols gives back both, if all variables are defined once and no name has a new line |
| AsciiFormat.AagReadBack | src/formats/aiger.c:1918-2010 | the symbols come back exactly when no name has a new line |
| AigerAscii.WriteAscii | src/formats/aiger.c:948-970 | header, inputs, latches, outputs, ANDs and symbols, in this order |
| AigerAscii.TypedDefined | src/formats/aiger.c:1610-1643 | a variable has a type exactly when the literal is among the definitions read |
| AigerAscii.ReadLatches | src/formats/aiger.c:1734-1766 | the latches are added in order, or an error for a bad, undefined or second literal |
| AigerAscii.ReadAndLines | src/formats/aiger.c:1788-1832 | the ANDs are added in order, or an error |
| AigerAscii.ReadSymbols | src/formats/aiger.c:1924-2010 | names are given by position, each once; an empty name is none |
| AigerAscii.Check | src/formats/aiger.c:701-713 | no error exactly when every literal used is defined and the ANDs have no cycle |
| AigerAscii.ReadAscii | src/formats/aiger.c:2055-2092 | the AIG and symbols the bytes stand for, or the error, and after reading no error exactly when the AIG is well formed |
| AigerAscii.AsciiThenRead | src/formats/aiger.c:2055-2092 | a well-formed AIG that is written and read is the same AIG, accepted again, with the same symbols exactly when no name has a new line |
| OccurrenceLists.LList.Append | src/preproc/do_applyinfs.cc:798-811 | the number joins at the tail, earlier nodes stay |
| OccurrenceLists.LList.Remove | src/preproc/do_applyinfs.cc:775-791 | the first node with the number is unlinked, head and tail included, and the others keep their order |
| OccurrenceLists.Occurrences.Add | src/preproc/do_applyinfs.cc:798-811 | list and counter of one variable grow, all others stay |
| OccurrenceLists.Occurrences.Drop | src/preproc/do_applyinfs.cc:775-791 | the function leaves the list of one variable and its counter follows, all others stay |
| OccurrenceIndex.MergeLists | src/preproc/do_applyinfs.cc:770-860 | walking the old and the new sorted support, the function leaves exactly the lists of lost variables and joins exactly those of gained ones |
| OccurrenceIndex.IndexUpdated | src/preproc/do_applyinfs.cc:768-875 | so the index lists a function under a variable, once, exactly when it mentions it |
| OccurrenceIndex.Formula.RebuildBDDx | src/preproc/do_applyinfs.cc:713-894 | unsatisfiable exactly for the false function; otherwise the index describes the function as it is now, for every variable, with its sorted support and length, and its type is the one the tests give it |
| Elimination.MergeEliminates | src/preproc/do_exquantifyand.cc:183-186 | conjoining one function into another and putting true in its place keeps the models |
| Elimination.QuantifyEliminates | src/preproc/do_exquantifyand.cc:215-216 | quantifying a variable away from the one function that mentions it quantifies it away from the conjunction |
| Elimination.FalseIsUnsat | src/preproc/do_exquantifyand.cc:57-59 | a false function means that the original functions have no model |
| Elimination.ModelExtends | src/preproc/do_exquantifyand.cc:66 | a model of what is left agrees with a model of the original on all variables not quantified away |
| Elimination.MergeShrinks | src/preproc/do_exquantifyand.cc:168-231 | a merge of two functions that are not true makes live variables plus functions fewer |
| EliminationRun.RunMarks | src/preproc/do_exquantifyand.cc:168-231 | a run of either loop changes the mark of exactly the variables it quantifies away, to 2, and these occurred before and occur no more |
| EliminationRun.StillOpen | src/preproc/do_exquantifyand.cc:165-231 | a variable that was open and still occurs is open still, however many steps were made |
| EliminationRun.LetGoWasOpen | src/preproc/do_exquantify.cc:92-160 | what the loop over single functions quantifies away was open |
| EliminationRun.LiveShrinks | src/preproc/do_exquantifyand.cc:183-229 | an allowed step adds no variable to the functions |
| Preprocessing.Preprocessor.Merge | src/preproc/do_exquantifyand.cc:183-205 | the two functions, their kinds and equality variables change as described and nothing else of the state does, both are listed anew, and unsatisfiable means that a function is false |
| Preprocessing.Preprocessor.Quantify | src/preproc/do_exquantifyand.cc:215-224 | the variable goes from the function, is marked and recorded as quantified, the function is listed anew, and nothing else of the state changes |
| Preprocessing.Preprocessor.QuantifyOthers | src/preproc/do_exquantifyand.cc:207-229 | ends, changes no other function, and does allowed steps only: variables that are in this function alone go away |
| Preprocessing.Preprocessor.RandomOrder | src/preproc/do_exquantifyand.cc:75-107 | the variables by number of functions; the first entry of the sorted array, which is passed over, has no function |
| Preprocessing.Preprocessor.MergeVariable | src/preproc/do_exquantifyand.cc:165-231 | walking a list that changes under the walk ends, after allowed steps only; if it reports no change, the state is as before and the variable, unless the user broke in, is in one function or every pair of its functions is kept apart by the length limit |
| Preprocessing.Preprocessor.ExQuantifyAnd | src/preproc/do_exquantifyand.cc:92-268 | a run of allowed merges and quantifications leads to the new state; a change makes the problem smaller, and a pass that reports none, without an interrupt, leaves the state as it was with every variable of its order settled |
| Preprocessing.Preprocessor.DoExQuantifyAnd | src/preproc/do_exquantifyand.cc:46-68 | ends after a run of allowed steps; unsatisfiable only if the original is, satisfiable only if it is and exactly when all functions are true; without an interrupt every open variable left is kept by the length limit |
| Preprocessing.Preprocessor.QuantifySingle | src/preproc/do_exquantify.cc:92-160 | one variable: quantified away exactly by the step from a function that has it alone, with the variable open and the guard of line 121 letting it go; or left with everything unchanged because no function lets it go |
| Preprocessing.Preprocessor.ExQuantify | src/preproc/do_exquantify.cc:64-164 | ends after a run of such steps; no change means that the state is as before, and without an interrupt no open variable is left that a function of its own lets go by type, length and equality variable |
| Preprocessing.Preprocessor.DoExQuantify | src/preproc/do_exquantify.cc:43-62 | ends after a run of such steps, unsatisfiable only if the original is, no change only if the state is as before, and otherwise leaves no variable the guard lets go |
| Diameter.DepthIsDistance | src/preproc/do_diameter.cc:135-177 | when everything found has been looked at, a variable within k steps has a depth of at most k+1 |
| Diameter.ComputeDiameter | src/preproc/do_diameter.cc:135-177 | depths are one plus the distances around a last variable whose depth was left over, true distances exactly when that is harmless; the result is the greatest, true exactly when nothing was left over or both searches reach equally far |
| Diameter.DepthsRight | src/preproc/do_diameter.cc:135-177 | with a depth left over, the depths are true exactly when it is the true depth of the last variable and every other variable has a shortest path around it |
| Diameter.GreatestIsRadius | src/preproc/do_diameter.cc:163-177 | the greatest depth is one plus the greatest distance |
| Diameter.BypassedRadius | src/preproc/do_diameter.cc:135-177 | if every other variable has a shortest path around the last one, the greatest distance without it is the true greatest exactly when it is not farther away itself |
| Diameter.StaleDepthExample | src/preproc/do_diameter.cc:144 | on a chain of three variables a left-over depth changes the result from 3 to 1 |
| Ramsey.EdgeInjective | src/generator/rn.cc:123-126 | different edges get different numbers |
| Ramsey.NumberEdges | src/generator/rn.cc:123-126 | the pairs are numbered row by row from 1 |
| Ramsey.ChoicesExact | src/generator/rn.cc:83-99 | the recursion reaches exactly the increasing choices of k nodes that go on from those made |
| Ramsey.ChoicesOnce | src/generator/rn.cc:83-99 | and each of them once |
| Ramsey.ChoicesCount | src/generator/rn.cc:83-99 | there are as many as the binomial coefficient says |
| Ramsey.C | src/generator/rn.cc:104-114 | multiplying first and dividing after gives the binomial coefficient, every division exact |
| Ramsey.PrintClauses | src/generator/rn.cc:83-99 | one clause for each choice, with the edges of that clique, though all choices share one array |
| Ramsey.Rn | src/generator/rn.cc:116-142 | the header counts edges and clauses, and the models are the colourings without the two cliques |
| Ramsey.SatisfiableExactly | src/generator/rn.cc:54-57 | the clauses have a model exactly when the edges can be coloured with two colours so that neither clique has one colour |
| VanDerWaerden.ProgressionsClosed | src/generator/vanDerWaerden.cc:171-182 | the closed form counts the progressions: the steps that fit, each with the starts it leaves room for |
| VanDerWaerden.Header | src/generator/vanDerWaerden.cc:180-189 | the counts of the header are n*k variables, and clauses for n numbers, their pairs of buckets and the progressions of k buckets |
| VanDerWaerden.RowsFrom | src/generator/vanDerWaerden.cc:371-383 | one clause for every step from a start, up to the last that fits |
| VanDerWaerden.VanDerWaerden | src/generator/vanDerWaerden.cc:149-386 | the header counts exactly the clauses printed, whose models are the arrangements without a progression in one bucket |
| VanDerWaerden.SatisfiableExactly | src/generator/vanDerWaerden.cc:149-386 | the clauses have a model exactly when 1 to n can be put into k buckets without such a progression |

## Left out

- ThreeSat.PrintBDDToCNF3SAT: for several functions it states exactly when each is printed as itself, and that the models are right then; two wrong functions whose errors cancel are not ruled out, because one wrong function need not change the conjunction.
- CnfProcess.CnfProcess: clustering excludes three-literal clauses that repeat a variable; for these ExtraExactly and DoubledExample say which steps change the meaning. For clauses that double a literal only one direction holds always; whether other clauses make up for a match that is not right is not characterised.
- AndEqualSearch.FindAndBuildAndEquals: finds what the two-pointer scan finds; a group whose clauses include both signs of a variable may be passed over, which keeps the models. Marking independent variables is not modelled.
- XorSearch.FindAndBuildXors: clauses of 33 or more literals shift an int out of range; they are taken to be refused like those of 32.
- ClauseOrder.SortClauses: the C library's sort is modelled by its result, a sorted permutation, which is unique for this order.
- AndList.SortLhs: the same; cmp_lhs subtracts ints, which agrees with the order as long as literals stay below 2^31.
- ReencodeWalk.ReencodeLit: the stack grows as needed instead of holding 2 * num_ands entries, and the branch for inputs and latches without a code is not there, since all of them are coded first.
- AigerBinary.Reader.ReadDelta: a sixth byte below 8 is shifted by 35 bits, which C leaves undefined; the model says so instead of choosing a result.
- AigerBinary.ReadFile: symbols, comments and error texts of a binary file are not modelled, and its types only as the ones that fit (BinaryCheck); a file whose literals leave 32 bits is set apart.
- AigerBinary.WriteBinary: symbols and comments are not written.
- AigerAscii.ReadAscii: comments are not read; a file that has some is set apart, like one with a maximal variable from 2^31 on and one where an assertion of the symbol reader fails. Error texts and line numbers are not modelled.
- Diameter.ComputeDiameter: only the search; the statistics around it in Do_Diameter are left out, because they add sums only.
- Preprocessing.Preprocessor.ExQuantifyAnd: when the user interrupts is an input, and without an interrupt the pass is complete; Ea_repeat, garbage collection and progress output are left out.
- Preprocessing.Preprocessor.DoExQuantify: the type a rebuilt function gets is a parameter, any function of the BDD, because most tests of findandset_fnType are outside the model; type, length and equality variable are state and the guard on them is modelled.
- OccurrenceIndex.Formula.RebuildBDDx: inferences and the Gaussian elimination table are taken to be switched off, and repeat flags are not kept.
- QuineMcCluskey.Resolve: the linked lists of records are sequences, with records deleted by taking them out; a cursor is an index.
- CnfOutput.PrintBDDToCNFQM: numbers are printed instead of symbol names, and the table of names and the list of independent variables are left out.
- CnfOutput.ClassifyOne: the tests for plain OR, AND and XOR functions that come first, and for minimum and maximum functions that come later, are not modelled.
- XorWriter.PrintXORFormat: the names of variables are given as numbers, any list without repetition; symbol tables are not read or printed.
- XorScanner.Scanner.GetNextSymbol: initial-branch lists are an error here, not read.
- XorFormat.XorLoop: the header line is taken as read; initial-branch lists, the variable marks of line 597 on and the 20-character digit buffer are left out, and names are entered into the symbol table after an equation is scanned instead of during it.
- Ramsey.Rn: int overflow in the counts and the size of the arrays (100) are not modelled; array bounds are preconditions.
- VanDerWaerden.VanDerWaerden: only the branch for plain CNF; the other formula types, int overflow and p below 2, where the step count divides by zero, are left out. Without a bucket (k = 0) the variables printed exceed the header, and the models are not stated.
- The 32-bit limits on the table size 1 << n in the Quine–McCluskey code and on the number of variables everywhere; allocation and its failure.
- Reading CNF, DNF and BDD files, symbol tables, progress output and temporary files: no logic of interest.
- The BDD hash table, its caches and garbage collection: diagrams are values, equality of pointers is equality of values by Bdd.Canonicity.
