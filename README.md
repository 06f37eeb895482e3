# Iterated tabu search for maximum diversity, and greedy clustering selection

This project models two programs of a maximum-diversity repository and
proves properties about them.

**ITS** is Palubeckis' iterated tabu search for the bounded maximum
diversity problem. Given a symmetric real weight matrix `w` of order n and
bounds `b1 <= b2`, it looks for a vertex set S with `b1 <= |S| <= b2` that
maximises the sum of `w[i][j]` over the pairs `i < j` in S.

- **Start.** A random set for large instances, and a greedy steepest-ascent
  construction over a fractional relaxation for small ones.
- **Search.** A tabu search alternates with perturbations until the clock
  runs out, followed by a local search after every improvement.
- **Moves.** Adding a vertex, removing one, and exchanging a member for a
  non-member. Tabu times apply to flipped vertices and to exchanged pairs.
- **Gains.** The engine keeps, for every vertex j, the gain
  `cl[j] = sum of w[i][j] over members i != j` up to date incrementally.
  The model proves that these incremental updates keep every gain exact
  and keep the tracked value equal to the objective.

**rmcrag** chooses k of p clusterings greedily.

- **Cost.** A set S of clustering labels is scored by the mean of the
  pairwise weights inside S (`ganmi`), plus their mean squared deviation
  from that mean (`gvnmi`), plus the number of members still missing
  (`k - |S|`).
- **Queue.** Every single label is first extended by its best partner.
  Then the set of largest cost is repeatedly taken from a priority queue,
  extended by its best label and put back, until the set on top has k
  members.

Modelling choices:

| source | model |
|---|---|
| vertex indices, 1-based (entries `psol + i`) | 0-based |
| `Solution` record array | `array<Solution>` of records |
| weight matrix (of doubles) | `seq<seq<real>>` of exact reals |
| tabu matrix | `array2<int>` |
| tabu pair list (`vert1`/`vert2`) | two arrays and a length |
| random generator (Lehmer generator, `random`) | class `Rng.Generator` updating its seed |
| wall clock | an iteration budget |
| `std::set<int>` of labels | strictly increasing `seq<int>` |
| priority queue of rmcrag | sequence from which a maximum-cost element is taken |
| `binomial_coefficient` | Pascal's recurrence, proved equal to the multiplicative loop |

## Model

| member | source | states |
|---|---|---|
| Rng.Generator.constructor | its/ITS.cpp:660-661 | a generator starts at the seed it is given |
| Rng.Generator.Random | its/ITS.cpp:74-80 | one draw advances the seed to `16807 * s mod (2^31 - 1)`; the seed stays in [0, Coef) and the value is in [0, 1) |
| Rng.Generator.Pick | its/ITS.cpp:115 | one draw advances the seed to s' and picks the index `s' * k div 2^31`, the truncated `random * k`, which lies in [0, k) for k > 0 and is 0 for k = 0 |
| Rng.PickIsDiv | its/ITS.cpp:74-80 | the truncated product `random * k` equals the integer quotient `s * k / (Coef + 1)`, which is below k |
| Rng.NextRange | its/ITS.cpp:76-78 | every new seed lies in [0, Coef) |
| Rng.ValueRange | its/ITS.cpp:79 | a seed in range gives a value in [0, 1) |
| Rng.IterAdd | its/ITS.cpp:74-80 | a + b draws from s reach the same seed as b draws after a draws |
| Construction.RandomStart | its/ITS.cpp:110-135 | the random start draws the size `b1 + s' * (b2 - b1 + 1) div 2^31` from the first new seed s', so it lies between b1 and b2; the set is 0/1 of that size, its returned value is the objective of that set, it uses clSize + 1 draws and it touches only `sol` and `t` |
| Construction.ResetSlots | its/ITS.cpp:117-120 | every vertex leaves the set and slot v holds vertex v |
| Construction.ChooseVertices | its/ITS.cpp:121-126 | after clSize draws exactly clSize distinct vertices are chosen, and the slots from clSize on still hold the unchosen vertices |
| Construction.ChooseOne | its/ITS.cpp:122-125 | one partial Fisher-Yates step draws slot `r = i + s' * (n - i) div 2^31`, puts the vertex kept in slot r into the set, and keeps the invariant that the first i slots were chosen and the rest hold distinct unchosen vertices |
| Construction.StepCount | its/ITS.cpp:124 | adding a non-member raises the size by one and keeps the set 0/1 |
| Evaluation.SetValue | its/ITS.cpp:127-134 | the double loop over pairs of members returns the objective of the set |
| Evaluation.SetSizeAndValue | its/ITS.cpp:761-768 | the recheck loop returns the size and the objective of the set |
| Steepest.ResetGains | its/ITS.cpp:153-157 | every vertex becomes undecided with both relaxation sums zero, and nothing else changes |
| Steepest.AddPair | its/ITS.cpp:160-162 | one pair of the all-pairs scan adds its weight to the sums of both ends |
| Steepest.PairScan | its/ITS.cpp:158-163 | the scan computes the total of all pair weights, and every vertex's `sf` is its full row sum |
| Steepest.StartRelax | its/ITS.cpp:164 | scaling by q * q gives the relaxation of the all-undecided assignment |
| Steepest.StartState | its/ITS.cpp:148-164 | after initialisation the greedy invariant holds with f the relaxation value |
| Steepest.GreedyInit | its/ITS.cpp:148-164 | initialisation establishes the main-loop invariant at step 0 with no vertex decided |
| Steepest.Scan | its/ITS.cpp:166-201 | the scan finds no vertex exactly when all are decided; otherwise it returns an undecided vertex and a value whose improvement is at least that of every undecided vertex and value; ties consume random draws (which tie wins is not stated, see Left out) |
| Steepest.SteepestChoice | its/ITS.cpp:165-202 | committing the chosen vertex changes the relaxation by exactly the chosen improvement, and no other single commitment does better |
| Steepest.CommitKeeps | its/ITS.cpp:202-216 | committing vertex k to val and updating the sums of the undecided vertices keeps the greedy invariant, with f increased by the improvement |
| Steepest.GreedyStep | its/ITS.cpp:165-216 | one greedy step decides one undecided vertex, keeps the invariant, and no alternative single decision would give a larger relaxation |
| Steepest.MainStep | its/ITS.cpp:165-224 | one step of the main loop keeps the invariant and counts the decided vertex in m0 or m1 |
| Steepest.StepTallies | its/ITS.cpp:204-209 | deciding one undecided vertex moves one count from undecided to its value |
| Steepest.FixNext | its/ITS.cpp:230-239 | fixing the next undecided vertex during completion keeps the invariant |
| Steepest.FillStep | its/ITS.cpp:227-240 | one step of the completion loop keeps the fill invariant |
| Steepest.FillTallies | its/ITS.cpp:233-234 | filling one vertex moves one count from undecided to the fill value |
| Steepest.Complete | its/ITS.cpp:226-258 | completion sets every undecided vertex to the fill value and counts the added vertices |
| Steepest.Filled | its/ITS.cpp:226-258 | every undecided entry takes the fill value and the others keep theirs |
| Steepest.FillRest | its/ITS.cpp:226-258 | after the completion every vertex is decided, the set size is counted, and it is m1 when the upper bound stopped the loop or n - m0 when the lower bound did |
| Steepest.EndValue | its/ITS.cpp:259-261 | once all vertices are decided, dividing the relaxation twice by n gives the objective of the set |
| Steepest.AllDecided | its/ITS.cpp:259-268 | a fully decided assignment is 0/1 |
| Steepest.StartTallies | its/ITS.cpp:153-157 | at the start all vertices are undecided |
| Steepest.SteepestAscent | its/ITS.cpp:137-275 | the greedy start returns a 0/1 set with its size and objective, the discrepancy check never fires, and with 0 < b2 and b1 < n the size lies between the bounds |
| Greedy.ImprIsDelta | its/ITS.cpp:171-187 | `impr0` and `impr1` are the change of the relaxation coefficient times the vertex's relaxed gain |
| Greedy.ImprIsChange | its/ITS.cpp:171-187 | deciding vertex i to v changes the relaxation by exactly the improvement the scan computes |
| Greedy.ImprBest | its/ITS.cpp:173-187 | of the two values of an undecided vertex at least one has a nonnegative improvement |
| Greedy.RelaxUpdate | its/ITS.cpp:203 | deciding a vertex replaces its coefficient q by the coefficient of its value |
| Greedy.RelaxSplit | its/ITS.cpp:171-172 | the relaxation vector is q times the undecided indicator plus n times the member indicator |
| Greedy.DecidedKeepsGains | its/ITS.cpp:210-216 | the sum updates after a decision keep `sf` and `s1` equal to the undecided and member row sums |
| Greedy.Decide | its/ITS.cpp:203-216 | the decision and the sum updates satisfy the step description that keeps the gains |
| Weights.QuadUpdate | its/ITS.cpp:202 | changing one coefficient changes the quadratic form by the difference times the vertex's linear term |
| Weights.QuadScale | its/ITS.cpp:164 | scaling the coefficients by c scales the quadratic form by c squared |
| Weights.LinComb | its/ITS.cpp:171-172 | the linear term is linear in the coefficient vector |
| Weights.PairAccEnd | its/ITS.cpp:158-163 | the row-major pair scan accumulates the full row sum for every vertex |
| Solutions.FlipValue | its/ITS.cpp:379-393 | flipping vertex k changes the objective by its gain (added) or by minus its gain (removed) |
| Solutions.FlipGain | its/ITS.cpp:380-390 | flipping k changes the gain of every other vertex j by plus or minus `w[j][k]` |
| Solutions.SwapValue | its/ITS.cpp:394-406 | exchanging member k for non-member m changes the objective by `cl[m] - cl[k] - w[k][m]` |
| Solutions.SwapGain | its/ITS.cpp:395-400 | the exchange changes every gain by `w[j][m] - w[j][k]` (for j outside {k, m}) |
| Solutions.TallyUpdate | its/ITS.cpp:392 | overwriting one entry changes the count of a value by the entries lost and gained |
| Solutions.TallyZero | its/ITS.cpp:287-288 | a value has count zero exactly when no entry holds it |
| Solutions.TallySplit | its/ITS.cpp:153-209 | the undecided, out and in counts add up to n |
| Solutions.GainsKept | its/ITS.cpp:287-288 | changing only fields other than `sol` and `cl` keeps the gains exact |
| Solutions.OthersBest | its/ITS.cpp:571-595 | a move that changes only `sol` and `cl` keeps the best set and the tabu times |
| Solutions.TimesOnly | its/ITS.cpp:606-608 | changing only the tabu times keeps the set, the best set and the gains |
| Solutions.PairSumBound | its/ITS.cpp:418-481 | the objective of any set is at most the sum of the absolute pair weights, which bounds the climb of the local search |
| Moves.ShiftForFlip | its/ITS.cpp:386-388 | the gain loop of a flip adds `w[i][k]` to every other gain when k joins, and subtracts it when k leaves |
| Moves.Flip | its/ITS.cpp:379-391 | a flip toggles exactly vertex k and keeps every gain exact |
| Moves.FlippedKeepsGains | its/ITS.cpp:379-391 | after a flip with its gain updates every gain is exact again, and the objective moves by the flip gain |
| Moves.FlippedSols | its/ITS.cpp:391 | the flip changes only the membership of k |
| Moves.FlippedGains | its/ITS.cpp:380-390 | the updated gains match the new set |
| Moves.FlippedGainAt | its/ITS.cpp:382-388 | one updated gain matches the new set |
| Moves.ShiftForSwap | its/ITS.cpp:395-400 | the gain loop of an exchange subtracts `w[i][k]` and adds `w[i][m]` at every vertex i other than k and m respectively |
| Moves.Swap | its/ITS.cpp:394-403 | an exchange moves k out and m in and keeps every gain exact |
| Moves.SwappedKeepsGains | its/ITS.cpp:394-403 | after an exchange with its gain updates every gain is exact, and the objective moves by the exchange gain |
| Moves.SwappedSols | its/ITS.cpp:401-402 | the exchange changes only the memberships of k and m |
| Moves.SwappedGains | its/ITS.cpp:395-400 | the updated gains match the new set |
| Moves.SwappedGainAt | its/ITS.cpp:396-399 | one updated gain matches the new set |
| Moves.FlipCount | its/ITS.cpp:384-389 | a flip keeps the set 0/1 and changes its size by +1 or -1 |
| Moves.SwapCount | its/ITS.cpp:401-402 | an exchange keeps the size |
| Moves.FlipMove | its/ITS.cpp:571-584 | a tracked flip keeps the size counter and the gains exact, and raises the objective by the returned gain |
| Moves.SwapMove | its/ITS.cpp:585-594 | a tracked exchange keeps the gains exact, and raises the objective by `cl[m] - cl[k] - w[k][m]` |
| Local.HeadroomDrop | its/ITS.cpp:418-481 | a move gaining more than the tolerance lowers the number of tolerance steps between the objective and that bound, which stays nonnegative, so the repeat loop terminates |
| Local.AddPass | its/ITS.cpp:420-437 | the addition pass only raises the objective, by the returned change, and stays within b2; when it adds nothing, no non-member has a gain above the tolerance |
| Local.RemovePass | its/ITS.cpp:438-455 | the removal pass stays at or above b1 and raises the objective by the change; when it removes nothing, no member has a gain below minus the tolerance |
| Local.SwapRow | its/ITS.cpp:457-479 | the exchange scan of one member stops at the first exchange gaining more than the tolerance, or leaves everything unchanged with no such exchange |
| Local.SwapPass | its/ITS.cpp:456-480 | the exchange pass raises the objective by the change; when nothing moves, no exchange gains more than the tolerance |
| Local.Round | its/ITS.cpp:419-480 | one round keeps the gains and the bounds, and when it moves nothing the set is locally optimal |
| Local.LocalSearch | its/ITS.cpp:411-483 | the local search returns the exact objective change (0, or more than the tolerance), keeps the bounds and the gains, and ends at a local optimum: no addition, removal or exchange allowed by the bounds gains more than the tolerance |
| Perturb.ListMin | its/ITS.cpp:310-316 | the rescan finds the first entry of smallest change |
| Perturb.Offer | its/ITS.cpp:297-317 | offering a move appends it while the list has room, replaces the minimum when it is larger, keeps the minimum known, and every move ever offered is either listed or no better than every listed one |
| Perturb.FillMinAsWritten | its/ITS.cpp:292-305 | the program's running minimum starts at 30000 with no index and has no index while every listed change is at least 30000 |
| Perturb.FillMinAgrees | its/ITS.cpp:292-305 | while every change is below 30000, the program's running minimum is the list minimum |
| Perturb.UnassignedMin | its/ITS.cpp:292-311 | a full list of five entries (LIST_SIZE) with changes 30000 to 30004 leaves the program's minimum index unassigned, while the corrected list keeps index 0 |
| Perturb.OfferFlips | its/ITS.cpp:293-344 | scanning the unmoved vertices of one side offers every allowed flip, and each of them is then accounted for by the list |
| Perturb.OfferSwapRow | its/ITS.cpp:349-374 | scanning the non-members for one member offers every unmoved exchange with it |
| Perturb.OfferSwaps | its/ITS.cpp:345-375 | at a size bound every unmoved member/non-member exchange is accounted for |
| Perturb.Collect | its/ITS.cpp:291-375 | the candidate list holds only allowed moves with their true changes, has at most LIST_SIZE entries, and every allowed move is listed or no better than every listed one |
| Perturb.EmptyList | its/ITS.cpp:376 | an empty list means no perturbation move is allowed |
| Perturb.Vals | its/ITS.cpp:392 | the marks of the records |
| Perturb.Mark | its/ITS.cpp:392 | marking sets the `val` of the moved vertices to 1 and nothing else |
| Perturb.MarkedVals | its/ITS.cpp:392-403 | marking after a move keeps the set and the gains and records the moved vertices |
| Perturb.MarkFlip | its/ITS.cpp:379-393 | the flip of a perturbation keeps the gains, changes the size by one, adds the flip gain and marks exactly the flipped vertex |
| Perturb.MarkSwap | its/ITS.cpp:394-404 | the exchange of a perturbation keeps the gains and the size, adds the exchange gain and marks both vertices |
| Perturb.MarkMove | its/ITS.cpp:377-405 | a listed move is made with its gains kept, and the objective changes by the listed change |
| Perturb.MakeCand | its/ITS.cpp:376-406 | making the chosen candidate keeps the tracked value equal to the objective, stays within the bounds, and marks one or two more vertices |
| Perturb.PerturbStep | its/ITS.cpp:290-407 | one perturbation step draws once and makes entry `s' * count div 2^31` of the list of allowed moves (the program's `random * cand_count + 1` in 1-based entries), with its listed change, and marks it; an empty list is reported (`empty`) and changes nothing, the corrected form of the stale replay (see Findings) |
| Perturb.ClearMarks | its/ITS.cpp:287-288 | all marks are cleared |
| Perturb.ReplayAsWritten | its/ITS.cpp:376-406 | the program's move code applied to a list record without checking it: a flip of `cand1`, or `cand1` out and `cand2` in, with every gain shifted as for that move |
| Perturb.Three | its/ITS.cpp:386-404 | the gains and the objective of a three-vertex instance written out |
| Perturb.StaleFirst | its/ITS.cpp:345-406 | on three vertices with b1 = b2 = 2 and the set {0, 1}, list entry 0 is the exchange (0, 2) with its true change 2, and making it keeps the gains exact and adds that change to the value |
| Perturb.StaleSecond | its/ITS.cpp:290-406 | after that exchange no perturbation move is allowed, yet replaying entry 0 leaves the set unchanged, makes the gains inexact, and adds the stale change to the value |
| Perturb.StaleReplay | its/ITS.cpp:376-406 | the two steps together: the program's first step is correct and its second corrupts the tracked state |
| Perturb.GetSolution | its/ITS.cpp:277-409 | the perturbation keeps the gains, the bounds and the value, never moves a vertex twice, moves at least `count` and at most `count + 1` vertices, and ends early only when no allowed move remains (the corrected form of the stale replay) |
| Tabu.ScanPair | its/ITS.cpp:504-511 | one pair step of the gain rebuild leaves every membership unchanged |
| Tabu.Scanned | its/ITS.cpp:503-511 | the row-major gain rebuild up to pair (i, j) leaves every membership unchanged |
| Tabu.ScannedNext | its/ITS.cpp:503-511 | the rebuild to (i, j + 1) is the rebuild to (i, j) followed by that pair |
| Tabu.ScannedGain | its/ITS.cpp:503-511 | after the rebuild up to (i, j), every record holds the partial sum of member weights over the pairs scanned so far |
| Tabu.ExpectedStep | its/ITS.cpp:507-510 | one more pair adds `w[i][j]` to the end whose partner is a member |
| Tabu.PairStep | its/ITS.cpp:505-510 | one pair step clears both tabu cells and updates both ends' gains |
| Tabu.ScanRow | its/ITS.cpp:504-511 | one row of the rebuild moves the scan to the next row |
| Tabu.ResetRecords | its/ITS.cpp:499-502 | every tabu time and gain is reset to zero |
| Tabu.GainScan | its/ITS.cpp:499-511 | the rebuild makes every gain exact for the current set and clears every tabu cell |
| Tabu.InitGains | its/ITS.cpp:499-511 | at the start of a tabu search all vertices are free, every gain is exact and every off-diagonal tabu cell is zero |
| Tabu.FlipScan | its/ITS.cpp:516-547 | a flip scan either stops at the first free vertex whose flip beats the best value by more than the tolerance, or returns a best free flip, no earlier flip aspiring |
| Tabu.SwapRow | its/ITS.cpp:552-569 | the exchange scan of one member either stops at the first aspiring non-tabu exchange, or keeps the best exchange seen |
| Tabu.SwapsBelowMono | its/ITS.cpp:564-568 | a larger running best still bounds every exchange already scanned |
| Tabu.ScanStep | its/ITS.cpp:549-570 | one member step of the exchange scan keeps the scan invariant |
| Tabu.SwapScan | its/ITS.cpp:548-570 | the exchange scan returns the first aspiring non-tabu exchange of the last member row that has one (the `break` leaves only the inner loop), or a best non-tabu exchange with none aspiring |
| Tabu.CombineScans | its/ITS.cpp:512-570 | when no scan aspires, the selected move is at least as good as every admissible move |
| Tabu.Select | its/ITS.cpp:513-570 | the selected move is admissible with its true gain; imp > 0 exactly for a move beating the best value by more than the tolerance; otherwise the move is best among admissible moves, and no move is found only when none is admissible |
| Tabu.SaveBest | its/ITS.cpp:599-600 | the current set becomes the best set |
| Tabu.TakeMove | its/ITS.cpp:571-595 | the selected flip or exchange is made, with gains, size and value kept |
| Tabu.Climb | its/ITS.cpp:596-605 | after an aspiring move the local search only raises the value and its local optimum becomes the new best set |
| Tabu.ApplyMove | its/ITS.cpp:571-605 | a move keeps the search state; a non-aspiring move keeps the best set and value; an aspiring one raises the best value by more than the tolerance to a local optimum; the current value never exceeds the best by more than the tolerance |
| Tabu.Aged | its/ITS.cpp:606-626 | every tabu time drops by one towards zero, and a flipped vertex gets T1 |
| Tabu.TickVertices | its/ITS.cpp:606-608 | every positive tabu time drops by one |
| Tabu.AgeVertices | its/ITS.cpp:606-608 | the vertex ageing and the new vertex tabu give exactly the aged records |
| Tabu.AgedKeeps | its/ITS.cpp:606-626 | ageing changes only tabu times, which stay within [0, T1] |
| Tabu.AgeList | its/ITS.cpp:609-633 | the pair list loses its expired head and gets the new exchange at its end with time T2, staying valid |
| Tabu.AgeTabu | its/ITS.cpp:606-633 | ageing gives the aged records and the shifted pair list, and marks the new exchange tabu for T2 |
| Tabu.MoveAndAge | its/ITS.cpp:571-633 | a move followed by ageing keeps the search state and the tabu list valid, and keeps or strictly improves the best set |
| Tabu.TabuStep | its/ITS.cpp:513-633 | one iteration either finds no admissible move and changes nothing, or keeps the search state, strictly improves or keeps the best set, and keeps the current value within the tolerance of the best |
| Tabu.TabuSearch | its/ITS.cpp:485-642 | the tabu search keeps the 0/1 current and best sets within the bounds with their exact values, never lowers the best value, and consumes the clock budget |
| TabuList.ListDisjoint | its/ITS.cpp:609-633 | no pair is listed twice, in either orientation |
| TabuList.ListSpan | its/ITS.cpp:736-737 | a valid list has at most T2 entries, so it fits the `vert1`/`vert2` arrays of length TABU_TIME2 + 1 |
| TabuList.NotListed | its/ITS.cpp:553 | a pair whose tabu cell is zero is not in the list |
| TabuList.CountStep | its/ITS.cpp:611-614 | one count-down step lowers both cells of one pair |
| TabuList.CountPass | its/ITS.cpp:610-617 | the count-down lowers every listed pair's cells by one and finds the expired entry, which can only be the head |
| TabuList.CountDown | its/ITS.cpp:609-617 | the count-down lowers every listed pair's cells and no other cell, with the old times strictly increasing along the list |
| TabuList.Snapshot | its/ITS.cpp:609-617 | the list's pairs are distinct and proper, and their times strictly increase |
| TabuList.ListedTimes | its/ITS.cpp:609-633 | the times of a valid list lie in [1, T] and strictly increase |
| TabuList.CountedEnd | its/ITS.cpp:609-617 | after the pass each listed pair's cells are one lower and other cells are unchanged |
| TabuList.Drop | its/ITS.cpp:618-624 | removing entry m shifts the later entries down by one |
| TabuList.Expire | its/ITS.cpp:609-624 | the list minus its expired head is valid with times below T |
| TabuList.ExpireValid | its/ITS.cpp:609-624 | the lowered times without the expired head form a valid list of at most T - 1 entries |
| TabuList.ListedOf | its/ITS.cpp:609-624 | lowered times of at least 1 and strictly increasing give a valid list |
| TabuList.NotListedSuffix | its/ITS.cpp:618-624 | a pair outside the list stays outside once the head is dropped |
| TabuList.MarkPair | its/ITS.cpp:631-632 | the new pair gets time T in both orientations, and the rest of the list stays valid |
| TabuList.Append | its/ITS.cpp:628-630 | the new pair is appended at the end of the list |
| TabuList.Push | its/ITS.cpp:627-633 | appending the new exchange with time T keeps the list valid |
| TabuList.PushValid | its/ITS.cpp:627-633 | a valid list of times below T extended by a pair of time T is valid |
| Its.DeriveParameters | its/ITS.cpp:739-747 | T1 is the smaller of TABU_TIME1 and n / TABU_COEF, the iteration bound is the larger of the fixed bound and n times the coefficient, and the perturbation count is n / 10 rounded down |
| Its.LastWeightSymmetric | its/ITS.cpp:749-755 | the weight filled for (p, q) is the one filled for (q, p) |
| Its.LastWeightOnce | its/ITS.cpp:749-755 | a pair that appears once in the edge list gets that edge's weight |
| Its.SymmetricFill | its/ITS.cpp:749-755 | after the fill every cell holds the weight of the last edge naming its pair in either order, or its old value |
| Its.ToMatrix | its/ITS.cpp:753-754 | the filled array read as a square matrix |
| Its.FillSymmetric | its/ITS.cpp:749-755 | filling a zeroed array gives a symmetric matrix |
| Its.PerturbLength | its/ITS.cpp:683-688 | the perturbation length is `count` when at most the minimum, and otherwise `minimum + s' * (count - minimum + 1) div 2^31` for the new seed s', a number in [minimum, count] |
| Its.Start | its/ITS.cpp:665-675 | the start is a 0/1 set within the bounds with its value, recorded as the best set |
| Its.Restart | its/ITS.cpp:682-694 | a perturbation followed by a tabu search, also when the perturbation ends early, keeps the search state, keeps or improves the best set, and consumes budget |
| Its.ItsInternal | its/ITS.cpp:644-698 | the engine returns the exact value of a 0/1 best set whose size lies between b1 and b2, and that value is at least the value of the start set, itself a 0/1 set within the bounds |
| Its.FinalRecheck | its/ITS.cpp:761-783 | the recheck computes the size and the value of the best set, and reports a discrepancy exactly when the engine's value is off by more than the tolerance |
| Its.Run | its/ITS.cpp:700-815 | over a whole run the recheck never reports a discrepancy, and the best set is 0/1 with size between b1 and b2 |
| Its.TakeTime | its/ITS.cpp:91-107 | elapsed seconds split into hours, minutes below 60 and seconds below 60 that add back to the total |
| Binomial.BinomAbove | rmcrag/rmcrag.cpp:158-160 | C(n, k) is 0 for k > n |
| Binomial.BinomDiag | rmcrag/rmcrag.cpp:155-157 | C(n, n) is 1 |
| Binomial.BinomOne | rmcrag/rmcrag.cpp:164-166 | C(n, 1) is n |
| Binomial.BinomSym | rmcrag/rmcrag.cpp:161-163 | C(n, k) equals C(n, n - k) |
| Binomial.BinomAbsorb | rmcrag/rmcrag.cpp:168-172 | i * C(a, i) equals a * C(a - 1, i - 1), so every multiply-then-divide step of the loop is exact |
| Binomial.BinomTwo | rmcrag/rmcrag.cpp:106 | 2 * C(p, 2) equals p (p - 1) |
| Binomial.ExactDiv | rmcrag/rmcrag.cpp:171 | the division of the loop loses nothing |
| Binomial.BinomialCoefficient | rmcrag/rmcrag.cpp:151-174 | the special cases and the multiplicative loop return Pascal's C(n, k) for all n, k |
| Rmcrag.InsertProps | rmcrag/rmcrag.cpp:74-77 | inserting a label into an ordered set keeps it ordered, adds exactly that label, and grows it unless the label was present |
| Rmcrag.InsertInRange | rmcrag/rmcrag.cpp:77 | inserting an in-range label keeps the set ordered and in range |
| Rmcrag.PairsPositive | rmcrag/rmcrag.cpp:106 | for p >= 2 the pair count is positive and is p (p - 1) / 2 |
| Rmcrag.RowConst | rmcrag/rmcrag.cpp:111-119 | with constant weight c a row sum is c times its length and has no deviation |
| Rmcrag.PairConst | rmcrag/rmcrag.cpp:111-119 | with constant weight c the pair total is c times the pair count and the deviation is 0 |
| Rmcrag.ConstantScores | rmcrag/rmcrag.cpp:102-149 | with constant weight c the mean weight is c and the spread is 0 |
| Rmcrag.DevNonneg | rmcrag/rmcrag.cpp:135-143 | the sum of squared deviations is nonnegative |
| Rmcrag.SpreadNonneg | rmcrag/rmcrag.cpp:128-149 | the spread is nonnegative |
| Rmcrag.PairLoop | rmcrag/rmcrag.cpp:111-119 | the double loop sums the weights of all pairs of members |
| Rmcrag.MeanRow | rmcrag/rmcrag.cpp:113-118 | the inner loop adds the weights from one label to the labels above it |
| Rmcrag.Ganmi | rmcrag/rmcrag.cpp:102-126 | for two or more labels the result is the mean pair weight; with fewer the program stops (halt) |
| Rmcrag.DevLoop | rmcrag/rmcrag.cpp:135-143 | the double loop sums the squared deviations of all pair weights from their mean |
| Rmcrag.SpreadRow | rmcrag/rmcrag.cpp:137-142 | the inner loop adds the squared deviations from the mean of the pairs from one label upwards |
| Rmcrag.Gvnmi | rmcrag/rmcrag.cpp:128-149 | for two or more labels the result is the mean squared deviation of the pair weights, which is nonnegative; with fewer the program stops |
| Rmcrag.Mvnmi | rmcrag/rmcrag.cpp:98-100 | the score is mean plus spread, and is never below the mean |
| Rmcrag.GetCost | rmcrag/rmcrag.cpp:93-96 | the cost is mean plus spread plus the signed number of missing members; a set larger than k costs less than its score |
| Rmcrag.CostWrap | rmcrag/rmcrag.cpp:94 | the program's unsigned `k - size` agrees with the signed cost while the set has at most k members, and adds 2^64 once it has more |
| Rmcrag.CostWrapExample | rmcrag/rmcrag.cpp:94 | for k = 1 and a pair of weight 1, the cost is 0 but the program computes 2^64 |
| Rmcrag.MaxIndex | rmcrag/rmcrag.cpp:83 | the queue top is an entry of largest cost |
| Rmcrag.ExtCosts | rmcrag/rmcrag.cpp:78-79 | the costs of the queued candidates |
| Rmcrag.Costs | rmcrag/rmcrag.cpp:193-200 | the costs of the queued elements |
| Rmcrag.CandInvSkip | rmcrag/rmcrag.cpp:71-72 | a label already in the initial set adds no candidate |
| Rmcrag.CandInvAdd | rmcrag/rmcrag.cpp:73-79 | a new label adds the candidate `initial + {label}` with its cost |
| Rmcrag.Consider | rmcrag/rmcrag.cpp:70-81 | one label of the candidate loop is skipped when it is already present, and otherwise queued with its cost; a one-member candidate stops the program inside the cost |
| Rmcrag.Candidates | rmcrag/rmcrag.cpp:70-81 | the candidate loop queues `initial + {c}` with its cost for every label c outside initial |
| Rmcrag.BestCandidate | rmcrag/rmcrag.cpp:83 | the chosen candidate costs at least as much as every extension of initial by one label |
| Rmcrag.Element.constructor | rmcrag/rmcrag.cpp:184 | a new element is empty with cost 0 |
| Rmcrag.Element.AppendTop | rmcrag/rmcrag.cpp:67-91 | the element becomes the best one-label extension of initial, with its cost recomputed; with no label left it is stuck, and with an empty initial set the program stops |
| Rmcrag.TotalLackAppend | rmcrag/rmcrag.cpp:198 | pushing a set adds its missing members to the total |
| Rmcrag.TotalLackRemove | rmcrag/rmcrag.cpp:199-200 | popping a set removes its missing members from the total |
| Rmcrag.Extensible | rmcrag/rmcrag.cpp:196-197 | under the program's arguments, a set below p members can still be extended |
| Rmcrag.Seed | rmcrag/rmcrag.cpp:184-187 | each single label i grows into a new well-formed pair containing i, unless no other label exists |
| Rmcrag.OtherLabel | rmcrag/rmcrag.cpp:183-187 | under the program's arguments every single label has another label to be paired with |
| Rmcrag.Seeds | rmcrag/rmcrag.cpp:183-189 | the first loop gives p distinct new well-formed pairs, the j-th containing j, and never gets stuck under the program's arguments |
| Rmcrag.FirstTop | rmcrag/rmcrag.cpp:193-194 | the first pop takes a seed of largest cost out of the queue |
| Rmcrag.ShapeRemove | rmcrag/rmcrag.cpp:199-200 | popping the top leaves the other elements distinct, with their sizes, and no costlier than the top |
| Rmcrag.Reselect | rmcrag/rmcrag.cpp:198-200 | pushing the top back and popping again takes an element of largest cost, keeps the queue's elements, and keeps the total of missing members |
| Rmcrag.Grow | rmcrag/rmcrag.cpp:197-200 | one turn extends the top by its best label, pops an element of largest cost, and lowers the total of missing members |
| Rmcrag.GrowUntil | rmcrag/rmcrag.cpp:196-201 | the second loop ends with a well-formed top of at least k members that costs at least as much as every other queued element, and never gets stuck under the program's arguments |
| Rmcrag.Rmcrag | rmcrag/rmcrag.cpp:179-204 | the selection returns a well-formed set of at least k labels whose cost is at least that of each of the other p - 1 queued sets; under the program's arguments (labels 0..p-1, k < p, p >= 2) it is never stuck |

## Left out

- File input and output of both programs, and the `exit` on a failed open, are not modelled. In particular the parsing of the edge list and the report lines of `ITS` (its/ITS.cpp:721-737, :769-815) are left out; Its.Run takes the edge list as a parameter.
- The `Results` record of `ITS` is not filled in; Its.Run returns the best set, its size and its value instead.
- The counters kept in `performance` (improvements, last improving start, starts) are not modelled, except that Its.ItsInternal returns the start count.
- The wall clock (`clock()` in `tabu_search` and `take_time`) is replaced by a budget of tabu iterations that runs down by one per iteration. Its.TakeTime takes the elapsed seconds as a parameter, and the millisecond slot `time_values[4]` (floating point) is not modelled.
- Floating-point arithmetic is exact real arithmetic throughout. Rounding, and the `float` truncation of the elapsed seconds, are not modelled. The tolerance 0.00001 is kept as a constant.
- `pow(x, 2)` of rmcrag is modelled as x * x.
- Steepest.Scan: the tie-breaking draws of the greedy start are made in the body, one per tie, in the program's order, but the contract states only that the result is some candidate of largest improvement. Which tied candidate the 1 / count rule selects is not in the contract.
- Undefined behaviour is modelled as a `stuck` result that stops the run without a state change. This covers the `(psol + -1)` access when `tabu_search` finds no move gaining more than NEG_LARGE = -1000000,. It also covers the top of an empty priority queue in rmcrag. The `exit` inside `ganmi`/`gvnmi` for fewer than two labels is the `halt` result.
- Tabu.TabuSearch: when every admissible move gains at most NEG_LARGE = -1000000, or none exists, the program indexes record -1, because the running best starts at NEG_LARGE and is replaced only by a strictly larger gain. The model ends the tabu search there with `stuck`, and Its.ItsInternal then stops the restarts.
- Steepest.SteepestAscent: the bounds `b1 <= size <= b2` are promised only when `0 < b2` and `b1 < n`, and Its.Start, Its.ItsInternal and Its.Run demand this for the greedy start. Outside that case the program can end outside the bounds, for example n = 2, b1 = b2 = 2 and a negative weight, where the lower-bound test `size - m0 == b1` never fires.
- Its.Start: requires `0 < b2` and `b1 < n` when n <= 200 (the greedy start), although the program also runs with `b1 == n` there; the bounds of the start are then not guaranteed (see Steepest.SteepestAscent), and the tabu search needs them.
- Its.Run: carries the same requirement, so with the `main` bounds b1 = b2 = 30 an instance of exactly 30 vertices is not covered (fewer than 30 break `b2 <= n`, which the program does not check either).
- TabuList.Expire and TabuList.Push: their contracts do not state that the tabu cells outside the list are unchanged. They state list validity and the list contents only. TabuList.CountDown does state the frame.
- Rmcrag.Rmcrag: the priority queue is a sequence from which an element of largest cost is taken. Among equal costs no particular order of `std::priority_queue` is modelled, and heap order is not modelled.
- Rmcrag.Rmcrag: the deletion of the heap elements of `appendTop` (rmcrag/rmcrag.cpp:86-90) is memory management and is not modelled.
- Binomial.BinomialCoefficient: the result is unbounded, so the `unsigned long` overflow test (`b < 0`, which cannot fire for an unsigned type) is not modelled.
- Rmcrag.GetCost: the model uses the signed difference `k - |S|`. The unsigned wrap-around of the program is modelled separately; see Findings.
- The command-line parsing and matrix loading of rmcrag's `main` are not modelled.
- Perturb.GetSolution: with an empty candidate list the program makes the move still stored in list record 1 (from the last step that listed one, zeros before any) and goes on. The model ends the perturbation early instead and goes on to the tabu search; see Findings. With main's bounds b1 = b2 = 30 and n = 31 this happens on the second step of every perturbation. The zeroed record of a list never filled (`cand1 = cand2 = 0`, record 0) has no counterpart in the model.
- Perturb.GetSolution: the corrected running minimum is used, which agrees with the program whenever every listed change is below 30000; see Findings.

## Findings

| source | as written | input that shows it | evidently intended | confidence | as-written member | corrected member |
|---|---|---|---|---|---|---|
| its/ITS.cpp:292-311 | the running minimum of the candidate list starts at `minval = 30000` and gets an index only when a change is below it, so `minind` is uninitialised or stale (it is declared outside the loop, at :282) when the list fills with changes of at least 30000 | a full list of LIST_SIZE = 5 entries whose changes are all >= 30000 (Perturb.UnassignedMin: changes 30000 to 30004) followed by a larger change, which is then written through the unset or stale `minind` | the index of the smallest listed change | not executed | Perturb.FillMinAsWritten | Perturb.Offer |
| rmcrag/rmcrag.cpp:94 | `k - clusterings.size()` is computed in unsigned 64-bit arithmetic, so a set with more than k members gets about 2^64 added to its cost | k = 1 and two clusterings with weight 1: the seed {0, 1} costs 2^64 instead of 0 (Rmcrag.CostWrapExample) | the signed number of missing members | not executed | Rmcrag.CostWrap | Rmcrag.GetCost |
| its/ITS.cpp:376-406 | with `cand_count = 0` the index is `random * 0 + 1 = 1`, so the step makes the move left in list record 1 by an earlier step, without checking that it is still allowed, and adds its stale change to the value | three vertices with b1 = b2 = 2 and set {0, 1}: the first step makes the exchange (0, 2), the second lists nothing and makes (0, 2) again, so the gains are no longer exact and the value is off by 2 (Perturb.StaleReplay); main's n = 31, b1 = b2 = 30 reaches the same empty list | the perturbation ends when no move is left and the tabu search follows | not executed | Perturb.ReplayAsWritten | Perturb.GetSolution |
