# COSMOS core: a verified model

This project models five state-carrying parts of the COSMOS flight-software libraries in Dafny and
proves what they promise, or states exactly when they keep the promise. Doubles are exact reals;
where the original would leave an infinity or a NaN, a method returns a flag `finite`.

Check it with `dafny verify dfyconfig.toml`.

## What is modelled

**The numeric kernel** (`libraries/math/mathlib.cpp`).
`Linear` is `multisolve`, the fraction-free solver without row exchange: it is defined exactly when
all leading blocks but the one that is one short of the whole matrix are regular, and then its
result is the only solution. `Poly` holds `evaluate_poly` and `polyfit` (the closed forms and the
Vandermonde branch), `LeastSquares` and `LsFitting` hold the `LsFit` window and its fit, and
`Derivatives` and `Estimators` the bank of sliding windows. One bound on the number of roots of a
polynomial serves the Vandermonde and the normal-equation matrices. `Series`, `GaussJacksonKernel`,
`GaussJacksonSeries`, `GaussJacksonMotion`, `GaussJacksonAxis`, `GaussJacksonAxes` and
`GaussJackson` build the integrator from its tables up to whole runs: the tables are power series in
the backward difference operator, their ordinate forms reproduce them, and the corrector and
predictor are exact on every polynomial motion of degree up to `order + 2` that solves the equation
of motion. `Numbers` has what several parts share. `Crc` is the 16-bit frame check sequence of
section C.2 of RFC 1662, without the final complement.

**Frame synchronisation** (`libraries/support/convertlib.cpp`). `FrameTree` has the eight position
frames and the tree of conversions between them, `AttitudePasses` the five attitude frames, and
`Frames` the mutually recursive functions over one location object. Conversions are uninterpreted
functions of the source components, the matrices of the time and the old destination components.
Every call terminates from every state; the measure is how far the inner frames lag behind the
newest pass.

**Elevation models** (`libraries/support/demlib.cpp`). `DemIndex` has the 200 by 400 cell index and
the search, `DemCache` the memory budget with oldest-first eviction and the pixel that is returned.

**The message ring** (`libraries/agent/agentclass.cpp`). `MessageRing` has one writer and one reader
whose atomic steps interleave in any way, with a history of what was written, passed and given;
`AgentLists` has the two lists of agents kept beside it.

**The command queue** (`libraries/support/command_queue.cpp`). `CommandQueue` has the walk that
erases as it goes, and traces of any passes, additions and deletions.

Clocks, time scales, ephemerides, the force function, conditions of events and file contents are
parameters.

## Where the code does not do what one might expect

- `evaluate_poly` gives zero for a constant polynomial (`Poly.EvaluatePoly`).
- `multisolve` cannot solve some regular systems (`Linear.RegularButUndefined`).
- `LsFit` ignores only a repetition of the last x, so a run can hold too few different x
  (`LsFitting.AlternatingRunIsUndefined`).
- Quaternions that are too close together for their distance to be seen are not mirrored
  (`LsFitting.TinyOpposites`); `LsFitting.NewestPair` says exactly when neighbours end up on
  different sides of the sphere.
- The binomial table fits 32-bit integers for orders up to 32 (`GaussJacksonKernel.BinomialsFit`);
  the rows of a step, which do not use its last row and column, are right for orders up to 33 and no
  further (`GaussJacksonMotion.StepRows`).
- `gauss_jackson_preset` clears its flag at every node, so only the last node decides whether it
  goes on. For a force that depends on the time alone, every node ends on the motion if and only if
  all accelerations were right before the call or the last node's were visibly wrong
  (`GaussJackson.GjInstance.Preset`; a concrete failure is `GaussJackson.StopsEarly`, and
  `GaussJackson.PresetFromZeros` says when a new instance is safe under constant acceleration).
- `pos_geos2geoc` checks the time of its destination instead of its source; synchronisation from the
  geographic frame succeeds if and only if that time is finite too (`Frames.Startable`, used by
  `Frames.Location.Synchronise`).
- `loc_update` handles positions first, and a newest position that can start takes all attitudes
  along. Another pass of the newest attitude reaches all attitudes if and only if that position
  cannot start and the time is fit all the same, or the attitude is the geocentric one; the
  topocentric one never does (`Frames.Location.LocUpdate`; a lost attitude is shown by
  `Frames.NewerAttitudeLost`).
- From the topocentric attitude the far body's attitude is left behind
  (`Frames.Location.SynchroniseAttitude`).
- A point in the slack around a model's box can be looked up in a cell that does not list the model
  (`DemIndex.SlackIsMissed`), and a cell lists only the first hundred models. The cell and a scan
  agree if and only if every model near the point is listed in the cell
  (`DemIndex.CellAgreesWithScan`), and they choose the same model if and only if the scan's is listed
  and the search of the cell ends there (`DemIndex.ChoiceAgreesWithScan`).
- The check of the latitude lets values up to pi through, and a point that no model matches makes the
  original look before the start of its list (`DemCache.Cache.PixelAt`).
- The memory budget of the elevation models grows by twice a model's size whenever a load leaves less
  room than that, so it does not limit the memory (`DemCache.Cache.LookAtEach`). It stays over
  every run of lookups if and only if it has room for all models that some lookup chooses and for any
  one of them twice more (`DemCache.Cache.Lookups` one way, `DemCache.Cache.LookLargestLast` and
  `DemCache.LargestLastExists` the other). Not every model counts: of three with one box and one size
  of pixels, no lookup chooses the middle one (`DemCache.MiddleIsUnused`).
- `map_dem_cache` with a negative number looks before the start of its list once nothing is loaded
  (`DemCache.Cache.Shrink`).
- A read at the head before any message reads a slot that was never written and then loses the
  first message (`MessageRing.HeadOfEmptyRing`); a reader exactly a lap behind sees nothing
  (`MessageRing.CheckSees`). Over any run, the reader has been given what was written since its last
  clearing or jump to the head if and only if every message was in its slot, and not yet written over,
  when it was fetched (`MessageRing.Fifo`, `MessageRing.FifoExactly`).
- An unconditional event runs once even when it is marked as repeating
  (`CommandQueue.OthersRunOnce`).

## Model

| member | source | states |
|---|---|---|
| `Linear.MultiSolve` | libraries/math/mathlib.cpp:900-946 | the result is free of divisions by zero exactly when every level of the elimination has a nonzero entry in its first column; then it satisfies every row of x*a = y and no other vector does |
| `Linear.SolutionIsUnique` | libraries/math/mathlib.cpp:900-946 | where the solver is defined, two solutions of a system are equal |
| `Linear.RegularReduces` | libraries/math/mathlib.cpp:914-921 | with a nonzero pivot, an elimination step keeps and reflects regularity |
| `Linear.DefinedIffLeadsRegular` | libraries/math/mathlib.cpp:912-944 | the solver is defined if and only if every leading block, except the one that is one short of the whole, is regular |
| `Linear.ZeroPivotOnlyInPairs` | libraries/math/mathlib.cpp:929-944 | a zero in the pivot position can be survived only in a system of two unknowns, by the other row |
| `Linear.RegularButUndefined` | libraries/math/mathlib.cpp:912-944 | a regular system of three unknowns on which the solver divides by zero |
| `Linear.LargestLead` | libraries/math/mathlib.cpp:929-939 | the row chosen for the final division has the largest leading entry in size |
| `Poly.EvaluatePoly` | libraries/math/mathlib.cpp:955-972 | Horner's rule gives the value of the polynomial for every number of coefficients but one, where the answer is zero |
| `Poly.PolyFit` | libraries/math/mathlib.cpp:1310-1372 | for any number of points: the result is finite exactly when all x differ, and then it is the one polynomial of its length through all points |
| `Poly.FitVandermonde` | libraries/math/mathlib.cpp:1343-1368 | the general branch is defined exactly for distinct x and interpolates |
| `Poly.VandermondeDefined` | libraries/math/mathlib.cpp:1343-1368 | `multisolve` survives the Vandermonde matrix if and only if the points are distinct |
| `Poly.LineInterpolates` | libraries/math/mathlib.cpp:1323-1326 | the closed form for two points passes through them |
| `Poly.ParabolaInterpolates` | libraries/math/mathlib.cpp:1327-1331 | the closed form for three distinct points passes through them |
| `Poly.CubicInterpolates` | libraries/math/mathlib.cpp:1332-1342 | the closed form for four distinct points passes through them |
| `Poly.CubicDenominatorNonzero` | libraries/math/mathlib.cpp:1336-1338 | the large denominator is zero exactly when two of the four points coincide |
| `Poly.InterpolantIsUnique` | libraries/math/mathlib.cpp:1310-1372 | two polynomials of the same length through the same distinct points are equal |
| `LeastSquares.NormalEquationsAreOptimal` | libraries/math/mathlib.cpp:2451-2464 | a solution of the normal equations has no larger a sum of squared residuals than any polynomial of its length, and one that does as well agrees with it on all points |
| `LeastSquares.GramRegular` | libraries/math/mathlib.cpp:2454-2462 | the normal-equation matrix is regular if and only if there are at least as many different points as coefficients |
| `LeastSquares.GramDefined` | libraries/math/mathlib.cpp:2454-2464 | `multisolve` survives it under exactly the same condition |
| `LsFitting.LsFit.constructor` | libraries/math/mathlib.cpp:2243-2265 | an empty window, with the defaults for a zero order and a zero size, the latter in 16 bits |
| `LsFitting.LsFit.Update` | libraries/math/mathlib.cpp:2368-2404 | the new window, and the invariant that once more than `order` samples are held there is a fit on every axis, finite exactly when more than `order` different x are held, and then the best; for any order whose fit ends |
| `LsFitting.LsFit.Fit` | libraries/math/mathlib.cpp:2410-2467 | the coefficients of every axis leave the smallest sum of squared residuals of all polynomials of degree `order`, about whatever origin, whenever more than `order` different x are held |
| `LsFitting.LsFit.FitAxis` | libraries/math/mathlib.cpp:2433-2466 | the same for one axis, with the exact condition for being defined |
| `LsFitting.LsFit.Eval` | libraries/math/mathlib.cpp:2507-2518 | the fitted polynomial at `x - basex`, and zero while there are too few samples |
| `LsFitting.WindowHoldsLatest` | libraries/math/mathlib.cpp:2370-2398 | over any run of updates the window holds the latest accepted samples in order, at most `element_cnt` of them, each one or (quaternions only) its mirror image |
| `LsFitting.NeighboursAligned` | libraries/math/mathlib.cpp:2379-2398 | over any run of quaternion updates neighbours have a non-negative inner product, unless their distance is below the library's smallest length |
| `LsFitting.NewestPair` | libraries/math/mathlib.cpp:2379-2398 | the newest two end with a negative inner product if and only if they had one and their distance is below the smallest length |
| `LsFitting.OlderPairs` | libraries/math/mathlib.cpp:2383-2398 | all other neighbours keep their inner products |
| `LsFitting.TinyOpposites` | libraries/math/mathlib.cpp:2379-2390 | two updates that leave neighbours with a negative inner product, for any smallest length |
| `LsFitting.UnitNeighbours` | libraries/math/mathlib.cpp:2379-2398 | for unit quaternions without exception |
| `LsFitting.IncreasingRun` | libraries/math/mathlib.cpp:2370-2403 | with strictly increasing x no sample is ignored, all x in the window differ, and the normal equations are defined for every number of coefficients up to the number of samples held |
| `LsFitting.UpdateEach` | libraries/math/mathlib.cpp:2368-2404 | the window after a run of updates is that of the model's run; when x increases and more than `order` samples are held, the fit is finite and the best on every axis |
| `LsFitting.AlternatingRunIsUndefined` | libraries/math/mathlib.cpp:2370-2403 | going back and forth between two x is accepted and leaves a quadratic fit too few different x |
| `Estimators.EstimatorHandle.OpenEstimate` | libraries/math/mathlib.cpp:736-743 | the degree is capped at four, the size raised to the degree, and no window exists |
| `Estimators.EstimatorHandle.SetEstimate` | libraries/math/mathlib.cpp:755-800 | after any number of calls window i holds exactly the samples it should, offset by the first sample, every full window is fitted by the polynomial through its samples, and the count of stored values is returned |
| `Estimators.EstimatorHandle.ShiftBank` | libraries/math/mathlib.cpp:758-771 | a full bank moves on by one sample and keeps the invariant |
| `Estimators.EstimatorHandle.GrowBank` | libraries/math/mathlib.cpp:772-797 | a filling bank gains a window, the sample joins every window with room, and the invariant is kept |
| `Estimators.GrownCover` | libraries/math/mathlib.cpp:774-784 | which windows a sample joins while the bank fills |
| `Estimators.SlidCover` | libraries/math/mathlib.cpp:760-769 | in a full bank every window takes over what the next one covered, and the last drops its oldest sample |
| `Estimators.WindowOnCurve` | libraries/math/mathlib.cpp:766-770 | a full window over samples on a curve holds that curve, moved to the bases |
| `Estimators.WindowValue` | libraries/math/mathlib.cpp:829-847 | one pass over the coefficients gives the polynomial's value and its first two derivatives |
| `Estimators.EstimatorHandle.GetEstimate` | libraries/math/mathlib.cpp:812-890 | an estimator whose retained samples, the last size + degree, lie on a polynomial of its degree returns that polynomial and its derivatives, everywhere, with zero errors; the squares of the errors are the sample variances of what the windows say; before the bank is full, mean and variance of the first window's offset values |
| `Estimators.DeviationFromMean` | libraries/math/mathlib.cpp:857-867 | what is computed from a sum and a sum of squares is the sum of the squared distances from the mean |
| `Estimators.Variance` | libraries/math/mathlib.cpp:859-865 | the square of one error is the sample variance, so it is never cut off at zero |
| `GaussJacksonKernel.GaussJacksonKernel` | libraries/math/mathlib.cpp:1419-1578 | c is the reciprocal of 1 + t/2 + t^2/3 + ..., q its square, gam and lam their running sums, and every row of the two tables is the series below it multiplied by 1 - t |
| `GaussJacksonKernel.BinomialTable` | libraries/math/mathlib.cpp:1501-1520 | entry (m, i) is i over m, wrapped to 32 bits |
| `GaussJacksonKernel.BinomialsFit` | libraries/math/mathlib.cpp:1501-1520 | the table holds the true binomial coefficients if and only if the order is at most 32 |
| `GaussJacksonKernel.ReciprocalSeries` | libraries/math/mathlib.cpp:1522-1530 | the sum of c[i]/(n+1-i) for i from 0 to n is 0 for every n of at least 1, and 1 for n = 0 |
| `GaussJacksonKernel.TableEntry` | libraries/math/mathlib.cpp:1538-1549 | an entry p rows below row `order` is the alternating binomial sum of that row's entries |
| `Series.StepOfPolynomial` | libraries/math/mathlib.cpp:1522-1530 | the series c applied to the differences of a derivative gives the step of the polynomial, exactly |
| `GaussJacksonSeries.OrdinateDot` | libraries/math/mathlib.cpp:1739-1754 | the ordinate weights give on every sequence of values what the difference weights give on its backward differences |
| `GaussJacksonSeries.OrdinateAt` | libraries/math/mathlib.cpp:1743-1751 | the ordinate weights are the alternating binomial sums the step computes |
| `GaussJacksonMotion.StepRows` | libraries/math/mathlib.cpp:1739-1755 | for orders up to 33 the rows a and b of node j are the ordinate forms of alpha and beta, with the half term of the node itself in b; the row b of node `order` is right for no larger order |
| `GaussJacksonKernel.CoefficientsNegative` | libraries/math/mathlib.cpp:1522-1530 | every coefficient c but the first is negative, so that wrapped binomial coefficients cannot cancel |
| `GaussJacksonMotion.RowsOnMotion` | libraries/math/mathlib.cpp:1905-1915 | on the accelerations of a motion the rows of node j give that node's corrections of the first and second sums |
| `GaussJacksonMotion.RowsAfterMotion` | libraries/math/mathlib.cpp:1993-1999 | row `order + 1` gives the corrections one step after the grid, without the acceleration there |
| `GaussJacksonMotion.SumsStep` | libraries/math/mathlib.cpp:1888-1903 | the sums of a motion obey the recurrences by which the code carries them from node to node |
| `GaussJacksonMotion.SumsGiveMotion` | libraries/math/mathlib.cpp:1925-1926 | velocity and position are recovered from the sums and their corrections |
| `GaussJacksonAxis.PredictedOnMotion` | libraries/math/mathlib.cpp:1990-2005 | the predictor's position, velocity and second sum are those of the motion one step on |
| `GaussJacksonAxis.AdvancedOnMotion` | libraries/math/mathlib.cpp:1988-2025 | after the shift all nodes of an axis are on the motion again |
| `GaussJacksonAxis.SumAxis` | libraries/math/mathlib.cpp:1882-1916 | the sums of all nodes: anchored at the centre's velocity and position, linked from node to node, with the row sums of all nodes but the centre; nothing else changes |
| `GaussJacksonAxis.NodeOnMotion` | libraries/math/mathlib.cpp:1882-1926 | from the right accelerations the sums put every node on the motion |
| `GaussJacksonAxis.OnMotionTells` | libraries/math/mathlib.cpp:1882-1941 | if the nodes a pass leaves are on the motion, the accelerations before the pass were right |
| `GaussJacksonAxes.StepOnMotion` | libraries/math/mathlib.cpp:1985-2026 | a round keeps all axes on a motion that solves the equation, whatever the force is away from it |
| `GaussJacksonAxes.PassSummary` | libraries/math/mathlib.cpp:1880-1946 | what one pass does to right and wrong accelerations, and when its flag is raised, in both directions |
| `GaussJacksonAxes.NearTarget` | libraries/math/mathlib.cpp:1982-1982 | the number of rounds puts the centre within half a step of the target unless the target lies behind it |
| `GaussJackson.GjInstance.constructor` | libraries/math/mathlib.cpp:1650-1695 | every axis has the rows of its kernel (orders up to 33) and zero values |
| `GaussJackson.GjInstance.Pass` | libraries/math/mathlib.cpp:1880-1945 | one pass sums and corrects every node but the centre, and its flag is that of the last node alone |
| `GaussJackson.GjInstance.Preset` | libraries/math/mathlib.cpp:1850-1947 | from right accelerations, for an even order and a uniform grid, every node ends on every polynomial motion of degree up to `order + 2` through the centre node; for any force this happens if and only if the last pass started from the right accelerations, and for a force of the time alone if and only if the accelerations were right before the call or the last node's were off by more than the tolerance |
| `GaussJackson.GjInstance.Round` | libraries/math/mathlib.cpp:1983-2027 | the grid moves by one step and all axes advance together with the force at the predicted positions |
| `GaussJackson.GjInstance.Extrapolate` | libraries/math/mathlib.cpp:1955-2028 | any number of rounds keeps every node on the motion and the grid uniform, moved by exactly the number of rounds, with its centre within half a step of the target |
| `GaussJackson.FallingMotion` | libraries/math/mathlib.cpp:1955-2028 | the motions of constant acceleration: r0 + v0*t + A*t*t/2 and v0 + A*t |
| `GaussJackson.ConstantForce` | libraries/math/mathlib.cpp:1850-1947 | a constant force drives every such motion, so the exact condition of the preset applies to it |
| `GaussJackson.PresetFromZeros` | libraries/math/mathlib.cpp:1850-1947 | with accelerations still zero but at the centre, that condition holds unless the constant accelerations are all below the tolerance and not all zero |
| `GaussJackson.FallTo` | libraries/math/mathlib.cpp:1850-2028 | under constant accelerations, preset and then extrapolation to any target put every node of every axis at the position and velocity it falls to, on a uniform grid, whenever the preset's condition is met |
| `GaussJackson.StopsEarly` | libraries/math/mathlib.cpp:1918-1946 | order 2: a pass ends the preset although another node has just moved and a velocity is wrong by 1/12 |
| `Crc.CalcCrc16Ccitt` | libraries/math/mathlib.cpp:2081-2096 | the bit loop computes the check of the message's bits, lowest bit of each byte first |
| `Crc.TableFoldIsCheck` | libraries/math/mathlib.cpp:2081-2096 | the bit loop equals a fold over bytes with a table of 256 registers |
| `Crc.EightIsLinear` | libraries/math/mathlib.cpp:2089-2093 | eight shifts of the register are linear over exclusive or |
| `Crc.ResidueIsZero` | libraries/math/mathlib.cpp:2081-2096 | two more bytes make the check zero if and only if they are the message's own check, low byte first |
| `Crc.BurstIsDetected` | libraries/math/mathlib.cpp:2081-2096 | messages that differ only within sixteen consecutive bits have different checks |
| `Crc.TwoBytesAreDetected` | libraries/math/mathlib.cpp:2081-2096 | messages that differ only in two adjacent bytes have different checks |
| `FrameTree.NextIsNearer` | libraries/support/convertlib.cpp:141-558 | the next conversion on the way to a frame is one step nearer in the tree |
| `Frames.Location.PosExtra` | libraries/support/convertlib.cpp:91-134 | when it succeeds, and when it renews the matrices: a terrestrial time between -1 and 0 counts as success without renewal |
| `Frames.Location.EciToGeoc` | libraries/support/convertlib.cpp:755-820 | the geocentric frame and the two below it get the pass, the attitudes follow, and a run in progress stays on its way |
| `Frames.Location.GeocToEci` | libraries/support/convertlib.cpp:827-886 | the inertial frame gets the pass and a run in progress stays on its way |
| `Frames.Location.SciToSelc` | libraries/support/convertlib.cpp:1175-1238 | the same on the lunar side, with the selenographic frame |
| `Frames.Location.SelcToSci` | libraries/support/convertlib.cpp:1245-1299 | the same, back |
| `Frames.Location.SynchronizeGeos` | libraries/support/convertlib.cpp:951-997 | the time check that looks at the destination |
| `Frames.Location.Convert` | libraries/support/convertlib.cpp:565-1418 | every conversion gives only its destination (and the leaves below it) the pass, and keeps a run from the newest frame on its way: frames that have the pass hold the composition of conversions along the tree |
| `Frames.Location.Branch` | libraries/support/convertlib.cpp:141-558 | going on into a neighbour ends with that whole side of the tree settled |
| `Frames.AllSettled` | libraries/support/convertlib.cpp:141-558 | once every frame with the pass has neighbours with the pass, all frames have it |
| `Frames.Location.Pos` | libraries/support/convertlib.cpp:141-558 | terminates from every state, never lowers an inner frame's pass, invents no pass, and says whether the time was fit |
| `Frames.Location.Synchronise` | libraries/support/convertlib.cpp:141-558 | from the strictly newest frame all eight frames end with its pass, its time and the composition of conversions along the tree path, its own components unchanged, and all five attitudes with its pass, if and only if the time is fit (and, from the geographic frame, the geocentric time is finite); otherwise only times change |
| `Frames.Location.BodyAttitude` | libraries/support/convertlib.cpp:1523-1629 | what a call for a body's attitude makes of the passes, for either closest body |
| `Frames.Location.InertialAttitude` | libraries/support/convertlib.cpp:1638-1651 | what a call for the inertial attitude makes of the passes |
| `Frames.Location.LocalAttitude` | libraries/support/convertlib.cpp:1839-2036 | what a call for a local attitude makes of the passes |
| `Frames.Location.SynchroniseAttitude` | libraries/support/convertlib.cpp:1446-2036 | terminates; from the strictly newest attitude all five passes become equal if and only if it is geoc, or it is icrf, selc or lvlh and the time is fit; from topo all but the far body's do; equal passes stay equal |
| `Frames.Location.Lvlh2Planec` | libraries/support/convertlib.cpp:1731-1808 | the closest body's attitude and position frame and the topocentric attitude get the pass |
| `Frames.Location.Topo2Planec` | libraries/support/convertlib.cpp:1937-2005 | the same from the topocentric attitude, and the inertial attitude gets the pass without its far body |
| `Frames.Location.NewestOfPositions` | libraries/support/convertlib.cpp:2074-2113 | finds a frame with the largest pass |
| `Frames.Location.NewestOfAttitudes` | libraries/support/convertlib.cpp:2049-2073 | finds an attitude with the largest pass |
| `Frames.Location.LocUpdate` | libraries/support/convertlib.cpp:2044-2162 | a newest position that can start arrives everywhere, in the attitudes too; and the exact condition, for every strictly newest position and attitude, under which the attitude's pass reaches all attitudes |
| `Frames.NewerAttitudeLost` | libraries/support/convertlib.cpp:2044-2162 | a location whose newer attitude is overwritten by the older pass of its newest position |
| `DemIndex.BuildIndex` | libraries/support/demlib.cpp:284-321 | every cell lists the first hundred models that cover it, in order |
| `DemIndex.EnterDem` | libraries/support/demlib.cpp:284-321 | one more model reaches exactly the cells it covers that have room |
| `DemIndex.Search` | libraries/support/demlib.cpp:395-409 | the chosen model is the first match if that one is fine enough, otherwise the last match before the next fine one; none if nothing matches |
| `DemIndex.ChosenOnce` | libraries/support/demlib.cpp:395-409 | the selection rule picks at most one match |
| `DemIndex.ServedIsCovered` | libraries/support/demlib.cpp:286-299 | a model near the point, on the globe and without the point in its slack, covers the point's cell |
| `DemIndex.CellListIs` | libraries/support/demlib.cpp:300-319 | a cell holds, in order, exactly the models that cover it and find fewer than a hundred such models before them |
| `DemIndex.MatchesIs` | libraries/support/demlib.cpp:397-401 | the matches are exactly the near models of the list, in its order |
| `DemIndex.CellAgreesWithScan` | libraries/support/demlib.cpp:284-409 | for every point and any models, the cell offers the search exactly the matches a scan of all models does if and only if every model near the point is listed in the cell, overflowing cells included |
| `DemIndex.SameChoice` | libraries/support/demlib.cpp:395-409 | choosing from some of the matches gives the choice from all if and only if that model is among them and the search ends there |
| `DemIndex.ChoiceAgreesWithScan` | libraries/support/demlib.cpp:284-409 | the model chosen from the cell is the one chosen from all models if and only if that one is listed and the search of the cell ends there; it is whenever all near models are listed |
| `DemIndex.ServedAgree` | libraries/support/demlib.cpp:284-409 | so it is in a cell that has not overflowed, for models on the globe without the point in their slack |
| `DemIndex.SlackIsMissed` | libraries/support/demlib.cpp:383-409 | a model and a point in its slack for which the cell and the scan differ |
| `DemCache.Cache.LastOldest` | libraries/support/demlib.cpp:118-134 | the count of loaded models and the oldest, the last of several |
| `DemCache.Cache.Shrink` | libraries/support/demlib.cpp:102-153 | terminates; evicts oldest first until at most the given number, capped at ten, are loaded, and no more than that; the accounting stays exact; defined exactly when the number is not negative |
| `DemCache.Cache.MakeRoom` | libraries/support/demlib.cpp:419-450 | terminates; evicts oldest first until the budget has room, and nothing that was not needed |
| `DemCache.Cache.Load` | libraries/support/demlib.cpp:416-492 | the model is loaded; eviction was oldest first and only for want of room; the sum of loaded sizes is exact and within the budget; the budget grows by twice the size exactly when less than that is left |
| `DemCache.Cache.LookAtEach` | libraries/support/demlib.cpp:353-492 | lookups that choose any number of equal models, one after the other, evict none; the budget ends with room for two more than there are, and it stays if and only if it had that from the start |
| `DemCache.Cache.Lookups` | libraries/support/demlib.cpp:353-492 | over any run of lookups a budget that has room for all models some lookup chooses, and for any one of them twice more, stays |
| `DemCache.Cache.LookLargestLast` | libraries/support/demlib.cpp:353-492 | lookups that choose all models that can be chosen, the largest last, keep the budget if and only if it has that room |
| `DemCache.LargestLastExists` | libraries/support/demlib.cpp:383-409 | unless no lookup ever finds a model, there are such lookups, so every budget without that room is raised by some run |
| `DemCache.MiddleIsUnused` | libraries/support/demlib.cpp:395-409 | of three models with one box and one size of pixels no lookup chooses the middle one |
| `DemCache.Cache.PixelAt` | libraries/support/demlib.cpp:353-515 | defined exactly when the point is off the map or some model matches, and otherwise nothing changes; then the pixel is the scaled pixel of the chosen model's file, whatever was loaded; eviction is oldest first, the loaded sizes sum exactly to the accounted total within the budget, which grows exactly when too little room is left |
| `DemCache.TotalAfterChange` | libraries/support/demlib.cpp:442-485 | how the exact sum of loaded sizes changes with one load or eviction |
| `MessageRing.CheckSees` | libraries/agent/agentclass.cpp:2037-2043 | exactly when the reader sees a waiting message: a whole lap looks like none, except from the initial tail |
| `MessageRing.RunTracks` | libraries/agent/agentclass.cpp:900-907 | every interleaving of writer and reader steps, without exception, keeps ring and history together |
| `MessageRing.RunKeeps` | libraries/agent/agentclass.cpp:2012-2059 | a reader loses nothing that is within a lap when it fetches, does not look after a jump to the head of a ring without messages, and passes blindly only when a message waits |
| `MessageRing.Fifo` | libraries/agent/agentclass.cpp:2012-2059 | for every interleaving, from the initial out-of-range indices and across wraparound: unless a message was lost, what the reader was given is what was written since its last clearing or jump, in order, without gap or repetition, as far as it asked for it |
| `MessageRing.FifoExactly` | libraries/agent/agentclass.cpp:2012-2059 | when no message is written twice, a reader of all types was given exactly that if and only if each message was in its slot, not yet written over, when it was fetched |
| `MessageRing.AllWanted` | libraries/agent/agentclass.cpp:2045-2050 | a reader of all types is given everything |
| `MessageRing.HeadReadsNewest` | libraries/agent/agentclass.cpp:2026-2050 | after at least one write a read at the head gives the newest message and leaves none waiting |
| `MessageRing.HeadOfEmptyRing` | libraries/agent/agentclass.cpp:2026-2050 | before any write it gives a slot never written, and the first message is then not seen |
| `MessageRing.BehindReads` | libraries/agent/agentclass.cpp:2037-2050 | a reader that fell a lap behind is given the newest message with its index |
| `MessageRing.AgentRing.Receive` | libraries/agent/agentclass.cpp:900-907 | the writer appends messages to what waits while the reader keeps up |
| `MessageRing.ClearKeeps` | libraries/agent/agentclass.cpp:2086-2090 | clearing leaves nothing waiting and starts a new stretch, however far behind the reader was |
| `MessageRing.SeekKeeps` | libraries/agent/agentclass.cpp:2026-2033 | a jump to the head starts a new stretch, however far behind the reader was |
| `MessageRing.AgentRing.ClearRing` | libraries/agent/agentclass.cpp:2086-2090 | clearing as the model's step on the shared members |
| `MessageRing.AgentRing.SeekStep` | libraries/agent/agentclass.cpp:2026-2033 | the jump to the head as the model's step on the shared members |
| `MessageRing.AgentRing.ReadHead` | libraries/agent/agentclass.cpp:2012-2059 | a read at the head, with any messages arriving before each try, passes the newest message first, then one a try, and gives the first that has the type |
| `MessageRing.AgentRing.ReadNow` | libraries/agent/agentclass.cpp:2035-2059 | a read with no time to wait passes one message without looking, and gives it exactly when it is stored, not written over and of the type |
| `MessageRing.AgentRing.TryOnce` | libraries/agent/agentclass.cpp:2035-2051 | one try passes the oldest waiting message and gives it if it has the type |
| `MessageRing.AgentRing.ReadTail` | libraries/agent/agentclass.cpp:2012-2059 | with any messages arriving before each try: a read passes one waiting message a try, gives the first that has the type, and drops those before it |
| `MessageRing.AgentRing.StoreStep` | libraries/agent/agentclass.cpp:900-906 | the writer's first step on the shared members |
| `MessageRing.AgentRing.PublishStep` | libraries/agent/agentclass.cpp:907-907 | the writer's second step on the shared members |
| `AgentLists.Agent.Hear` | libraries/agent/agentclass.cpp:884-898 | the list holds every agent once, in the order first heard, with its latest heartbeat |
| `AgentLists.HearKeeps` | libraries/agent/agentclass.cpp:884-898 | replacing the first entry of the agent, or appending, gives the list of one more heartbeat |
| `AgentLists.Agent.Enter` | libraries/agent/agentclass.cpp:663-680 | the servers stay ordered by port; a new one is entered before the first entry whose port is not smaller, a known one changes nothing |
| `AgentLists.EnteredByPort` | libraries/agent/agentclass.cpp:671-679 | such an entry keeps the order and adds just the one server |
| `CommandQueue.Queue.RunCommands` | libraries/support/command_queue.cpp:108-143 | one walk with erasures leaves what each event's look leaves of it, in order, and executes exactly the events that run |
| `CommandQueue.Queue.VisitNode` | libraries/support/command_queue.cpp:110-141 | the step of the walk agrees with the rule of when an event runs, stays, is armed again or is removed |
| `CommandQueue.Queue.AddCommand` | libraries/support/command_queue.cpp:250-254 | appends a new node that no earlier one shares its identity with |
| `CommandQueue.Queue.DelCommand` | libraries/support/command_queue.cpp:235-248 | removes all events equal to the given one, whatever their latch, and counts them |
| `CommandQueue.PassedSurvives` | libraries/support/command_queue.cpp:110-141 | survivors of a pass keep their nodes and their order |
| `CommandQueue.WithoutSurvives` | libraries/support/command_queue.cpp:238-245 | survivors of a deletion are unchanged and keep their order |
| `CommandQueue.GoneStaysGone` | libraries/support/command_queue.cpp:108-143 | a removed node does not come back in any trace |
| `CommandQueue.OthersRunOnce` | libraries/support/command_queue.cpp:112-137 | an event that is not both conditional and repeating is removed by the pass that runs it, for good |
| `CommandQueue.RearmedFirst` | libraries/support/command_queue.cpp:116-132 | a latched event runs again only after some action of the trace saw it ready with its condition false |
| `CommandQueue.RunsTwice` | libraries/support/command_queue.cpp:116-132 | between two runs of an edge-triggered event, in any trace of passes, additions and deletions, some pass saw it ready with its condition false |

## Left out

- Rounding: all doubles are exact reals, `normalize_q` and trigonometry do not occur, and lengths of quaternions are compared as squares.
- `LsFit`: the means and standard deviations of `fit`, `lastx`, `firstx`, and the other evaluators (slope, acceleration, jerk, vectors) only repeat `eval`.
- LsFitting.LsFit.Update: does not cover a fit of an order above 32767, whose 16-bit loop over twice the order never ends.
- Linear.MultiSolve: does not cover more than 65535 unknowns, for which the 16-bit row index never ends, nor an empty system, for which the original underflows.
- Estimators.EstimatorHandle.SetEstimate: does not cover a bank of size zero, which the original indexes before its start, nor the cut of the count to 16 bits.
- Estimators.EstimatorHandle.GetEstimate: states the squares of the error fields, as square roots are not modelled.
- GaussJackson.GjInstance.constructor: does not cover a step of zero, or axes shared between instances through the static buffers; the force is a pure function of time and positions.
- GaussJackson.GjInstance.Preset: does not cover a preset after an extrapolation, when the rows of the nodes have been shifted; for a force that also depends on the position, whether the passes come to right accelerations depends on the force and is not stated.
- GaussJacksonMotion.StepRows: for orders above 33 states only that the row b of node `order` is wrong; overflow is modelled as wrapping.
- `gauss_jackson_setstep` and `gauss_jackson_getstep` copy values, and allocation failures are not modelled.
- The integrator of libraries/physics/physicslib.cpp is a twin tied to ephemeris and gravity files.
- Crc.CalcCrc16Ccitt: does not cover sizes above 65535, for which the 16-bit counter never reaches the end.
- Frames.Location.Synchronise: says nothing when two frames share the newest pass; passes are unbounded numbers, not 32-bit ones.
- Frames.Location.SynchroniseAttitude: states passes only, as the attitudes' values, `att.extra` and the magnetic field are not modelled.
- Frames.Location.Convert: leaves the arithmetic of each conversion uninterpreted; within a run the components are those of the composition.
- Frames.Location.LocUpdate: makes no claim when two positions or two attitudes share the newest pass.
- DemCache.Cache.PixelAt: covers one open body, models no larger than the budget and load times before the present. File failures, the probing of memory at start-up and 32-bit sizes are not modelled.
- MessageRing.AgentRing.ReadTail: counts tries instead of seconds, and messages arrive between tries; interleaving within a try is the subject of `MessageRing.Fifo`.
- MessageRing.FifoExactly: needs messages that can be told apart; when equal messages are written, a loss may not show.
- `resizering` does not resize the ring, and sockets, heartbeats' contents, timing and thread start-up are left out.
- CommandQueue.Queue.RunCommands: takes the clock and each condition as inputs and models `erase(ii--)` at the first element as removing it and going on to the next; processes, logs, loading, saving and sorting are left out.
- `libraries/save`, JSON, TLE, SGP4, gravity models, hardware simulation and interface discovery are separate parts without a crisp promise in the code.
