# COSMOS core: a verified model of its framing, numerics, command queue and message passing

This project models the parts of COSMOS core in which a small slip is hard to see, and proves what they
are for. `dafny verify dfyconfig.toml` (Dafny 4.11) verifies the whole project.

- **AX.25 frames and HDLC packets** (`BitStrings`, `Hdlc`, `HdlcProofs`, `Ax25`, `Ax25Proofs`). Bit
  stuffing and unstuffing as the source does them byte by byte, against a bit-level description; what
  comes back is known exactly for every payload and every alignment.
- **CRC-16** (`Crc`, `CrcDetection`, `Period`, `Divisors`, `FewErrors`, `Crc16`, `BufferedRead`).
  The bitwise CRC, the table built from it, the table-driven CRC and the CRC of a file; which errors a
  frame check sequence (sections 3.6 and 3.7 of AX.25 v2.2, appendix C.2 of RFC 1662) cannot miss.
- **Linear systems, least squares, interpolation** (`LinearSolve`, `Solvability`, `LeastSquares`,
  `LsFit`, `Polynomials`, `Polyfit`, `ClosedFits`, `Derivatives`). Recursive elimination, the
  sliding-window fit built on it, polynomial interpolation of every size, derivatives of any order.
- **Cubic splines** (`Spline`, `SplineEval`, `SplineUnique`).
- **The Gauss-Jackson integrator** (`Series`, `GaussJackson`, `Exactness`, `IntegratorSums`,
  `IntegratorSpec`, `IntegratorProofs`, `IntegratorLimits`, `IntegratorCorrection`, `IntegratorSwing`,
  `Integrator`): the coefficient tables, the weights, preset and extrapolation; every run is exact on polynomial
  paths, and what the preset corrects is known exactly.
- **The command queue** (`Events`, `QueueSpec`, `QueueProofs`, `QueueSort`, `QueueRuns`, `QueueCounter`,
  `CommandQueue`). One pass, and every run of additions, deletions, sorts and passes.
- **The message queue between threads** (`MessageRing`): every interleaving of the message thread with
  callers of `readring`. **Responses in chunks** (`Chunking`): 16-bit offsets and at most 255 chunks.

Code that changes objects or arrays in place is modelled by classes and methods with loops; each is proved
equal to a function or a property on values, and the lemmas are about those. Doubles are exact reals, and a
division by zero is a result of its own (`finite`, `Undefined`). Bytes and 16-bit words are strings of bits
with bit 0 first, so that every shift and every cut to 8, 16 or 32 bits is explicit.

Some findings, each a lemma with a concrete case and, where it has one, the exact condition:

- A payload byte 0xFE ends reception exactly when its stuffed bits begin on a byte boundary, 0x7E always
  does (`PacketExactness`, `LoneByteIsLost`). Everything else comes back.
- Two flipped bits of a frame are missed exactly when both are overlooked, or none is and their distance in what is
  checked is a multiple of 32767 bits (`TwoFlips`). So any one, two or three flipped bits are always noticed exactly
  in frames of at most 4095 bytes (`FewErrorsExactly`).
- The size of the part under the frame check sequence is cut to 16 bits: a change of one byte of an accepted
  frame goes unnoticed exactly if the byte lies behind the first size mod 65536 bytes and before the FCS
  (`ByteIsUnchecked`), so that every byte is checked exactly in frames of at most 65537 bytes
  (`EveryByteIsChecked`).
- `multisolve` never exchanges rows before it eliminates. It succeeds exactly if the matrix and its leading parts of
  the sizes 1 to n - 2 are regular (`ComputableExactly`); a regular matrix can fail (`RegularButNotComputable`). The
  matrices of `LsFit` and `polyfit` never do, as long as there are enough different points (`FitIsDefined`,
  `Polyfit.Fit`).
- The binomial table of the integrator is `int32_t`: it holds up to order 32 and overflows from order 33 on
  (`BinomFitsInt32`).
- The integrator is exact, over any number of steps, on paths whose second derivative is a polynomial of at most its
  order (`RunIsExact`). Its preset starts every new instance exactly for even orders: for an odd one the last step
  keeps the sums it had (`PresetCompletes`, `NewInstanceStarts`). Under a force of time alone it corrects starting
  values that are wrong away from the middle, but stops too early exactly when the last second derivative was
  nearly right and another one wrong (`PresetCorrects`, `StopsTooEarly`). Steps move down with their weights, so
  that a second preset is right for all such paths only if no step was extrapolated (`PresetOnlyAtTheStart`). Under
  a force that depends on the position the tenth pass can still be moving the values (`TenPasses`).
- `rv_evaluate_poly_deriv` computes the derivative of all polynomials of a size exactly when its `int16_t` counter
  reaches all terms, which it does up to 32769 coefficients, and the factor of the highest term fits 32 bits
  (`DerivativeExactly`, `LostConstant`). `evaluate_poly_slope` does so up to 65537 coefficients (`SlopeExactly`).
  `evaluate_poly` returns 0 for a constant polynomial (`EvaluatePoly`).
- The condition counter of an event is never reset, so that its threshold counts all times the condition
  held, and not times in a row (`FiresByTotalCount` over every run of the queue, `FourPasses`,
  `FlickeringConditionFires`).
- Solo events never run (`SoloNeverRuns`); the documentation says that they run by themselves. A pass changes
  the queue without marking it exactly if no command or request runs and the pass takes out or changes an event
  that it reaches (`UnmarkedChange`; one event of another type does, `OtherTypesLeaveUnmarked`).
- The queue of messages can be taken from when it is empty exactly if there are two callers of `readring` or more
  (`UnderflowExactly`).
- `readring` returns the first matching message; its documentation says the last, for a wait of 0. Without a push
  during the call the two are the same exactly when no message of the ring but the last one matches
  (`LastOnlyIfNoOther`, `FirstOfTwo`).
- `push_response` sends every response if and only if a chunk holds at most 257 bytes (`SafeChunkSizes`).

## Model

| member | source | states |
|---|---|---|
| Ax25.Ax25Handle.Stuff | libraries/support/ax25class.cpp:248-315 | the byte loops produce leading flags, the payload bits with a 0 after every five 1s and trailing flags, packed most significant bit first, with no trailing partial byte |
| Ax25.Ax25Handle.Unstuff | libraries/support/ax25class.cpp:317-368 | the byte loops compute what the bit-level receiver computes, for every input and every flag |
| Ax25Proofs.PacketRoundTrip | libraries/support/ax25class.cpp:248-368 | unstuffing a stuffed payload gives it back up to the first byte that ends reception, for every payload, every flag count of at least 1 and every alignment |
| Ax25Proofs.PacketExactness | libraries/support/ax25class.cpp:317-368 | the payload comes back whole if and only if no byte of it ends reception |
| Ax25Proofs.PlainBytesComeBack | libraries/support/ax25class.cpp:353-366 | what comes back is a prefix that holds at least everything before the first 0x7E or 0xFE |
| Ax25Proofs.LoneByteIsLost | libraries/support/ax25class.cpp:362-366 | the payload 0xFE is lost although it holds no flag |
| HdlcProofs.UnframeFrame | libraries/support/ax25class.cpp:248-368 | the same round trip on the bit-level sender and receiver |
| HdlcProofs.StuffedPayloadHasNoSixOnes | libraries/support/ax25class.cpp:266-292 | the stuffed payload has no six consecutive 1 bits |
| HdlcProofs.FrameLength | libraries/support/ax25class.cpp:255-314 | L payload bytes give L + 2 f to L + L/5 + 2 f bytes for f flags |
| Ax25Proofs.PacketLength | libraries/support/ax25class.cpp:255-314 | the same bound for the packet of bytes |
| Ax25Proofs.ByteAsSent | libraries/support/ax25class.cpp:248-315 | 0x1F between single flags as the bytes 0x7E, 0xF8, 0x3F: lowest bit first, a 0 after five 1s, HDLC bytes from the highest bit down, no incomplete last byte |
| HdlcProofs.FlagWindow | libraries/support/ax25class.cpp:255-314 | eight bits in the stream are a flag if and only if a flag was put there |
| Ax25Proofs.FlagsOnlyWherePut | libraries/support/ax25class.cpp:255-314 | in the packet as sent a flag pattern starts at exactly the offsets of the flags put before and after the payload |
| HdlcProofs.RxOfStuffedPayload | libraries/support/ax25class.cpp:331-366 | the receiver outputs the payload up to the first byte that ends reception, and stops there |
| HdlcProofs.RxPack | libraries/support/ax25class.cpp:331-366 | receiving whole bytes is receiving their bits one by one, with the extra flag test at each byte end |
| Ax25.Ax25Handle.constructor | libraries/support/ax25class.cpp:35-44 | a new handle uses the hdlc CRC; its header holds both callsigns moved up, the station IDs, control and protocol given |
| Ax25.Ax25Handle.Default | libraries/support/ax25class.cpp:46-55 | the same with empty callsigns, stations 0x60 and 0x61, control 0x03 and protocol 0xf0 |
| Ax25.Ax25Handle.SetDestinationCallsign | libraries/support/ax25class.cpp:58-72 | only the destination callsign of the header changes |
| Ax25.Ax25Handle.SetSourceCallsign | libraries/support/ax25class.cpp:95-109 | only the source callsign of the header changes |
| Ax25.WriteCallsign | libraries/support/ax25class.cpp:58-72 | six bytes: the characters moved up by one bit, spaces after them |
| Ax25.ReadCallsign | libraries/support/ax25class.cpp:74-82 | the six bytes moved down by one bit |
| Ax25.CallsignComesBack | libraries/support/ax25class.cpp:58-82 | a text read back after it was set is the same if and only if it has six letters of seven bits |
| Ax25.CallsignValues | libraries/support/ax25class.cpp:58-72 | as numbers: twice the character mod 256, and 0x40 for those missing |
| Ax25.Ax25Handle.Load | libraries/support/ax25class.cpp:192-207 | the frame is the header field by field, the data, and the FCS of both, low byte first; nothing else of the state but the computed FCS changes |
| Ax25.Ax25Handle.Unload | libraries/support/ax25class.cpp:209-246 | short frames and, if asked, frames with a wrong FCS are refused with header and data unchanged; every other frame is taken apart |
| Ax25Proofs.LoadedFrameIsAccepted | libraries/support/ax25class.cpp:192-246 | a frame as loaded passes the check at every size and holds exactly the header and data loaded |
| Ax25Proofs.AcceptedByResidue | libraries/support/ax25class.cpp:216-231 | up to 65537 bytes a frame is accepted if and only if the register over all of it ends at 0xF0B8 |
| Ax25Proofs.GoodFcsValue | libraries/support/ax25class.cpp:216-231 | the good FCS is the register of all ones clocked 16 times |
| Ax25Proofs.BurstIsRejected | libraries/support/ax25class.cpp:216-245 | no change within 16 consecutive bits of an accepted frame of up to 65537 bytes is accepted |
| Ax25Proofs.ChangedBytesAreRejected | libraries/support/ax25class.cpp:192-245 | a loaded frame of up to 65537 bytes changed in one byte or two neighbouring bytes, FCS included, is rejected |
| Ax25Proofs.OddErrorIsRejected | libraries/support/ax25class.cpp:216-245 | an odd number of flipped bits anywhere in a frame of up to 65537 bytes is rejected |
| FewErrors.TwoFlips | libraries/support/ax25class.cpp:216-245 | two flipped bits of an accepted frame of any size are missed if and only if both are overlooked, or none is and their distance in what is checked is a multiple of 32767 bits |
| FewErrors.FewErrorsAreRejected | libraries/support/ax25class.cpp:216-245 | in frames of at most 4095 bytes any one, two or three flipped bits are noticed |
| FewErrors.FewErrorsExactly | libraries/support/ax25class.cpp:216-245 | one to three flipped bits of an accepted frame are always noticed if and only if it has at most 4095 bytes |
| Ax25Proofs.ByteIsUnchecked | libraries/support/ax25class.cpp:216-245 | an accepted frame changed in one byte is accepted if and only if the byte lies from size mod 65536 on and before the FCS |
| Ax25Proofs.EveryByteIsChecked | libraries/math/crclib.cpp:91-94 | every change of one byte is noticed if and only if the frame has at most 65537 bytes |
| Ax25Proofs.FrameArrives | libraries/support/ax25class.cpp:192-368 | load, stuff, unstuff and unload bring header and data back when no byte of the frame ends reception |
| Crc16Lib.ReverseByte | libraries/math/bytelib.cpp:93-114 | with the other byte order the shift loop reverses the eight bits |
| Crc16Lib.CalcBitwise | libraries/math/crclib.cpp:399-428 | the bit loop computes the CRC of the message for every polynomial, start, final mask and bit order |
| Crc16Lib.Crc16.Set | libraries/math/crclib.cpp:34-48 | every table entry is the register after that byte alone |
| Crc16Lib.EntryIsCrc | libraries/math/crclib.cpp:41-46 | the register after one byte is the CRC of it with zero start and mask |
| Crc.TableStep | libraries/math/crclib.cpp:105-116 | one table lookup advances the register like eight clocks, in both bit orders |
| Crc16Lib.Crc16.Advance | libraries/math/crclib.cpp:105-116 | the body of the byte loop advances the register by one byte |
| Crc16Lib.Crc16.Calc | libraries/math/crclib.cpp:96-123 | the table-driven CRC is the bitwise one |
| Crc16Lib.Crc16.CalcAll | libraries/math/crclib.cpp:91-94 | of a longer message the first size mod 65536 bytes are taken |
| Crc16Lib.Crc16.CalcFile | libraries/math/crclib.cpp:172-217 | the CRC of the whole file at every length, and an empty buffer at the end |
| BufferedRead.ReadBuffer.Read | libraries/math/crclib.cpp:134-168 | the bytes of the file from the offset on, as many as there are, whatever the buffer held of it before |
| BufferedRead.ReadBuffer.ReadByte | libraries/math/crclib.cpp:188 | each byte of the file once, then 0 with an empty buffer |
| BufferedRead.ReadBuffer.Fill | libraries/math/crclib.cpp:150-164 | the buffer holds the next part of the file |
| Crc.Duality | libraries/math/crclib.cpp:399-428 | the lsb-first CRC is the reversal of the msb-first one on reversed bytes, start and mask |
| Crc.ShiftNXor | libraries/math/crclib.cpp:412-425 | clocking is linear |
| CrcDetection.RegisterIsBitRegister | libraries/math/crclib.cpp:412-425 | the register by bytes is the register by bits as sent |
| CrcDetection.NoBurstIsMissed | libraries/math/crclib.cpp:412-425 | messages that differ only within 16 consecutive bits leave different registers if the polynomial keeps its top term |
| CrcDetection.TwoFlipsReturn | libraries/math/crclib.cpp:412-425 | streams that differ in two bits leave the register alike if and only if a single bit in it comes back after as many clocks as lie between them |
| RegisterPeriod.ReturnsExactly | libraries/math/crclib.cpp:417 | clocked without input, the register of the hdlc CRC is back after the multiples of 32767 clocks and never else |
| CrcDetection.NoOddErrorIsMissed | libraries/math/crclib.cpp:412-425 | with an odd number of taps, messages that differ in an odd number of bits leave different registers |
| LinearSolve.Multisolve | libraries/math/mathlib.cpp:537-583 | no division by zero if and only if no level has a first column of zeros; then the result satisfies every row of the system |
| LinearSolve.Eliminate | libraries/math/mathlib.cpp:549-556 | the reduced system without its first unknown |
| LinearSolve.BestRow | libraries/math/mathlib.cpp:566-575 | a row with the largest leading entry, the first of those |
| LinearSolve.BackSubstitution | libraries/math/mathlib.cpp:559-581 | a solution of the reduced system, completed by any row with a leading entry, solves all rows |
| LinearSolve.ZeroPivotCollapses | libraries/math/mathlib.cpp:549-556 | with three or more unknowns a zero first entry makes a later level divide by zero |
| Solvability.ComputableExactly | libraries/math/mathlib.cpp:537-583 | no division by zero if and only if the matrix and its leading parts of sizes 1 to n - 2 send only zero to zero |
| Solvability.ComputableKernel | libraries/math/mathlib.cpp:537-583 | a matrix that can be computed sends only zero to zero |
| Solvability.SolutionUnique | libraries/math/mathlib.cpp:537-583 | the solution is the only one |
| Solvability.RegularButNotComputable | libraries/math/mathlib.cpp:549-581 | a regular matrix that cannot be computed |
| LeastSquares.NormalEquationsMinimise | libraries/math/mathlib.cpp:2309-2322 | a solution of the normal equations has the smallest sum of squares |
| LeastSquares.GramKernel | libraries/math/mathlib.cpp:2309-2320 | the normal matrix sends to zero only what combines the columns to zero |
| SlidingFit.SolutionFitsBest | libraries/math/mathlib.cpp:2268-2325 | the solved coefficients fit best among all polynomials of the order |
| SlidingFit.FitIsDefined | libraries/math/mathlib.cpp:2268-2325 | the solve does not divide by zero if and only if there are more different points than the order |
| SlidingFit.BestFitIsUnique | libraries/math/mathlib.cpp:2268-2325 | a best fit is the only one if and only if there are more different points than the order |
| SlidingFit.LsFit.constructor | libraries/math/mathlib.cpp:2110-2130 | an empty window, an order of at least 1, room for order + 1 elements if no size was given |
| SlidingFit.LsFit.Update | libraries/math/mathlib.cpp:2226-2262 | a sample with the x of the newest element changes nothing, any other is the newest element afterwards as supplied; with more than order samples every axis is fitted best, or undefined exactly when there are too few different points |
| SlidingFit.NextInX | libraries/math/mathlib.cpp:2226-2255 | the x of the window: unchanged if the new one is that of the newest element, else with the new one behind and at most the given number |
| SlidingFit.LsFit.MirrorAll | libraries/math/mathlib.cpp:2241-2245 | every stored quaternion is switched to its mirror |
| SlidingFit.LsFit.Fit | libraries/math/mathlib.cpp:2268-2325 | each axis gets the best polynomial over the window around its first x |
| SlidingFit.LsFit.PowerSums | libraries/math/mathlib.cpp:2274-2285 | the sums of the powers of the offsets |
| SlidingFit.LsFit.ProductSums | libraries/math/mathlib.cpp:2293-2305 | the sums of the products of one axis with those powers |
| SlidingFit.LsFit.Normal | libraries/math/mathlib.cpp:2309-2320 | the matrix of the normal equations |
| SlidingFit.WindowInvariant | libraries/math/mathlib.cpp:2226-2255 | over every run the window holds the newest of the samples whose x differs from that of the sample before, the very newest as given, quaternions before it as given or mirrored, all others as given; no neighbours share an x, and neighbouring quaternions have an inner product of at least 0 |
| SlidingFit.NearerMirrorSign | libraries/math/mathlib.cpp:2239 | the test of lengths tells the sign of the inner product |
| SlidingFit.LineAlwaysDefined | libraries/math/mathlib.cpp:2228-2231 | for order 1 the refusal of a repeated x keeps every fit defined |
| Polyfit.Fit | libraries/math/mathlib.cpp:1105-1167 | for every number of points: finite if and only if no two share their x, and then the polynomial passes through all |
| Polyfit.FitMany | libraries/math/mathlib.cpp:1138-1163 | the same for the default case, by elimination |
| ClosedFits.FitTwo | libraries/math/mathlib.cpp:1118-1121 | the same for two points |
| ClosedFits.FitThree | libraries/math/mathlib.cpp:1122-1126 | the same for three points |
| ClosedFits.FitFour | libraries/math/mathlib.cpp:1127-1137 | the same for four points |
| ClosedFits.DenominatorZero | libraries/math/mathlib.cpp:1132-1134 | the divisor of the cubic's formula vanishes if and only if two x agree |
| Polyfit.FitIsUnique | libraries/math/mathlib.cpp:1105-1167 | no other polynomial of that size passes through the points |
| Polyfit.EvaluatePoly | libraries/math/mathlib.cpp:592-610 | the value of the polynomial, but 0 for fewer than two coefficients |
| Derivatives.EvaluateSlope | libraries/math/mathlib.cpp:618-636 | the value of the derivative up to 65537 coefficients; beyond, of the terms that the cut counter reaches |
| Derivatives.EvaluateDerivative | libraries/math/mathlib.cpp:813-845 | one axis of the derivative of any order, with factors cut to 32 bits, up to 32769 coefficients; beyond, the terms that the cut counter reaches |
| Derivatives.DerivativeExactly | libraries/math/mathlib.cpp:813-845 | what the code gives is the derivative for all polynomials of a size if and only if there are no more than `order` coefficients, or at most 32769 and the highest factor fits 32 bits |
| Derivatives.LostConstant | libraries/math/mathlib.cpp:831-840 | of 32770 coefficients only the highest is used |
| Derivatives.SlopeExactly | libraries/math/mathlib.cpp:618-636 | the slope is the derivative for all polynomials of a size if and only if there are at most 65537 coefficients |
| Derivatives.DerivativeIsSlopeOfSecants | libraries/math/mathlib.cpp:618-636 | the derivative at a point is what the slope of the secants through it gives there |
| CubicSpline.Sweep | libraries/physics/nrlmsise-00.cpp:349-361 | no pivot vanishes, the quotients stay in (-1, 0], and each stored pair stands for the equations so far |
| CubicSpline.BackSubstitute | libraries/physics/nrlmsise-00.cpp:370-371 | in place, each value follows from the next |
| CubicSpline.Spline | libraries/physics/nrlmsise-00.cpp:332-374 | the second derivatives make the slopes agree at every inner knot and meet the natural or given end conditions |
| SplineUniqueness.SplineIsUnique | libraries/physics/nrlmsise-00.cpp:332-374 | no other second derivatives do |
| SplineEvaluation.PieceTaylor | libraries/physics/nrlmsise-00.cpp:317-323 | the formula of a piece is the cubic with the slope, the curvature and the jump named, expanded at any point, and the area formula is its integral |
| SplineEvaluation.PiecesJoin | libraries/physics/nrlmsise-00.cpp:317-374 | neighbouring pieces agree at their knot in value, first and second derivative |
| SplineEvaluation.EndsAsAsked | libraries/physics/nrlmsise-00.cpp:349-369 | the end slopes are those given, or the end curvature is 0 |
| SplineEvaluation.Splint | libraries/physics/nrlmsise-00.cpp:296-324 | bisection finds the interval and the piece over it; every knot is passed through |
| SplineEvaluation.IntegralDoesNotJump | libraries/physics/nrlmsise-00.cpp:268-287 | whole intervals plus the part up to x start at 0, and at a knot the interval left of it and the one right of it give the same |
| SplineEvaluation.PieceOfCubic | libraries/physics/nrlmsise-00.cpp:276-323 | on values of a cubic a piece is that cubic, and its area the exact integral from the left end |
| SplineEvaluation.IntegralOfCubic | libraries/physics/nrlmsise-00.cpp:268-287 | on values of a cubic, a line among them, the integral from the first knot is exact |
| SplineUniqueness.CubicIsItsSpline | libraries/physics/nrlmsise-00.cpp:258-374 | the spline through points of a cubic with its end slopes is the cubic, in second derivatives, values and integrals |
| SplineEvaluation.Splini | libraries/physics/nrlmsise-00.cpp:258-288 | the integral from the first knot to x, 0 to the left of it, and exact on values of a cubic |
| Series.BackDiffIsSum | libraries/math/mathlib.cpp:1296-1315 | a backward difference is the alternating binomial sum |
| Series.ProductAssociative | libraries/math/mathlib.cpp:1317-1354 | truncated products of series can be regrouped |
| GaussJackson.Kernel.constructor | libraries/math/mathlib.cpp:1214-1376 | every row of alpha and beta is the given row of the difference table over its top row, with the series and their sums filled; the binomial table is filled without overflow if and only if the order is at most 32 |
| GaussJackson.Kernel.FillBinom | libraries/math/mathlib.cpp:1296-1315 | up to order 32 the table holds C(i, m) at (m, i), in place; from order 33 on an addition overflows |
| Series.BinomFitsInt32 | libraries/math/mathlib.cpp:1227-1315 | all C(i, m) with i and m up to n are below 2^31 if and only if n is at most 33 |
| Series.BinomIsQuotient | libraries/math/mathlib.cpp:1296-1315 | the rule of the table gives C(i, m) m! (i - m)! = i! |
| GaussJackson.Kernel.FillSeries | libraries/math/mathlib.cpp:1317-1373 | c and q are the two series, gam and lam their partial sums |
| GaussJackson.CSeries | libraries/math/mathlib.cpp:1317-1325 | the loop computes c |
| GaussJackson.QSeries | libraries/math/mathlib.cpp:1346-1354 | the loop computes q |
| GaussJackson.RunningSums | libraries/math/mathlib.cpp:1327-1331 | gam and lam are the partial sums |
| GaussJackson.FillTable | libraries/math/mathlib.cpp:1333-1344 | the rows from the top down |
| GaussJackson.CInvertsHarmonic | libraries/math/mathlib.cpp:1317-1325 | c times the series 1/(k+1) is the unit series |
| GaussJackson.QIsSquare | libraries/math/mathlib.cpp:1346-1354 | q is c times c |
| GaussJackson.QInvertsHarmonicTwice | libraries/math/mathlib.cpp:1346-1354 | q times that series twice is the unit series |
| GaussJackson.RowsAreDifferences | libraries/math/mathlib.cpp:1333-1344 | row order - k holds the k-th backward differences of the top row, zeros before it |
| GaussJackson.RowsInClosedForm | libraries/math/mathlib.cpp:1333-1344 | the same as alternating binomial sums |
| GaussJackson.Weight | libraries/math/mathlib.cpp:1538-1545 | the weight of one ordinate in one row |
| GaussJackson.Step | libraries/math/mathlib.cpp:1534-1549 | all weights, last ordinate first, with the extra half of the row's own ordinate |
| GaussJackson.OrdinateForm | libraries/math/mathlib.cpp:1534-1549 | weighting the ordinates is weighting the backward differences at the last point |
| GaussJackson.RowAgrees | libraries/math/mathlib.cpp:1534-1549 | for every order, row and sequence both forms give the same sum |
| GaussJackson.RowAgreesWithHalf | libraries/math/mathlib.cpp:1545-1547 | for b the ordinate form has half of the row's own ordinate more, and no more for the row beyond the last |
| GaussJackson.StepAgrees | libraries/math/mathlib.cpp:1534-1549 | row by row the weights of a step against any values are the coefficients of the kernel against their backward differences |
| Exactness.SlopeByDifferences | libraries/math/mathlib.cpp:1317-1325 | the derivative of a polynomial is the sum of its k-th backward differences over k, which is what c inverts |
| Exactness.Compose | libraries/math/mathlib.cpp:1317-1354 | a series in the differences of a derivative is its product with 1/(k+1) in those of the polynomial |
| Exactness.CSumsToDifference | libraries/math/mathlib.cpp:1317-1325 | c in the backward differences of a derivative gives the first difference of the polynomial |
| Exactness.QSumsToDifference | libraries/math/mathlib.cpp:1346-1354 | q in those of a second derivative gives the second difference |
| IntegratorSums.RowReaches | libraries/math/mathlib.cpp:1333-1376 | row j of a table on the differences at the last point is its top row on those at point j |
| IntegratorSums.WeighPosition | libraries/math/mathlib.cpp:1534-1549 | the weights a of row j, the predicting one included, give the sum of row `order` of alpha at point j |
| IntegratorSums.WeighVelocity | libraries/math/mathlib.cpp:1534-1549 | the same for b and beta, with half of the value at the point, or all of it for the predicting row |
| Integrator.Instance.constructor | libraries/math/mathlib.cpp:1445-1485 | every step of every axis starts with the weights of its own row and zeros |
| Integrator.Instance.SetStep | libraries/math/mathlib.cpp:1591-1610 | time, position and derivatives of one step of all axes; an error beyond order + 2, and an access outside the steps if and only if the index is negative or order + 2 |
| Integrator.Instance.Preset | libraries/math/mathlib.cpp:1669-1741 | for every force and state: n plain passes, 1 <= n <= 10, where none before the n-th left the last step within 1e-14, and the n-th did or is the tenth |
| IntegratorSpec.PassesEnd | libraries/math/mathlib.cpp:1671-1741 | the loop with its flag and its counter ends after exactly that pass |
| IntegratorSwing.TenPasses | libraries/math/mathlib.cpp:1669-1741 | a body on a spring, order 2: all ten passes are made, the last still moves, and -7/13 is missed by a twelfth to the tenth of it |
| Integrator.Instance.PassOnce | libraries/math/mathlib.cpp:1672-1740 | all sums from the middle outwards, then position, velocity and force of the steps around it; the flag tells of the last step only |
| Integrator.SumAxis | libraries/math/mathlib.cpp:1672-1711 | the sums of one axis; of an odd order the last step is left out |
| Integrator.Instance.Extrapolate | libraries/math/mathlib.cpp:1750-1824 | as many steps as the distance to the target asks for, each predicted, completed by the force and moved down |
| Integrator.Instance.OneChunk | libraries/math/mathlib.cpp:1780-1822 | one step of all axes |
| IntegratorProofs.WeightsComplete | libraries/math/mathlib.cpp:1679-1711 | the weights complete the sums to the position and the velocity of the path at every step and the next one |
| IntegratorProofs.Predicts | libraries/math/mathlib.cpp:1786-1811 | from any second derivatives and any sums of the last step, the step predicted lies on the path that they determine |
| IntegratorProofs.ExtrapolationIsExact | libraries/math/mathlib.cpp:1778-1823 | after any number of steps all positions, velocities, accelerations and sums are those of the polynomial paths |
| IntegratorProofs.PassesKeep | libraries/math/mathlib.cpp:1669-1741 | passes over values on the paths keep them and set their sums |
| IntegratorProofs.PresetCompletes | libraries/math/mathlib.cpp:1669-1741 | the preset starts the integrator on the paths if and only if the order is even or the last step had its sums already |
| IntegratorProofs.RunIsExact | libraries/math/mathlib.cpp:1645-1824 | for an even order values on the paths, preset and extrapolated any number of steps, stay on the paths |
| IntegratorLimits.OddOrderIsIncomplete | libraries/math/mathlib.cpp:1684-1700 | for every odd order the preset of a uniform motion leaves the last step of a new instance without its sum |
| IntegratorProofs.FilledIsGiven | libraries/math/mathlib.cpp:1445-1610 | a new instance whose steps are set one by one to values on the paths is what the exactness results start from, with all sums 0 |
| IntegratorLimits.NewInstanceStarts | libraries/math/mathlib.cpp:1645-1742 | the preset starts every new instance filled with values on polynomial paths if and only if the order is even |
| IntegratorCorrection.PresetCorrects | libraries/math/mathlib.cpp:1669-1741 | under a force of time alone, with the middle step right, the preset starts the integrator on the paths if and only if the last step of an odd order was right with its sums, and all second derivatives were right or the last one wrong by more than 1e-14 |
| IntegratorCorrection.StopsTooEarly | libraries/math/mathlib.cpp:1727-1741 | for every even order from 2 on, one wrong second derivative at the first step is left in the sums |
| IntegratorLimits.TargetReached | libraries/math/mathlib.cpp:1777-1823 | the middle step ends at most half a step from the target, if that does not lie further back |
| IntegratorLimits.WeightsMove | libraries/math/mathlib.cpp:1814-1816 | after n steps step j has the weights of row j + n, or of the last row |
| IntegratorLimits.PresetOnlyAtTheStart | libraries/math/mathlib.cpp:1645-1824 | for every even order, preset, n steps and a second preset are right on all polynomial paths if and only if n is 0 |
| Events.CounterCountsTrues | libraries/agent/event.cpp:158-174 | the counter grows by one each time the condition holds |
| Events.ConditionNeedsTotalCount | libraries/agent/event.cpp:158-174 | the answer is true if and only if the condition holds now and has held as often in all as the priority asks |
| Events.FlickeringConditionFires | libraries/agent/event.cpp:158-174 | a condition that never holds twice in a row fires at every priority |
| QueueCounter.LeftInFields | libraries/agent/command_queue.cpp:141-244 | field by field what a pass leaves of an event: only counter, date of execution and the bits 15 and 18 change, and when |
| QueueCounter.RecordInFields | libraries/agent/command_queue.cpp:155-236 | field by field what is recorded of an event that runs |
| QueueCounter.HandedInFields | libraries/agent/command_queue.cpp:176-179 | what is handed over is that, before bit 18 is set |
| QueueCounter.CounterOverRuns | libraries/agent/command_queue.cpp:137-440 | over every run the counter of an event is what it was plus the passes that reached it due, not solo and conditional with its condition holding, mod 2^32; all fields but three are as they were |
| QueueCounter.CounterSinceAdded | libraries/agent/command_queue.cpp:137-440 | the same from the operation that added it |
| QueueCounter.FiresByTotalCount | libraries/agent/event.cpp:158-174 | over every run a reached, due, conditional event added with counter 0 runs if and only if its condition holds now, has held in as many passes in all as its priority asks, and it is not a repeating event still marked as run |
| QueueCounter.FourPasses | libraries/agent/command_queue.cpp:155-218 | priority 1 and a condition that holds, holds, fails, holds: it runs in the second and the fourth pass |
| CommandQueues.CommandQueue.constructor | libraries/agent/command_queue.h:54-66 | an empty queue that is not blocked |
| CommandQueues.CommandQueue.RunCommands | libraries/agent/command_queue.cpp:137-247 | the loop with erase(ii--) leaves queue, history, mark and handovers as the specified pass does, and keeps the history the last ten of all that ever ran |
| CommandQueues.CommandQueue.Visit | libraries/agent/command_queue.cpp:141-244 | the event at hand stays, changes or goes, is recorded and handed over as its flags, its date and its condition ask, and says whether the pass ends |
| CommandQueues.CommandQueue.Execute | libraries/agent/command_queue.cpp:58-124 | commands and requests are marked, stamped and handed over, other types are not |
| CommandQueues.CommandQueue.Remember | libraries/agent/command_queue.cpp:179-183 | the history stays the last ten |
| CommandQueues.CommandQueue.AddCommand | libraries/agent/command_queue.cpp:426-440 | an event of the same name is replaced where it stands, and 0 returned; otherwise the event comes last, and 1 |
| CommandQueues.CommandQueue.DelCommand | libraries/agent/command_queue.cpp:392-406 | all equal events go, at most one, and the number is returned |
| CommandQueues.CommandQueue.Weed | libraries/agent/command_queue.cpp:394-401 | the loop with erase(ii--) takes out all equal events and leaves the others in order |
| CommandQueues.CommandQueue.DelCommandAt | libraries/agent/command_queue.cpp:415-424 | the event at the position goes |
| CommandQueues.CommandQueue.SortCommands | libraries/agent/command_queue.h:217 | the queue is in order of time, holds the same events, and events of one time stay as they were |
| QueueProofs.WhoRuns | libraries/agent/command_queue.cpp:141-244 | the events to run are those due, not solo, and unconditional or firing, unless an earlier one fires |
| QueueProofs.PassRuns | libraries/agent/command_queue.cpp:137-247 | a pass runs exactly those, once each and in queue order |
| QueueProofs.PassLeaves | libraries/agent/command_queue.cpp:137-247 | every other event is left, in order |
| QueueProofs.RanIsGone | libraries/agent/command_queue.cpp:137-247 | what ran is what left the queue, in order, then the repeating event that ended the pass, if one did |
| QueueProofs.ConditionalRunsLast | libraries/agent/command_queue.cpp:165-218 | at most one conditional event runs in a pass, as the last |
| QueueProofs.Handovers | libraries/agent/command_queue.cpp:176-236 | commands and requests that ran are handed over in order, with log dates a tenth of a second apart |
| QueueProofs.ChangesExactly | libraries/agent/command_queue.cpp:137-247 | a pass leaves another queue if and only if it takes out or changes one of the events it reaches |
| QueueProofs.DeletesAtMostOne | libraries/agent/command_queue.cpp:392-406 | with unique names a deletion takes one event out if an equal one is there, else none |
| QueueProofs.SameExactly | libraries/agent/event.cpp:105-115 | two events are equal if and only if they differ in time-out and counter at most |
| QueueSort.SortedIsStableSort | libraries/agent/command_queue.h:217 | the result is in order, is a permutation, and keeps events of one time as they were |
| QueueSort.StableSortIsUnique | libraries/agent/command_queue.h:217 | nothing else is, so that any stable sort gives it |
| QueueSort.BeforeIsLexicographic | libraries/agent/command_queue.h:217 | the order of the texts: a proper beginning, or smaller where they first differ |
| QueueRuns.NamesAreAlwaysUnique | libraries/agent/command_queue.cpp:137-440 | over every run from the empty queue names stay unique |
| QueueRuns.OrderLasts | libraries/agent/command_queue.cpp:137-424 | after a sort the queue stays in order through passes and deletions |
| QueueRuns.BetweenTwoRuns | libraries/agent/command_queue.cpp:155-218 | between two runs of one name it was added again, or a pass found its condition false |
| QueueRuns.SoloNeverRuns | libraries/agent/command_queue.cpp:141-152 | no solo event runs on any run |
| QueueRuns.PassMarksExecutables | libraries/agent/command_queue.cpp:58-124 | a pass marks the queue as changed if and only if one of the events to run is a command or a request |
| QueueRuns.MarksExactly | libraries/agent/command_queue.cpp:58-440 | additions and deletions always mark the queue as changed, a sort never does, and no operation takes the mark away |
| QueueRuns.UnmarkedChange | libraries/agent/command_queue.cpp:110-247 | a pass changes an unmarked queue without marking it if and only if no command or request is to run and it takes out or changes an event that it reaches |
| QueueRuns.OtherTypesLeaveUnmarked | libraries/agent/command_queue.cpp:222-240 | the smallest case: one event of another type that runs and goes leaves the queue empty and unmarked |
| MessageRing.AlwaysSound | libraries/agent/agentclass.cpp:1037-1045 | under every interleaving, with any number of readers, accepted messages are those gone and then those queued, in order; the queue never exceeds its size; each reader pops only what does not match until it finds |
| MessageRing.OneReaderNeverUnderflows | libraries/agent/agentclass.cpp:3915-3953 | a single reader never calls front() on an empty queue |
| MessageRing.FirstMatchIsFound | libraries/agent/agentclass.cpp:3915-3953 | it returns the first match accepted since its call or its clearing, and only what was before it is lost |
| MessageRing.HeadFinds | libraries/agent/agentclass.cpp:3919-3953 | a call for the head empties the queue, and finds the first match of what was accepted after that |
| MessageRing.TailFinds | libraries/agent/agentclass.cpp:3915-3953 | a call for the tail finds the first match of what was in the queue at the call and what was accepted since |
| MessageRing.HeadDrops | libraries/agent/agentclass.cpp:3919-3953 | a matching message that waits in the queue is dropped by a call for the head, which then times out |
| MessageRing.DroppedWhenFull | libraries/agent/agentclass.cpp:1037-1045 | a message that arrives is dropped if and only if the queue holds 10000 |
| MessageRing.FoundIsLast | libraries/agent/agentclass.cpp:3915-3953 | the message found is the last one accepted if and only if none is left in the queue |
| MessageRing.LastOnlyIfNoOther | libraries/agent/agentclass.cpp:3904-3953 | without a push during the call the message found is the last of the ring at the call if and only if no other in it matches |
| MessageRing.FirstOfTwo | libraries/agent/agentclass.cpp:3904-3953 | of two matching messages the first is returned, and the second stays |
| MessageRing.TimedOutFoundNothing | libraries/agent/agentclass.cpp:3915-3953 | when its call times out it has taken all that left the queue since its call, and none of it matched |
| MessageRing.UnderflowExactly | libraries/agent/agentclass.cpp:3915-3953 | front() on an empty queue can be reached if and only if there are two readers or more |
| MessageRing.TwoReadersCanUnderflow | libraries/agent/agentclass.cpp:3932-3938 | from every start with two readers or more it can be reached |
| Chunking.PushResponse | libraries/agent/agentclass.cpp:4578-4629 | the packets are the pieces of what 255 chunks can hold, numbered from 0, each with the number of all; no offset wraps if and only if the chunks together fit 65535 bytes |
| Chunking.ChunkRange | libraries/agent/agentclass.cpp:4615-4620 | the offsets are right until the end of a chunk wraps, and then it lies before the begin |
| Chunking.CountIsPieceCount | libraries/agent/agentclass.cpp:4602-4609 | the number in the header is the number of pieces |
| Chunking.PayloadsAreTheResponse | libraries/agent/agentclass.cpp:4611-4628 | the payloads glued together are the response, cut at 255 chunks; all but the last are full, none is empty |
| Chunking.SafeChunkSizes | libraries/agent/agentclass.cpp:4600-4620 | every response fits if and only if a chunk holds at most 257 bytes |

## Left out

- Floating point: rounding, infinities and not-a-number are not modelled; a division by zero is a separate
  result. The means and standard deviations that `fit` also computes need a square root and are left out.
- Loops that do not end: `calc_crc16` counts with a `uint16_t`, so messages of more than 65535 bytes are
  excluded for it.
- SlidingFit.LsFit.Update: for orders of 32768 and more a fit never ends, for the same reason; an update that
  makes one is excluded.
- LinearSolve.Multisolve: its search for a row never ends for 65536 equations and more, which are excluded.
- Polyfit.Fit: the same for 65536 points and more.
- Polyfit.FitMany: the same.
- Polyfit.EvaluatePoly: its counter never ends for 65536 coefficients and more, which are excluded.
- Derivatives.EvaluateDerivative: for order 65535 its factor loop never ends, which is excluded.
- The layout of `packet_header` in memory: its fields are taken as 16 bytes in their declared order.
- Flags other than 0x7E in the round trip: `Stuff` and `Unstuff` are proved for every flag against the
  bit-level description, the round trip is for 0x7E.
- BufferedRead.ReadBuffer.Read: every read succeeds; a failed `fseek` or `fread` is not modelled.
- The fields `already_ran` and `event_string` are written but not read by the code modelled. JSON and files of
  commands, task lists and shells are not modelled; `json_equation` is an answer given from outside.
- Events are values in a sequence here; the list of the source changes them in place.
- CommandQueues.CommandQueue.RunCommands: the node's `lastevent` fields are not modelled.
- CommandQueues.CommandQueue.SortCommands: the sort of `std::list` is library code and is taken as the one
  stable sort there is; the text of a date is any function of it. (For a date of 0 the source takes the clock.)
- `save_commands`, `restore_commands` and `load_commands` only move events between files and the queue.
- In front of the message queue: polling, heartbeats and messages that are answered at once never enter the
  queue; a missing `cinfo` makes `readring` return an error before it touches the queue.
- Chunking.PushResponse: a chunk size of 0, by which the source would divide, is excluded.
- CommandQueues.CommandQueue.DelCommandAt: a position outside the queue is undefined in the source, and excluded.
- Of the header of a chunk only the chunk numbers are modelled; `channel_push` is left out.
- Integrator.Instance.constructor: one instance at a time, with room for it; `preset` and `extrapolate` keep the
  largest number of axes they were ever called with in a static variable.
- Integrator.Instance.SetStep: what an access outside the steps does is undefined; the state then stays as it is.
  `getstep` would add only an easy member.
- Integrator.Instance.Extrapolate: a step size of 0 and a number of steps beyond 32 bits are excluded.
- The other overloads of the `calc_crc16` family, the vector and quaternion copies of `evaluate_poly`, and
  `drotate` and its like would add only easy members.
- Channels, packets, sockets, agents' requests and the rest of NRLMSISE-00.
