# Verified models of the benchmark kernels and trace utilities

This project models, in Dafny, the algorithmic core of the repository: the FFT, Dijkstra, SUSAN and
parallel SUSAN benchmarks, and three gem5 utilities (the pipeline viewer, the checkpoint upgrader and
the protobuf framing library). `dafny verify dfyconfig.toml` checks all of it.

How the modules fit together:

- **FFT** (`Complex`, `Dft`, `InverseDft`, `FourierMisc`, `Fourier`, `FftFloat`). `fft_float` is a
  method on arrays, in exact arithmetic. It is proved equal to the textbook sum for every power-of-two
  length and both directions, with the sign of the angle written out, and the inverse transform is proved to undo the forward one. Sine and
  cosine are any functions with the usual laws.
- **Dijkstra** (`Graph`, `PoolQueue`, `Labels`, `Dijkstra`). The pooled linked list refines a FIFO
  queue. The label-correcting search ends, with true shortest distances, an acyclic predecessor tree at
  every moment, and printable paths that weigh what the labels say.
- **SUSAN** (`Usan`, `Corners`, `EdgeMarking`, `Connectivity`, `SimplePoint`, `Thinning`, `ThinStep`,
  `ThinScan`, `Grids`). Responses, with or without early exit, and edge directions are stated over the
  moments of a disc around the pixel; the corner list is exactly the local maxima in raster order.
  `ThinStep` says what one step of thinning does in terms of the neighbours of a pixel. Marking and
  thinning keep the edge map well formed, stay inside the image and never break the 8-connectivity of
  surviving pixels or lose a component of two or more. Images are two-dimensional arrays.
- **Parallel SUSAN** (`Barrier`, `Phases`, `WorkShares`, `ParallelConvert`, `ParallelEnlarge`,
  `ParallelCorners`, `CornerOverflow`). The barrier is a state machine over the statements of its
  source. A program whose threads keep to their own data between barriers ends with one result under
  every interleaving, and the three parallel routines are shown to be such programs with the result of
  the sequential ones.
  `CornerOverflow` gives an image on which the merged corners leave their list.
- **gem5 utilities** (`PipeView`, `CheckpointUpgrader`, `ProtoFraming`; `Division` and `Options` are
  shared). The bounded print buffer sorts globally under a condition on disorder that is shown to be
  exact. The upgrader applies tags in dependence order and fails exactly on cycles. Framed messages are
  read back exactly when none is empty and all lengths fit in 32 bits.

Where code and comments differ the code is followed: the corner lists stop at 150 entries
(`MAX_CORNERS`), an empty protobuf message ends the reading of a stream, and the barrier has no loop
around its condition wait, so spurious wakeups are assumed away; they are shown to be harmless exactly
for a single thread or no round.

## Model

| member | source | states |
|---|---|---|
| Dft.Decimation | benchmarks/fft/fourierf.c:117-125 | each DFT coefficient is the even-sample coefficient plus the twiddled odd-sample one, for every sequence and every point |
| Dft.HalfTurn | benchmarks/fft/fourierf.c:121-125 | a root of unity of order 2^k raised to 2^(k-1) is -1, which is why one product serves both halves |
| Dft.ButterflyIsDft | benchmarks/fft/fourierf.c:107-126 | a butterfly over the half-size DFTs of the even and odd samples is the DFT of all samples |
| InverseDft.BackwardHalves | benchmarks/fft/fourierf.c:64-65 | the backward transform of a spectrum reduces to twice that of one half of the samples |
| InverseDft.BackwardAfterForward | benchmarks/fft/fourierf.c:64-65 | backward after forward is the input times its length, the orthogonality of the roots |
| FourierMisc.IsPowerOfTwoCorrect | benchmarks/fft/fftmisc.c:35-44 | the bit trick accepts exactly 2, 4, 8, ... |
| FourierMisc.NumberOfBitsNeeded | benchmarks/fft/fftmisc.c:47-66 | fails below 2, otherwise finds the lowest one bit, which for 2^k is k |
| FourierMisc.ReverseBits | benchmarks/fft/fftmisc.c:70-81 | the shifting loop computes the reversal of the low bits |
| FourierMisc.ReversalTopBit | benchmarks/fft/fftmisc.c:70-81 | seen from the other end, the top bit of an index becomes the lowest bit of its reversal |
| FourierMisc.ReversalInvolution | benchmarks/fft/fourierf.c:77-82 | reversing twice is the identity, so the copy is a permutation |
| Fourier.RootIsRoot | benchmarks/fft/fourierf.c:91-95 | the angle of each stage gives a root of unity of the order of its block size, in both directions |
| Fourier.ReversedCopyIsBlocks | benchmarks/fft/fourierf.c:77-82 | the bit-reversed copy holds the size-1 transforms of the fully split input |
| Fourier.StageBlock | benchmarks/fft/fourierf.c:99-127 | a stage acts on each aligned block as one butterfly of that block |
| Fourier.StageAdvances | benchmarks/fft/fourierf.c:89-130 | if all blocks of size B hold DFTs of the strided subsequences, then after the stage so do all blocks of size 2B |
| Fourier.RoundTrip | benchmarks/fft/fourierf.c:132-145 | inverse after forward, and forward after inverse, returns every input of power-of-two length |
| Fourier.TransformEntry | benchmarks/fft/fourierf.c:51-65 | entry m of the result is the DFT sum at the point with angle +2*pi/N forward, and at the point with angle -2*pi/N, times 1/N, for the inverse |
| Fourier.DftIsTurnedSum | benchmarks/fft/fourierf.c:91-126 | the DFT sum at angle a is the sum of the samples, sample i turned by the angle i*m*a |
| Fourier.ImpulseResponse | benchmarks/fft/fourierf.c:51-65 | forward, a unit impulse at index p gives (cos(2*pi*p*m/N), sin(2*pi*p*m/N)) at every m |
| FftFloat.CopyReversed | benchmarks/fft/fourierf.c:77-82 | the output arrays hold the start of the stages; a missing imaginary input counts as zero |
| FftFloat.TwiddleStep | benchmarks/fft/fourierf.c:109-115 | the three-term recurrence yields the next power of the root |
| FftFloat.ButterflyBlock | benchmarks/fft/fourierf.c:99-127 | the in-place inner loop performs one butterfly on its block and leaves the rest alone |
| FftFloat.RunStage | benchmarks/fft/fourierf.c:89-130 | one value of BlockSize turns the arrays into the next stage, with the root at angle 2*pi/BlockSize forward and -2*pi/BlockSize for the inverse |
| FftFloat.Normalize | benchmarks/fft/fourierf.c:136-145 | every entry is divided by the number of samples |
| FftFloat.FftFloat | benchmarks/fft/fourierf.c:39-146 | refuses exactly lengths that are no power of two and missing arrays, leaving the output alone; otherwise every entry m is the sum over i of x[i] times the power i*m of the point at angle 2*pi/N, with the negated angle and the factor 1/N for the inverse |
| Graph.LightGraphs | benchmarks/dijkstra/dijkstra.c:95-138 | if (N-1) times the largest weight is below the sentinel, no simple path weighs as much as the sentinel |
| PoolQueue.FollowChain | benchmarks/dijkstra/dijkstra.c:42-70 | following the links lists neighbouring pool slots in order and then ends |
| PoolQueue.Queue.ContentsAreSlots | benchmarks/dijkstra/dijkstra.c:42-93 | the count is the length, the head is null exactly when the queue is empty, and the newest slot is the tail |
| PoolQueue.Queue.Enqueue | benchmarks/dijkstra/dijkstra.c:42-70 | appends one entry to the abstract FIFO and takes one pool slot |
| PoolQueue.Queue.Dequeue | benchmarks/dijkstra/dijkstra.c:73-87 | hands over the first entry and drops it; does nothing on an empty queue |
| PoolQueue.Queue.QCount | benchmarks/dijkstra/dijkstra.c:90-93 | the counter is the length of the queue |
| Labels.RelaxExtends | benchmarks/dijkstra/dijkstra.c:119-127 | a label written by relaxing is the weight of a simple path from the start, so it is never the sentinel |
| Labels.RelaxAcyclic | benchmarks/dijkstra/dijkstra.c:124-125 | redirecting a predecessor link never closes a cycle, even with zero weights and stale queue entries |
| Labels.RelaxLinks | benchmarks/dijkstra/dijkstra.c:124-125 | every link stays an edge that the label pays for, and the start is never relabelled |
| Labels.NoWorkMeansShortest | benchmarks/dijkstra/dijkstra.c:114-130 | with an empty queue every label is the minimum over all walks, and unlabelled nodes are unreachable |
| Labels.NoWorkMeansTight | benchmarks/dijkstra/dijkstra.c:114-130 | with an empty queue every link is tight |
| Dijkstra.RelaxWrites | benchmarks/dijkstra/dijkstra.c:121-126 | what a relaxation writes lowers its label to the weight of a simple path from the start, below the sentinel |
| Dijkstra.RelaxInv | benchmarks/dijkstra/dijkstra.c:117-129 | one relaxation keeps the whole search invariant, is a good write and lowers the sum of the labels |
| Dijkstra.ExtendRun | benchmarks/dijkstra/dijkstra.c:124-126 | one more good write that leaves the links acyclic extends the history of the labels |
| Dijkstra.PrintedPathIsShortest | benchmarks/dijkstra/dijkstra.c:33-40 | print_path ends from every labelled node and visits a path from the start that weighs exactly the label |
| Dijkstra.EmptyQueueSolves | benchmarks/dijkstra/dijkstra.c:114-131 | invariant and empty queue give shortest distances and printable paths for all nodes |
| Dijkstra.Search.ScanNode | benchmarks/dijkstra/dijkstra.c:117-129 | the loop over neighbours keeps the invariant; every enqueue is paid for by a drop in the sum of labels, and replaying the cells taken since the call began gives the labels, acyclic after every write |
| Dijkstra.Search.Dijkstra | benchmarks/dijkstra/dijkstra.c:95-138 | ends with shortest distances and an empty queue after at most 1+(N-1)*NONE enqueues; the labels are exactly what replaying the enqueued cells gives, and after each of these writes the links are acyclic and the written label has dropped to the weight of a simple path |
| Usan.PointerWalk | benchmarks/susan/susan.c:470-521 | the pixel pointer arithmetic visits exactly the 36 offsets of the mask around the centre |
| Usan.SumIsDisc | benchmarks/susan/susan.c:470-521 | what the 36 visits accumulate is the moment over all pixels (dy,dx) with 0 < dy*dy+dx*dx <= 10, each counted once |
| Usan.ResponseExact | benchmarks/susan/susan.c:520-524 | the plain response is max_no less the area of the centre and that disc, or zero if the area is not below max_no |
| Usan.SumGrows | benchmarks/susan/susan.c:1752-1796 | partial areas only grow, so an early exit cannot lose a response |
| Usan.PlainResponse | benchmarks/susan/susan.c:466-525 | the plain response is max(0, max_no - area), where the area is 100 and the similarities over the disc |
| Usan.EarlyExitResponse | benchmarks/susan/susan.c:1722-1798 | the nested tests give the same plain response for every image and non-negative table |
| Usan.GradientPixelExact | benchmarks/susan/susan.c:1578-1589 | the k-th pixel along the gradient is exactly the one k steps along the longer component and nearest to the ray along the shorter, halves rounded away from zero |
| Usan.GradientPixel | benchmarks/susan/susan.c:1578-1589 | the k-th pixel lies within k rows and k columns, so all three are inside the 7x7 window |
| Usan.GradientSimilarity | benchmarks/susan/susan.c:1578-1589 | reads those three pixels from the image and sums their similarities to the centre |
| Usan.CornerResponseExact | benchmarks/susan/susan.c:1518-1597 | the full response is max_no less the area exactly where the area is below max_no, x*x+y*y > n*n/2 for the centre of gravity (x,y), and the similarities of the three pixels nearest to the ray towards it sum to more than 290; it is zero elsewhere |
| Usan.FullResponse | benchmarks/susan/susan.c:1444-1597 | positive exactly at a pixel with an area below max_no, a centre of gravity off centre and three pixels along the ray towards it whose similarities sum to more than 290; then it is max_no less the area |
| Usan.CornerResponse | benchmarks/susan/susan.c:1518-1597 | the full corner response is zero or the positive plain response |
| Corners.AllCornersExact | benchmarks/susan/susan.c:1599-1702 | the list is, in raster order, exactly the positive responses inside the margin that no pixel in the 7x7 window exceeds and no earlier one there equals |
| Corners.LocalMaxIsPeak | benchmarks/susan/susan.c:1634-1689 | the 48 comparisons say just that |
| Corners.CornersApart | benchmarks/susan/susan.c:1634-1689 | any two reported corners are more than three apart in row or column |
| Corners.SomeCorner | benchmarks/susan/susan.c:1634-1689 | if any response is positive, the raster-first of the highest pixels is reported |
| Corners.FindCorners | benchmarks/susan/susan.c:1599-1702 | the scan fills the list with exactly these peaks in raster order, or stops the program when there are MAX_CORNERS of them |
| Corners.CornersQuick | benchmarks/susan/susan.c:1712-1919 | inside the margin responses are max(0, max_no - area) and outside they are zero, and the list is their peaks in raster order |
| Corners.SusanCorners | benchmarks/susan/susan.c:1429-1707 | inside the margin responses are max_no less the area where the three conditions on a corner hold, everywhere else they are zero, and the list is their peaks in raster order |
| EdgeMarking.MarkedOnce | benchmarks/susan/susan.c:1255-1257 | of two pixels one or two steps apart across an edge at most one is highest, even on a plateau |
| EdgeMarking.AcrossExact | benchmarks/susan/susan.c:1164-1254 | in integers over the moments of the disc: from the centre of gravity (x,y) the direction is (0,1) iff 2*abs(y) < abs(x), (1,0) iff abs(y) > 2*abs(x), else the diagonal with the sign of x*y; from the second moments (0,1) iff 2*xx < yy, (1,0) iff yy is zero or xx > 2*yy, else the diagonal against the sign of xy |
| EdgeMarking.VerticalEdge | benchmarks/susan/susan.c:1164-1177 | where pixels depend on the column only and the centre of gravity decides, responses are compared along the row |
| EdgeMarking.HorizontalEdge | benchmarks/susan/susan.c:1164-1177 | where pixels depend on the row only and the centre of gravity decides, responses are compared along the column |
| EdgeMarking.TransposeExchanges | benchmarks/susan/susan.c:1164-1254 | transposing the image exchanges the two straight directions and keeps the diagonals, except at a pixel without second moments, where both give (1,0) |
| EdgeMarking.MarkedExact | benchmarks/susan/susan.c:1164-1257 | the mark of a pixel in terms of the image: positive response, higher than the two ahead and not lower than the two behind in the direction that the moments give |
| EdgeMarking.FindDirection | benchmarks/susan/susan.c:1100-1254 | the direction across the edge is the one that the comparisons of the moments over the disc call for, and the mark is 1 or 2 by which moments decided |
| EdgeMarking.MarkPixel | benchmarks/susan/susan.c:1100-1260 | a pixel is marked exactly when its response is positive, higher than the two ahead and not lower than the two behind in that direction |
| EdgeMarking.SusanEdges | benchmarks/susan/susan.c:1029-1261 | response and mark of every pixel, both written out in terms of the image; the map is well formed with positive responses under all marks |
| EdgeMarking.DetectEdges | benchmarks/susan/susan.c:2028-2036 | the responses and the marks of the image, pixel by pixel, and then the map after any number of thinning steps, each of them as ThinStep describes it |
| Connectivity.Reroute | benchmarks/susan/susan.c:992-1020 | a path can be led around a removed pixel whose neighbours stay connected |
| Connectivity.RemovingKeeps | benchmarks/susan/susan.c:992-1020 | removing such a pixel keeps all remaining connections |
| SimplePoint.OneComponentJoins | benchmarks/susan/susan.c:994-1019 | when the counting test succeeds, all neighbours are connected to each other without the pixel |
| SimplePoint.OneComponentExact | benchmarks/susan/susan.c:994-1011 | the counting test succeeds if and only if the neighbours hang together among themselves |
| Thinning.RemoveIsolated | benchmarks/susan/susan.c:849-852 | removing an isolated pixel keeps connectivity |
| Thinning.ExtensionTarget | benchmarks/susan/susan.c:855-907 | a line is only ever extended to a non-edge pixel with positive response |
| Thinning.ExtendAdds | benchmarks/susan/susan.c:855-907 | extension keeps the map well formed and removes nothing |
| Thinning.StraightenKeeps | benchmarks/susan/susan.c:912-943 | moving a pixel between its two corner neighbours keeps connectivity and all other pixels |
| Thinning.RightAngleKeeps | benchmarks/susan/susan.c:975-987 | removing an odd right angle keeps connectivity |
| Thinning.ThinKeeps | benchmarks/susan/susan.c:992-1020 | removing a pixel with more than two neighbours keeps connectivity |
| Thinning.BodyOk | benchmarks/susan/susan.c:830-1023 | every step keeps the map in 1..6 or 100 over positive responses, keeps connectivity, removes at most the pixel it looks at and stays inside |
| Thinning.OnlyLonePixelsVanish | benchmarks/susan/susan.c:830-1023 | a removed pixel is the visited one and was alone, or it leaves two neighbours that are connected without it |
| ThinStep.RemovableExact | benchmarks/susan/susan.c:992-1011 | the test for removal succeeds if and only if two neighbours share a side with the pixel and the neighbours form one piece |
| ThinStep.WeightsAre | benchmarks/susan/susan.c:859-886 | the table of weights is the angle to the neighbour that is present: opposite 4, half a right angle off 3, perpendicular 2, otherwise 0 |
| ThinStep.ExtendGrows | benchmarks/susan/susan.c:855-907 | a line end grows by the raster-first neighbour with the highest positive weighted response, with value 4 or one more than its own, and the scan goes back if that neighbour comes before; it stays as it is if there is none |
| ThinStep.PairSteps | benchmarks/susan/susan.c:912-990 | two neighbours: a pixel between two corners moves to the side between them iff the response there exceeds 0.7 of its own and the three places beyond are clear; an odd right angle goes; nothing else changes |
| ThinStep.OddAngleExact | benchmarks/susan/susan.c:975-987 | the odd right angle is two neighbours that share a side with the pixel at a right angle, one of the lines turning off behind its neighbour |
| ThinStep.BodySteps | benchmarks/susan/susan.c:830-1022 | the loop body does, for every map and position, what the description by number of neighbours says: what goes, what moves, what is added and where the scan goes on |
| ThinStep.StepExact | benchmarks/susan/susan.c:830-1022 | that description has exactly one outcome |
| ThinScan.SurvivorsStayConnected | benchmarks/susan/susan.c:830-1023 | in every prefix of every scan, pixels that survive and start connected are connected at the end |
| ThinScan.ComponentsSurvive | benchmarks/susan/susan.c:830-1023 | in every prefix of every scan a component of two or more pixels still has two connected pixels that descend from any two it started with |
| ThinScan.ScanStaysInside | benchmarks/susan/susan.c:830-1023 | although it jumps back, the scan never leaves the part whose surroundings may be read |
| ThinScan.AfterIsRun | benchmarks/susan/susan.c:830-1023 | the states of a scan are linked by such steps, each followed by the next position in raster order |
| ThinScan.WeightedResponses | benchmarks/susan/susan.c:867-886 | the nine scores around a line end are the responses weighted by direction |
| ThinScan.FindHighest | benchmarks/susan/susan.c:888-891 | the double loop finds the first highest positive score |
| ThinScan.ExtendLine | benchmarks/susan/susan.c:855-907 | the in-place extension is the step function |
| ThinScan.StraightenLine | benchmarks/susan/susan.c:912-943 | the in-place straightening is the step function |
| ThinScan.ThinPair | benchmarks/susan/susan.c:912-990 | two-neighbour case in place; the divisor is positive |
| ThinScan.ThinCluster | benchmarks/susan/susan.c:992-1020 | more-than-two-neighbours case in place |
| ThinScan.ThinPixel | benchmarks/susan/susan.c:832-1022 | the loop body in place does exactly the step that the number and place of the neighbours call for, including its changes to the loop variables |
| ThinScan.SusanThin | benchmarks/susan/susan.c:819-1024 | after any number of steps the array is the last map of a run of such steps from the upper left, and still well formed |
| Barrier.NobodyLeavesEarly | benchmarks/susan-parallel/susan.c:439-450 | in every reachable state no thread has left a round that some thread has not entered, and none is more than one round ahead of another |
| Barrier.EverybodyIsReleased | benchmarks/susan-parallel/susan.c:439-450 | once all have entered a round, all are out or leaving, or the last one holds the mutex on its way to the broadcast |
| Barrier.RunsAreBounded | benchmarks/susan-parallel/susan.c:439-450 | P threads crossing R rounds execute at most P(8R+8) statements |
| Barrier.SomeThreadCanMove | benchmarks/susan-parallel/susan.c:439-450 | no deadlock in any reachable state |
| Barrier.StuckMeansDone | benchmarks/susan-parallel/susan.c:439-450 | a state in which nobody can move has taken every thread through all rounds |
| Barrier.RunsLead | benchmarks/susan-parallel/susan.c:439-450 | runs are among the runs with spurious wakeups |
| Barrier.SpuriousWakeupBreaksBarrier | benchmarks/susan-parallel/susan.c:442-444 | for two or more threads and at least one round, one spurious wakeup lets a thread leave a round that no other ever entered |
| Barrier.SafeWithWakeupsExactly | benchmarks/susan-parallel/susan.c:442-444 | the barrier is safe in all runs with spurious wakeups if and only if there is one thread or no round |
| Phases.EveryInterleavingAgrees | benchmarks/susan-parallel/susan.c:439-450 | threads that keep to their own data between barriers end, under every interleaving, with the memory of the phases done one after the other |
| Phases.InterleavingsAreFinite | benchmarks/susan-parallel/susan.c:439-450 | no interleaving of such a program is longer than a bound that does not depend on the schedule |
| Phases.EveryInterleavingCanFinish | benchmarks/susan-parallel/susan.c:439-450 | whatever has happened so far, some continuation takes all threads to the end |
| Phases.StuckIsFinished | benchmarks/susan-parallel/susan.c:439-450 | such a program never deadlocks |
| WorkShares.BlocksTile | benchmarks/susan-parallel/susan.c:643 | the block bounds give every index to exactly one thread |
| WorkShares.BlockSizes | benchmarks/susan-parallel/susan.c:643 | every thread gets n/P indices and the last one also the fewer than P left over |
| WorkShares.NegativeRangeIsEmpty | benchmarks/susan-parallel/susan.c:1907 | on images smaller than the margins the computed bounds leave every thread without rows |
| ParallelConvert.ScaledInRange | benchmarks/susan/susan.c:421-424 | scaled values lie in 0..255, with both ends reached |
| ParallelConvert.ScaledStretches | benchmarks/susan/susan.c:424 | the scaled value is (v-min)*255/range rounded down |
| ParallelConvert.ConvertedUnique | benchmarks/susan/susan.c:403-425 | the meaning of the conversion determines its output |
| ParallelConvert.IntToUchar | benchmarks/susan/susan.c:403-425 | with the extrema of r and their range, out[i]*range <= (r[i]-min)*255 < (out[i]+1)*range for every i |
| ParallelConvert.ParallelIntToUchar | benchmarks/susan-parallel/susan.c:628-676 | every interleaving of every number of threads gives an output with the same inequalities, so the sequential one |
| ParallelConvert.ParallelIntToUcharEnds | benchmarks/susan-parallel/susan.c:628-676 | every interleaving is finite and can be completed |
| ParallelEnlarge.Enlarge | benchmarks/susan/susan.c:605-631 | the image is copied inside the border, and the rows and columns of the border repeat those next to the edge in the opposite order |
| ParallelEnlarge.ParallelEnlargeAgrees | benchmarks/susan-parallel/susan.c:937-975 | every interleaving gives the same enlarged image and sizes, with the same reflections, where every iteration reads the shared sizes and thread 0 changes them |
| ParallelEnlarge.LateIterationGoesAstray | benchmarks/susan-parallel/susan.c:960-972 | an iteration over the columns that came after the change of the sizes would miss its pixel and write outside the image, which the third barrier prevents |
| ParallelEnlarge.ParallelEnlargeEnds | benchmarks/susan-parallel/susan.c:937-975 | every interleaving is finite and can be completed |
| ParallelCorners.MergingIsDisciplined | benchmarks/susan-parallel/susan.c:1906-2153 | no two threads touch the same response row, count or list entry within a phase |
| ParallelCorners.ParallelCornersAgree | benchmarks/susan-parallel/susan.c:1887-2155 | for images of every size, every interleaving leaves the sequential raster-order corners and then the info=7 terminator |
| ParallelCorners.MergingFitsExactly | benchmarks/susan-parallel/susan.c:2145-2153 | the memory behind the list stays untouched if and only if all corners together are fewer than MAX_CORNERS |
| CornerOverflow.ManyCorners | benchmarks/susan-parallel/susan.c:1906-2040 | on an image with a rows and b columns of short runs, the sequential program finds at least a times b corners |
| CornerOverflow.OverflowHappens | benchmarks/susan-parallel/susan.c:2135-2153 | an image, a number of threads and an interleaving in which no thread has too many corners and the memory behind the list is overwritten |
| ParallelCorners.ParallelCornersEnd | benchmarks/susan-parallel/susan.c:1887-2155 | every interleaving is finite and can be completed |
| PipeView.SortProps | gem5-20.1/util/o3-pipeview.py:152-153 | the queue sort orders by sequence number, keeps all members and is stable |
| PipeView.PrintsInOrderExactly | gem5-20.1/util/o3-pipeview.py:155-186 | the concatenated prints are in order, and are then the stable sort of the trace, if and only if every instruction had at most min_threshold larger ones at the last print before it arrived, the moments of the prints being given by the thresholds |
| PipeView.AlwaysFilled | gem5-20.1/util/o3-pipeview.py:157-169 | how full the queue is after any number of instructions, and when something was last taken out |
| PipeView.BufferSortsGlobally | gem5-20.1/util/o3-pipeview.py:155-186 | if nothing arrives behind more than min_threshold larger numbers, the concatenated prints are the sorted trace |
| PipeView.NothingLost | gem5-20.1/util/o3-pipeview.py:155-186 | for every trace each instruction is printed or filtered exactly once |
| PipeView.PrintedExactly | gem5-20.1/util/o3-pipeview.py:170-186 | an instruction is printed as often as it is in the trace if its number and fetch tick are inside all bounds that are set and it is committed where that is asked for, and never otherwise |
| PipeView.BoundIsTight | gem5-20.1/util/o3-pipeview.py:161-169 | for all thresholds there is an ordered trace with one late last instruction, of disorder min_threshold + 1, that is printed out of order |
| PipeView.Viewer.PrintInsts | gem5-20.1/util/o3-pipeview.py:165-186 | what is taken out and what is left is the queue in order of sequence number, stably, with no more left than the threshold; the filters decide what is printed |
| PipeView.Viewer.QueueInst | gem5-20.1/util/o3-pipeview.py:157-162 | appends while there is room; otherwise takes out, in order, all but min_threshold |
| PipeView.Viewer.ProcessTrace | gem5-20.1/util/o3-pipeview.py:126-148 | the printout is the filtered buffer order of the whole trace, each instruction printed as often as it occurs if it is inside the bounds and never otherwise, and the queue ends empty |
| CheckpointUpgrader.Upgrader.Ready | gem5-20.1/util/cpt_upgrader.py:139-143 | ready exactly when all dependences are in the tag set |
| CheckpointUpgrader.Registry.Register | gem5-20.1/util/cpt_upgrader.py:117-137 | the three tables stay consistent |
| CheckpointUpgrader.Registry.LinkLegacy | gem5-20.1/util/cpt_upgrader.py:166-170 | each version of the unbroken chain from 3 depends on its predecessor; fails exactly when version 2 is missing below it |
| CheckpointUpgrader.Registry.Resolve | gem5-20.1/util/cpt_upgrader.py:172-184 | afterwards an upgrader depends on a tag exactly if it did before or that tag names it as a forward dependence; fails exactly when a dependence names an unknown tag |
| CheckpointUpgrader.Registry.LoadAll | gem5-20.1/util/cpt_upgrader.py:160-184 | fails exactly on a missing version 2 or an unknown tag; otherwise an upgrader depends exactly on what it says, or on its legacy predecessor, and on the tags that name it |
| CheckpointUpgrader.LassoIsNeverApplied | gem5-20.1/util/cpt_upgrader.py:239-251 | nothing that leads into a cycle of pending tags is ever applied |
| CheckpointUpgrader.CycleOrLasso | gem5-20.1/util/cpt_upgrader.py:242-245 | there is a cycle exactly when some pending tag leads into one |
| CheckpointUpgrader.StuckIsCyclic | gem5-20.1/util/cpt_upgrader.py:242-245 | when nothing is ready, what is left is exactly what leads into a cycle |
| CheckpointUpgrader.Registry.Apply | gem5-20.1/util/cpt_upgrader.py:239-251 | ends; applies each missing upgrader once and only after its dependences; aborts if and only if pending dependences contain a cycle |
| ProtoFraming.VarintGroups | gem5-20.1/util/protolib.py:143-155 | the seven-bit groups of an encoded number give the number back |
| ProtoFraming.VarintFormat | gem5-20.1/util/protolib.py:143-155 | the bytes are the digits of the number in base 128, lowest first and without leading zeros, all but the last with the top bit set |
| ProtoFraming.VarintTerminates | gem5-20.1/util/protolib.py:117-124 | an encoded number shows its own end, whatever follows |
| ProtoFraming.ScanVarint | gem5-20.1/util/protolib.py:98-126 | decoding an encoded length gives its masked value and uses exactly its bytes |
| ProtoFraming.OutFile.EncodeVarint32 | gem5-20.1/util/protolib.py:143-155 | the loop appends exactly those base-128 digits |
| ProtoFraming.OutFile.EncodeMessage | gem5-20.1/util/protolib.py:157-163 | appends the digits of the length and then the message |
| ProtoFraming.InFile.DecodeVarint32 | gem5-20.1/util/protolib.py:98-126 | finds the size, truncated to 32 bits and negative beyond the signed 64-bit range, the end of the file or an over-long varint, and consumes exactly the bytes looked at |
| ProtoFraming.InFile.DecodeMessage | gem5-20.1/util/protolib.py:128-141 | hands over the next message, or fails on end of file, size zero or a bad varint |
| ProtoFraming.InFile.DecodeMessages | gem5-20.1/util/decode_packet_trace.py:89-90 | repeated decoding collects the messages up to the first failure |
| ProtoFraming.EmptyMessageStops | gem5-20.1/util/protolib.py:135-136 | an empty message ends the reading and hides everything behind it |
| ProtoFraming.RoundTrip | gem5-20.1/util/protolib.py:98-163 | any list of messages is read back unchanged, in order and up to the end of the stream, if and only if none is empty and each is shorter than 2^32 bytes |

## Left out

- Rounding: sines, cosines, square roots and quotients are exact reals, `float` and `double` are not modelled.
- Machine integers: arithmetic is unbounded except for the 32-bit mask of the varint decoder; `NumSamples` is below 2^31 so that `BlockSize` does not wrap.
- Dijkstra.Search.Dijkstra: the pool is required to have room for the proved bound on enqueues, which is more than the 100000 cells of the source; weights are such that no simple path reaches the sentinel 9999, and there are at most 9999 nodes.
- ThinScan.SusanThin: no proof that the scan ends, because the source has no evident measure; every prefix of every scan is covered instead.
- Corners.FindCorners: an entry is the position of a corner; the dx, dy and I fields are not part of the model, and the info fields only in the parallel version.
- Corners.CornersQuick: the dx, dy and I fields of an entry, as for Corners.FindCorners.
- Corners.SusanCorners: the dx, dy and I fields of an entry, as for Corners.FindCorners.
- ParallelCorners.ParallelCornersAgree: the dx, dy and I fields of an entry, and the exit of a thread that has MAX_CORNERS corners of its own.
- ParallelConvert.IntToUchar: at least two different values, because the source divides by their range.
- ParallelEnlarge.Enlarge: the border is not larger than the image, because the source reads mirrored pixels of the image itself.
- ParallelEnlarge.ParallelEnlargeAgrees: the end of the first loop is computed from the initial height, and a pixel is addressed by row and column, not by an offset that depends on the width.
- In the parallel programs one loop iteration (a row copy, a row of responses, one comparison) is one atomic step, and condition waits have no spurious wakeups.
- The parallel thinning, smoothing and drawing threads share unprotected or uninitialised state and are not modelled.
- Smoothing, the 3x3 variants of the edge detector and of the principle, drawing, brightness table setup and image input and output.
- The fork-based parallel Dijkstra benchmark, which adds a round-robin table to the same search.
- Downgraders of the checkpoint upgrader, conversion of old version numbers to tags, and the effect of an upgrader on the checkpoint other than that it was applied.
- PipeView.Viewer.ProcessTrace: starts from the retired instructions in order; line parsing, drawing and the early stop at a tick or sequence number are not modelled.
- ProtoFraming.InFile.DecodeMessage: a message is its bytes; parsing them, and opening plain or compressed files, are not modelled.
- gem5 configurations, build scripts and input data.
