# loadmaster, verified

A Dafny model of the parts of loadmaster that decide how much load to make, and when: the sweep
of the GPU's memory block and the kernel that carries it out, the exact-total load schedule, the
monitor that makes room for other users of a device, the GPU worker, the CPU load controller, and
the memory manager's hand-over between threads.

Classes keep the fields of the C++ classes, and their methods change them step by step; each is
proved against a function or an invariant, about which the lemmas then say what the repository
promises. Everything is proved for all inputs, all runs and all interleavings. `double` is `real`
(without rounding), machine integers are integers whose bounds and wrap-around are written out,
times are arguments that do not go backwards where the source reads a steady clock, and devices,
sources, allocations and shuffles answer as they like.

| file | subject |
|---|---|
| `Prelude.dfy`, `SweepArgs.dfy` | shared arithmetic; the arguments of a launch |
| `MemSweep.dfy`, `SweepRuns.dfy`, `SweepCoverage.dfy` | `gpu::MemSweep`, its traffic and its coverage over whole runs |
| `BusyKernel.dfy`, `KernelLaunch.dfy`, `HostKernel.dfy` | the busy kernel, a launch in any interleaving, host against kernel |
| `NormalSchedule.dfy`, `ScheduleWalk.dfy`, `NormalDist.dfy` | the exact-total schedule, the walks over it, the bisection |
| `ShareGate.dfy`, `Monitor.dfy` | the sliding maximum and the contention monitor |
| `LoopCount.dfy`, `MemCost.dfy`, `GpuWorker.dfy`, `WorkerProtocol.dfy` | calibration and drift, the cost fit, the worker, what its protocol comes to |
| `LoadController.dfy`, `RollingSampler.dfy`, `LoadAverages.dfy` | the CPU's controller and its sampler, and the loop they make in the manager |
| `Allocator.dfy`, `HandOver.dfy`, `MemoryManager.dfy` | the block, the hand-over protocol, the manager that runs it |
| `PciBusId.dfy` | PCI addresses |

## Where the code does not do what is promised

The code is modelled as it is. For each of these there is a concrete case or an exact condition.

- `src/gpu/mem_sweep.h` promises an exact long-run rate. It is exact if and only if every launch
  is `Lossless` (`SweepRuns.TrafficConserved`). That can be told from the requests alone: with S bytes
  asked for so far, launch by launch, the accesses that its traffic adds to S / (8 * threads) must fit
  its iterations (`SweepRuns.ExactByRequests`), as they do when each request is for fewer accesses a
  thread than the square root of its iterations (`SweepRuns.ExactRate`); ten iterations that owe six
  accesses a thread make five (`SweepRuns.SixInTenIterationsLosesTraffic`).
- The drift correction is to follow the device's speed. Any loop count comes into the deadband, in
  33 corrections, if and only if no whole number b has truth - 2 < b <= truth / 1.05
  (`LoopCount.DriftCorrectedExactly`); one that has stays outside it for good. From a true count of
  41 on there is none, at 40.95 there is (`LoopCount.NeverStuckFrom41`).

## Model

| member | source | states |
|---|---|---|
| BlockSweep.MemSweep.Reset | src/gpu/mem_sweep.cc:9-21 | the windows share out the whole words of every segment: each word is in exactly one window, none reaches past its segment; two words of a segment are in the same window if and only if they are in the same gibibyte of it; the windows come in the order of segment and offset, and the walk starts afresh |
| BlockSweep.WindowIsBlock | src/gpu/mem_sweep.cc:12-19 | so the window of a word starts at its block of 2^28 words and is as long as that, or as what the segment has left |
| BlockSweep.SomeSegmentFits | src/gpu/mem_sweep.cc:36-44 | some window can take a launch if and only if it has at most 2^28 threads and some segment has a word for each |
| BlockSweep.MemSweep.Clear | src/gpu/mem_sweep.cc:23-28 | no window, cursor or pending traffic is left |
| BlockSweep.MemSweep.Next | src/gpu/mem_sweep.cc:30-78 | the arguments and the whole new state are those of the step function that the run lemmas are about, for every input including wrap-around of the pending sum |
| BlockSweep.MemSweep.FindWindow | src/gpu/mem_sweep.cc:36-44 | the search ends at the first window that fits, or fails after a whole turn, with the cursor at the start of any window but the first |
| BlockSweep.MemSweep.Take | src/gpu/mem_sweep.cc:45-77 | the arguments, the traffic left and the next cursor are those of the step function |
| BlockSweep.Skipped | src/gpu/mem_sweep.cc:37-44 | the search stops at the first window, going round, that has a word for every thread, or after all of them |
| BlockSweep.DeliveredBounds | src/gpu/mem_sweep.cc:57-62 | the rounded stride delivers at least one access per thread and never more than wanted or than there are iterations |
| BlockSweep.DeliveredExactly | src/gpu/mem_sweep.cc:57-62 | it delivers exactly what is wanted if and only if (a - 1) * ceil(loops / a) < loops |
| BlockSweep.SquareBound | src/gpu/mem_sweep.cc:57-62 | which holds whenever (a - 1)^2 < loops |
| BlockSweep.StrideIsBest | src/gpu/mem_sweep.cc:57-62 | no even stride that delivers no more than is wanted delivers more |
| BlockSweep.Carry | src/gpu/mem_sweep.cc:63-68 | less than one access per thread is carried over |
| SweepRuns.StepEffect | src/gpu/mem_sweep.cc:30-78 | a launch's window has a word per thread and its base is inside it, it touches a positive multiple of the threads and no more than is owed, and the next one goes on behind it or on the next window |
| SweepRuns.NothingFits | src/gpu/mem_sweep.cc:31-44 | a launch that no window can take has no traffic and changes nothing of what is owed; the walk is left at the window before |
| SweepRuns.CarryExact | src/gpu/mem_sweep.cc:63-68 | delivered and carried make up what is owed if and only if every whole access was delivered; otherwise a byte less than one access per thread is carried |
| SweepRuns.StepTraffic | src/gpu/mem_sweep.cc:45-68 | of one launch: moved + carried never exceeds what is owed, and equals it if and only if the launch is lossless; a lossy one carries a byte less than one access per thread |
| SweepRuns.TrafficConserved | src/gpu/mem_sweep.cc:45-68 | of any run of launches: moved + pending never exceeds what was asked for, with equality if and only if all launches are lossless, and pending stays below one access per thread |
| SweepRuns.SmallLaunchLossless | src/gpu/mem_sweep.cc:45-68 | a launch owing a accesses per thread with (a - 1)^2 below its iterations loses nothing |
| SweepRuns.CarryAddsOne | src/gpu/mem_sweep.cc:45-47 | what is carried over makes at most one access per thread more |
| SweepRuns.ModestLossless | src/gpu/mem_sweep.cc:45-68 | a request for a accesses per thread with a^2 below its iterations loses nothing, whatever is carried over |
| SweepRuns.ExactRate | src/gpu/mem_sweep.cc:45-68 | over any run of such requests, what is moved and what is pending add up to exactly what was asked for |
| SweepRuns.OwedIsWanted | src/gpu/mem_sweep.cc:45-50 | while nothing has been lost, what a launch owes in whole accesses is what the bytes asked for so far come to, before and after it |
| SweepRuns.LosslessByRequests | src/gpu/mem_sweep.cc:45-68 | all launches of a run are lossless if and only if the requests are exact, a condition on their traffic and iterations alone |
| SweepRuns.ExactByRequests | src/gpu/mem_sweep.cc:9-78 | so from Reset on, what is moved and what is pending add up to what was asked for if and only if the requests are exact |
| SweepRuns.SixInTenIterationsLosesTraffic | src/gpu/mem_sweep.cc:56-68 | the counterexample to an exact rate: one byte short of what was asked for is lost for good |
| SweepCoverage.VisitsInOrder | src/gpu/mem_sweep.cc:69-76 | up to the window's end, a launch visits the words from its base on in order, once each |
| SweepCoverage.SearchStopsBefore | src/gpu/mem_sweep.cc:36-44 | the search never skips a window that could take the launch |
| SweepCoverage.WordReached | src/gpu/mem_sweep.cc:30-78 | a word ahead of the cursor has been visited once as many launches have moved traffic as the windows up to it need, ceil(words / threads) each |
| SweepCoverage.EachWordOnce | src/gpu/mem_sweep.cc:69-76 | before the launch that ends its window, the words passed have been visited exactly once and all others not at all |
| SweepCoverage.BlockSwept | src/gpu/mem_sweep.cc:9-78 | from Reset on, a run that has moved traffic as often as the sum of those needs has visited a word of a segment if and only if its gibibyte, or what the segment has left of it, has a word for every thread |
| SweepCoverage.AllMove | src/gpu/mem_sweep.cc:45-50 | launches asked for an access per thread or more all move traffic |
| SweepCoverage.BlockSweptInTime | src/gpu/mem_sweep.cc:9-78 | so as many of them as the windows need have swept the block |
| BusyKernel.Busy | src/gpu/intel/busy_kernel.cl:36-62 | the chunked loop leaves out[tid] as the plain loop of loop_count iterations, and memory as a sweep that reads and writes one word at a time; the index never leaves the window and its 32-bit sum never overflows |
| BusyKernel.Access | src/gpu/intel/busy_kernel.cl:54-59 | one access writes the mixed word back to its place and nowhere else, moves on by the threads around the window, and loads the next word if there is more to do |
| BusyKernel.SeedSteps | src/gpu/intel/busy_kernel.cl:40 | seeds start at one and go up by 2654435761 from one work-item to the next, modulo 2^32 |
| BusyKernel.LcgSteps | src/gpu/intel/busy_kernel.cl:51-53 | an iteration takes 0 to 1013904223 and goes up by 1664525 with each value, modulo 2^32 |
| BusyKernel.OutDistinct | src/gpu/intel/busy_kernel.cl:40-61 | no two work-items come out at the same value, however many iterations they make |
| BusyKernel.XorUndoes | src/gpu/intel/busy_kernel.cl:55 | mixing a value in twice gives the word back, and only zero leaves it as it was |
| BusyKernel.XorDistinct | src/gpu/intel/busy_kernel.cl:55 | different values leave different words |
| BusyKernel.AccessWordNext | src/gpu/intel/busy_kernel.cl:54-57 | stepping by the thread count and subtracting once is the same as taking the whole sum modulo the window |
| BusyKernel.Item.SlotFirst | src/gpu/intel/busy_kernel.cl:44-45 | so is the first index |
| BusyKernel.Item.SlotNext | src/gpu/intel/busy_kernel.cl:56-57 | and each following one: (base + tid + k * threads) mod words |
| BusyKernel.Item.StartNext | src/gpu/intel/busy_kernel.cl:49-53 | chunk k starts at iteration k * stride, and there are ceil(loops / stride) chunks |
| BusyKernel.Item.MixFirstAndLast | src/gpu/intel/busy_kernel.cl:49-61 | the first access mixes in what a stride's iterations have made of the seed, and the last what is left in out |
| KernelLaunch.CollisionFree | src/gpu/intel/busy_kernel.cl:44-59 | no two accesses of a launch go to the same word if and only if they fit in the window |
| KernelLaunch.ChunkCollisionFree | src/gpu/intel/busy_kernel.cl:54-58 | no two threads are ever at the same word in the same chunk, whatever the launch |
| KernelLaunch.NeverShareExactly | src/gpu/intel/busy_kernel.cl:44-57 | no word is ever come to by two work-items if and only if the launch does not lap its window or the threads divide the window's words |
| KernelLaunch.ComesToOwnWords | src/gpu/intel/busy_kernel.cl:44-57 | in such a launch the turn of a word, counted around the window, tells its work-item |
| KernelLaunch.StepConsistent | src/gpu/intel/busy_kernel.cl:46-59 | any work-item's next load or store keeps each word what its owner alone would have made of it so far |
| KernelLaunch.AnyOrderSweeps | src/gpu/intel/busy_kernel.cl:36-62 | in every interleaving of a launch whose work-items share no word, lapping or not, each word ends as its owner alone would have left it, and nothing else changes |
| KernelLaunch.AloneOnce | src/gpu/intel/busy_kernel.cl:49-60 | until its owner has gone round the window, a word has been mixed at most once, with its own access's value |
| KernelLaunch.AnyOrderSweepsOnce | src/gpu/intel/busy_kernel.cl:36-62 | so in every interleaving of a launch that does not lap its window, each word from the base on is mixed exactly once |
| KernelLaunch.LappingRaces | src/gpu/intel/busy_kernel.cl:46-59 | out of step the order matters: two threads on three words, run to the end in two orders, leave two different memories |
| HostKernel.WindowInsideSegment | src/gpu/mem_sweep.cc:9-21 | every window lies inside its segment |
| HostKernel.HostKernelAgree | src/gpu/mem_sweep.cc:51-62 | arguments with traffic are ones the kernel can take, and it makes as many accesses as the host counts if and only if the launch has an iteration (the backends raise a count below one to one) |
| HostKernel.VisitsAre | src/gpu/mem_sweep.h:19-21 | a launch that fits its window visits the words next after the base, around the window, once each |
| HostKernel.LaunchSweepsPastCursor | src/gpu/mem_sweep.cc:69-76 | the words that the host's cursor passes are exactly those the kernel has changed, in any order of its work-items |
| NormalSchedule.Clip | src/util/normal_schedule.cc:38-48 | every value is cut at the cap, and the excess and the weight below the cap are added up |
| NormalSchedule.HandOut | src/util/normal_schedule.cc:52-56 | what is below the cap grows by one common factor |
| NormalSchedule.RoundKeeps | src/util/normal_schedule.cc:38-57 | a round that does not break keeps the sum and the shape and pins at least one more value at the cap |
| NormalSchedule.WaterFill | src/util/normal_schedule.cc:33-58 | the rounds come to min(cap, scale * value) with one scale for all, within their number; what is dropped is at most 1e-9 unless all are at the cap |
| NormalSchedule.ByRemainderSorts | src/util/normal_schedule.cc:71-75 | the order is that of falling remainders, equal ones by their places, without repetition |
| NormalSchedule.FloorsLose | src/util/normal_schedule.cc:60-66 | what rounding down takes off is less than one unit for each point that may be rounded up again |
| NormalSchedule.RoundDown | src/util/normal_schedule.cc:61-66 | all points rounded down, and their sum |
| NormalSchedule.RoundToTotal | src/util/normal_schedule.cc:60-84 | the points are the values rounded down or up, add up to the target exactly, stay below the cap, and are the nearest such integers; a larger value never gets the smaller point, nor does the earlier of two equal ones |
| NormalSchedule.LargestFirstIsNearest | src/util/normal_schedule.cc:60-84 | rounding up the largest remainders first is nearest: for any integers of the same number and total, within the cap if there is one, the sum of the distances from the values is no smaller |
| NormalSchedule.OneRounding | src/util/normal_schedule.cc:71-83 | that leaves only one possible outcome |
| NormalSchedule.ByRemainderHasAll | src/util/normal_schedule.cc:71-72 | every point is in the order |
| NormalSchedule.RaisedInOrder | src/util/normal_schedule.cc:76-83 | wherever the rounding stops, it has kept the order of the values |
| NormalSchedule.TargetIsPromised | src/util/normal_schedule.cc:67-70 | the target is min(mean, cap) * count |
| NormalSchedule.FilledTotal | src/util/normal_schedule.cc:28-58 | water-filling ends within 1e-9 below the promised total, so the drop costs no point |
| NormalSchedule.OrderKept | src/util/normal_schedule.cc:36-83 | scaling, cutting off and rounding keep the order of the bins; of equal bins the earlier gets the same or one more |
| NormalSchedule.Normalise | src/util/normal_schedule.cc:27-31 | the values are the masses by one factor, and add up to the total |
| NormalSchedule.OneSchedule | src/util/normal_schedule.cc:9-85 | without a cap, masses and total leave only one schedule |
| NormalSchedule.BuildNormalSchedulePoints | src/util/normal_schedule.cc:9-85 | the points are the integers nearest to the masses by the factor that makes them hold the total, cut off at the cap, with the largest remainders rounded up; they add up to mean * count, or to cap * count if the cap is below the mean; each is in 0..cap; a smaller bin never gets a larger point, and of equal bins the earlier gets the same or one more |
| ScheduleWalk.TargetAdds | src/gpu/manager_random_normal.cc:65-78 | another target keeps all aligned blocks permutations of the schedule |
| ScheduleWalk.PeriodAt | src/gpu/manager_random_normal.cc:65-78 | the k-th aligned block of targets has every schedule point exactly once |
| ScheduleWalk.TotalOfPermutation | src/gpu/manager_random_normal.cc:92-96 | a shuffle keeps the total |
| ScheduleWalk.PeriodAverage | src/gpu/manager_random_normal.cc:83-90 | so every aligned block adds up to load * points, whatever the shuffles |
| ScheduleWalk.DeviceState.AdvanceDevice | src/gpu/manager_random_normal.cc:46-81 | the next point on the first tick and every ten seconds from then on, a fresh shuffle at the start of each period but the first; nothing changes otherwise |
| ScheduleWalk.GpuSchedule.constructor | src/gpu/manager_random_normal.cc:14-20 | the points that all devices share follow the masses and add up to load * points, each in 0..100 |
| ScheduleWalk.GpuSchedule.Init | src/gpu/manager_random_normal.cc:22-38 | every device starts with its own shuffle of the same points |
| ScheduleWalk.GpuSchedule.Schedule | src/gpu/manager_random_normal.cc:40-44 | a tick advances every device, each by itself |
| ScheduleWalk.GpuSchedule.AverageKept | src/gpu/manager_random_normal.cc:40-90 | end to end: every aligned period of every device averages exactly the configured load |
| ScheduleWalk.CpuSchedule.UpdateLoadTarget | src/cpu/manager_random_normal.cc:90-109 | the same of the CPU's walk, which shuffles its points in place at the start of every period |
| ScheduleWalk.CpuSchedule.IncreasePointIndex | src/cpu/manager_random_normal.cc:83-88 | the index goes round |
| ScheduleWalk.CpuSchedule.constructor | src/cpu/manager_random_normal.cc:13-20 | the CPU's points follow the masses without a cap and add up to load * points |
| ScheduleWalk.CpuSchedule.ShuffleSchedulePoints | src/cpu/manager_random_normal.cc:79-81 | between periods, another order keeps the walk valid |
| ScheduleWalk.CpuSchedule.AverageKept | src/cpu/manager_random_normal.cc:72-109 | end to end: every aligned period of the CPU's targets averages exactly the configured load |
| NormalDist.WidthTells | src/util/normal_dist.cc:51-55 | the bracket is below 1e-7 from the fortieth halving on, and not before |
| NormalDist.FindXAxisPosition | src/util/normal_dist.cc:42-64 | for any comparison that turns true at a threshold in the range, 41 iterations or more end by the width, within 5e-8 of it; fewer end within the width reached |
| ShareGates.FirstPeakIsLargest | src/gpu/contention/monitor.cc:28-31 | the front of the deque is the largest share of the window, and there is one if the window is not empty |
| ShareGates.LargestTells | src/gpu/contention/monitor.cc:15-32 | the level is a share seen less than 30 s ago that no other such share exceeds; there is none just if none is as young |
| ShareGates.PeaksAppend | src/gpu/contention/monitor.cc:20-26 | popping smaller shares from the back and pushing the new one gives the strict suffix maxima of the longer window |
| ShareGates.PeaksOfRecent | src/gpu/contention/monitor.cc:16-19 | expiring and taking suffix maxima can be done in either order |
| ShareGates.SeenAfterExpiry | src/gpu/contention/monitor.cc:16-19 | popping the expired front leaves the suffix maxima of what is still recent |
| ShareGates.ShareGate.Update | src/gpu/contention/monitor.cc:15-32 | over any run with times in order, the result is the maximum of all sightings younger than 30 s, or none, the deque being exactly the window's suffix maxima |
| Contention.VerdictIsJoin | src/gpu/contention/monitor.cc:69-87 | a device is busy if and only if some source says so, and unknown if and only if none says anything |
| Contention.FirstSourceNames | src/gpu/contention/monitor.cc:81-83 | the process named is that of the first source to find the device busy |
| Contention.MeasureIsLargest | src/gpu/contention/monitor.cc:88-90 | the busy measure is the largest of the sources', not below zero, and there is one if any source has one |
| Contention.OthersShare | src/gpu/contention/monitor.cc:103-111 | a busy device has a share, any other none; with a measure, our share and the others' add up to it if ours is no more than it, theirs is 0 if ours is as much or more, and it stays within 0..100; without a measure it is 100 |
| Contention.OwnShare | src/gpu/contention/monitor.cc:53-65 | our share is what part of the time since the last poll our kernels ran, in percent, as far as that is in 0..100; none at the first poll or if no time has gone by |
| Contention.HandedSkips | src/gpu/contention/monitor.cc:70-91 | a source that skips the devices handed to it as busy changes neither verdict nor process nor whether there is a measure; a device is handed so just if it was found busy and measured |
| Contention.LevelInRange | src/gpu/contention/monitor.cc:112-114 | so the report is a percentage |
| Contention.NoRepeatsAppend | src/gpu/contention/monitor.cc:115-120 | a report made when it differs from the last keeps the reports free of repeats |
| Contention.CounterStep | src/gpu/contention/monitor.cc:94-102 | the counter reaches three exactly at the first streak of three unknown polls |
| Contention.EverUnseenMeans | src/gpu/contention/monitor.cc:94-102 | which is that three polls in a row were unknown |
| Contention.Monitor.constructor | src/gpu/contention/monitor.cc:34-45 | nothing reported, warned of or polled yet |
| Contention.Monitor.MergeSources | src/gpu/contention/monitor.cc:67-92 | whatever the sources answer at this poll, the merged observations are those of the fold that the lemmas are about, each source being handed what is already known |
| Contention.Monitor.OwnShares | src/gpu/contention/monitor.cc:53-65 | our own share since the previous poll, which this one becomes |
| Contention.Monitor.NoteVerdict | src/gpu/contention/monitor.cc:94-102 | a device is warned of exactly once if it was ever unknown for three polls in a row, otherwise never |
| Contention.Monitor.ReportShare | src/gpu/contention/monitor.cc:112-120 | the report is the rounded 30 s maximum, in 0..100 and no less than a new share, which it is if nothing was reported before; the callback is called just if it changed |
| Contention.Monitor.Publish | src/gpu/contention/monitor.cc:115-121 | a report becomes the device's, and a call of the callback just if it is another than before |
| Contention.Monitor.PollDevice | src/gpu/contention/monitor.cc:93-121 | a device's part in a poll brings it up to date and leaves the others as they were |
| Contention.Monitor.PollDevices | src/gpu/contention/monitor.cc:93-123 | every device's verdict, sighting and report are its own, and the calls come in the devices' order |
| Contention.Monitor.Poll | src/gpu/contention/monitor.cc:51-122 | over any run of polls, the sources answering each of them as they like, all this holds of every device: a busy device's newest sighting and our share make up its measure, and its report is that share if nothing was reported before, and no less otherwise; the reports and the callback's calls in order with the process they name, never two alike in a row, and the single warning |
| Contention.Monitor.ReportTells | src/gpu/contention/monitor.cc:112-116 | after any run there is a report if and only if the last sighting is younger than 30 s, and then it is the largest rounded share of the sightings that are |
| MemCost.AddKeepsSound | src/gpu/worker.cc:161-168 | w * xx >= x^2 is kept by every launch, over any run |
| MemCost.PublishesPositiveVariance | src/gpu/worker.cc:172-177 | the division never sees a zero variance |
| MemCost.NormalEquations | src/gpu/worker.cc:172-177 | the published slope solves the normal equations of the decayed sums |
| MemCost.LeastSquares | src/gpu/worker.cc:153-178 | no other line has a smaller decayed squared error over the launches |
| MemCost.PublishesExactly | src/gpu/worker.cc:168-177 | a cost is published with a launch if and only if it is the tenth or a later one and the variance of the traffic so far about its mean, weighed by 0.95 a launch, is at least a hundredth of that mean squared |
| MemCost.PublishedIsBest | src/gpu/worker.cc:153-178 | the cost then in use is the slope of a line with the least squared error; otherwise it stays what it was |
| MemCost.CostRecovered | src/gpu/worker.cc:153-178 | launches whose residual is c * MiB + overhead have exactly c published |
| MemCost.CostInUse | src/gpu/worker.cc:153-178 | over whole runs of such launches, c is in use from the first launch on with which a cost is published, and 0 before |
| MemCost.OnlyTheCostPublished | src/gpu/worker.cc:153-178 | over whole runs of such launches, nothing but c is ever in use (or 0, before the first) |
| MemCost.CostStays | src/gpu/worker.cc:153-178 | and once c is in use, it stays in use |
| LoopCount.ExtrapolateLinear | src/gpu/worker.cc:17-25 | from any count, extrapolation on a linear device finds the clamped right one |
| LoopCount.Extrapolate | src/gpu/worker.cc:17-25 | the estimate is within 1..1e9 whatever was timed |
| LoopCount.ExtrapolateFalls | src/gpu/worker.cc:17-25 | a shorter time never gives the smaller count, and no time at all gives 1e9 |
| LoopCount.CorrectedLinear | src/gpu/worker.cc:136-151 | a correction on a linear device depends on the true count alone, not on the launch |
| LoopCount.NoLesson | src/gpu/worker.cc:136-139 | a launch of less than 10 ms, or one whose ALU loop seems to have taken no time, changes nothing |
| LoopCount.CorrectionHalves | src/gpu/worker.cc:140-150 | outside the deadband it leaves at most half the distance, plus one |
| LoopCount.StuckExactly | src/gpu/worker.cc:140-150 | a correction gets nowhere outside the deadband if and only if truth - 2 < count <= truth / 1.05 |
| LoopCount.CloseCorrection | src/gpu/worker.cc:140-150 | within three of the true count, a correction that does not get stuck reaches the deadband or comes a whole step nearer from above |
| LoopCount.CorrectedIn33 | src/gpu/worker.cc:136-151 | without a count that gets stuck, 33 corrections reach the deadband from any count |
| LoopCount.DriftCorrectedExactly | src/gpu/worker.cc:136-151 | every count comes into the deadband if and only if no whole number b has truth - 2 < b <= truth / 1.05; such a b never does |
| LoopCount.NeverStuckFrom41 | src/gpu/worker.cc:140-150 | there is none from a true count of 41 on, and there is one at 40.95 |
| LoopCount.DriftIsCorrected | src/gpu/worker.cc:136-151 | a true count in 42..1e9 is found to within the deadband in 31 corrections from any count |
| LoopCount.DriftStaysCorrected | src/gpu/worker.cc:141-143 | and kept from then on |
| LoopCount.SmallCountsCanStick | src/gpu/worker.cc:140-150 | a count of 2 stays 2 where 3 is right |
| GpuWorker.TargetMs | src/gpu/worker.cc:223-227 | our budget and the others' share add up to the larger of the load and that share |
| GpuWorker.TrafficKeepsRate | src/gpu/worker.cc:241-250 | over any run, the bytes moved are the rate times the busy time, weighed by the walk's factor, but for at most a byte a launch |
| GpuWorker.MedianExact | src/gpu/worker.cc:60-71 | the median of three is exact if two of them are |
| GpuWorker.MedianIsMiddle | src/gpu/worker.cc:60-71 | the median is one of the three, and no two of them are on the same side of it |
| GpuWorker.LaunchLoopsBounds | src/gpu/worker.cc:251-260 | a launch has at least one iteration, at most a full period's, and at least half of what the budget gives without traffic |
| GpuWorker.CostlyLaunch | src/gpu/worker.cc:251-286 | on a device taking t ms per iteration and c ms per MiB, with c in use, what is learned from a launch of 10 ms of ALU time or more is the drift correction, whatever its traffic |
| GpuWorker.LongLaunchTeaches | src/gpu/worker.cc:258-281 | which a launch is whose ALU loop gets 20 ms or more, whatever the count |
| GpuWorker.BusyKeepsBudget | src/gpu/worker.cc:251-272 | in the deadband, a launch's busy time keeps the budget to within 5.3% of the ALU loop's part and one iteration, but for what its traffic costs beyond half the budget |
| GpuWorker.CostsAreExactly | src/gpu/worker.cc:153-178 | with the samples on a line of cost c, the costs put to use are c from a launch on if and only if c is 0 or the samples have been telling by then |
| GpuWorker.ExactSample | src/gpu/worker.cc:275-283 | with an exact loop count, what a launch took beyond its ALU loop is c ms per MiB, so the samples stay on that line |
| GpuWorker.ExactNext | src/gpu/worker.cc:153-178 | and another such launch leaves count, samples and the cost in use exact |
| GpuWorker.CountIsCorrected | src/gpu/worker.cc:136-151 | over a run of ticks the count is the corrected one after as many corrections as there are launches that teach |
| GpuWorker.RunCorrectsDrift | src/gpu/worker.cc:214-295 | 33 of them, or 33 ticks of at least 20 ms, bring the count into the deadband, where it stays |
| GpuWorker.GpuWorkerContext.TimeKernelMs | src/gpu/worker.cc:49-58 | one trial launch without traffic |
| GpuWorker.GpuWorkerContext.MedianKernelMs | src/gpu/worker.cc:60-71 | the middle of three trials, if all succeed |
| GpuWorker.GpuWorkerContext.Grow | src/gpu/worker.cc:83-100 | growth ends on any device, after eleven trials at most, with a count in 1..1e9 whose launch took 5 ms or that is 1e9 |
| GpuWorker.GpuWorkerContext.Refine | src/gpu/worker.cc:101-108 | a round extrapolates and times that; one timing of the three may be off |
| GpuWorker.GpuWorkerContext.Search | src/gpu/worker.cc:83-112 | growing and refining come to the outcome promised wherever growth stopped |
| GpuWorker.GpuWorkerContext.CalibrateBaseLoopCount | src/gpu/worker.cc:73-122 | on a device taking any t ms per iteration the count is exactly clamp(floor(100 / t), 1, 1e9); with one of any three timings off it is that or within 3%; it fails just when a trial fails, and makes at most 21 of them |
| GpuWorker.GpuWorkerContext.AdaptBaseLoopCount | src/gpu/worker.cc:136-151 | the count becomes the corrected one that the drift lemmas are about |
| GpuWorker.GpuWorkerContext.UpdateMemCost | src/gpu/worker.cc:153-178 | the cost in use becomes the best slope of all samples so far if they are telling (`MemCost.Telling`), and stays what it was if not; on a line it is that line's once any samples have been telling, 0 before |
| GpuWorker.GpuWorkerContext.SyncMemory | src/gpu/worker.cc:180-212 | nothing is held or refused after a sharing tick; otherwise the block is held, or its refusal remembered and not retried; with a block, the rate is a hundredth of the bandwidth, or 1 GiB/s if the device does not tell |
| GpuWorker.GpuWorkerContext.Traffic | src/gpu/worker.cc:239-250 | with a block, the whole bytes of the rate times the busy time and the factor; none without |
| GpuWorker.GpuWorkerContext.Learn | src/gpu/worker.cc:275-287 | the residual becomes a sample, and the count is corrected from the time left after the traffic's cost; towards the true count if that cost is the device's |
| GpuWorker.GpuWorkerContext.LaunchOnce | src/gpu/worker.cc:238-287 | the launch is the one the budget, the traffic and its cost come to, and what is learned from it is its own residual and the time left after the cost; with a budget of 40 ms or more it always corrects the count |
| GpuWorker.GpuWorkerContext.Turn | src/gpu/worker.cc:217-292 | a tick calibrates the device, corrects its count, or leaves it alone |
| GpuWorker.GpuWorkerContext.BeginTick | src/gpu/worker.cc:218-227 | at the start of a tick the block is freed if the device is shared and taken if it is not |
| GpuWorker.GpuWorkerContext.GiveDeviceUp | src/gpu/worker.cc:231-235 | a device given up holds no block |
| GpuWorker.GpuWorkerContext.Loop | src/gpu/worker.cc:214-295 | over any run against any device, all that is done with it follows the protocol `Allowed`: allocate only when nothing is held and not again after a refusal before a sharing tick, release only what is held, no launch before calibration, traffic only with a block, none of it on a shared device, give up after exactly 50 failures in a row, holding nothing; on a linear device without a block the loop count ends where its teaching launches have brought it; on one with traffic too, calibrated before or in the run, it has been corrected towards the true count at least once a tick of 40 ms, if the new samples keep to a line of the true cost and have been telling since the first of them; an exact count with the true cost in use stays exact, and the cost true, whatever the traffic; as long as the block is held and nobody else is found on the device, all launches together move what `TrafficKeepsRate` is about |
| WorkerProtocol.TakenOnce | src/gpu/worker.cc:180-212 | in the events of such a run, the block is asked for only when it is not held, and released only when it is: taken before, and not released since |
| WorkerProtocol.TrafficNeedsBlock | src/gpu/worker.cc:238-262 | a launch with traffic finds it so |
| WorkerProtocol.SharedIsLeftAlone | src/gpu/worker.cc:218-250 | if the last tick found the device shared, it is not asked for memory, and a launch has no traffic and finds no block |
| WorkerProtocol.NotAskedAgain | src/gpu/worker.cc:184-211 | between a refusal and the next time it is asked, a tick has found it shared |
| WorkerProtocol.WorkOfTick | src/gpu/worker.cc:217-292 | a launch answers a tick that has left a budget and not been answered before; by the next tick it has been, and the block is gone if the device was found shared, and held otherwise, if there is one and it was never refused |
| WorkerProtocol.CalibratedFirst | src/gpu/worker.cc:229-237 | no launch comes before the calibration, and no trial after it, nor, once there have been ticks, without one that leaves a budget |
| WorkerProtocol.GivenUpExactly | src/gpu/worker.cc:230-273 | a device is given up after a failed trial or exactly fifty failed launches in a row, and from either on nothing but that and releasing the block is done with it |
| LoadControl.LoadController.Update | src/cpu/load_controller.cc:10-31 | the demand is the target less the others' load, plus the integral, kept within 0..capacity and rounded; the integral stays where it is if that output is beyond a rail and the error pushes further, and otherwise moves by a fiftieth of the error, within the capacity |
| LoadControl.OverloadPins | src/cpu/load_controller.cc:15-24 | while the others alone exceed the target by as much as the integral would make up, the output is pinned at nothing |
| LoadControl.PinnedHolds | src/cpu/load_controller.cc:19-27 | over any run of pinned ticks the integral stays where it was |
| LoadControl.BackAtOnce | src/cpu/load_controller.cc:19-27 | so the first tick after them moves it as if there had been none |
| LoadControl.IdleAfterOverload | src/cpu/load_controller.cc:10-31 | a fresh controller overloaded for any time demands the target and a fiftieth at the first idle tick, or the target if there is no capacity for more |
| LoadControl.StartsWithHeadroom | src/cpu/load_controller.cc:15-30 | a fresh controller has the headroom below if the capacity has room for the steady demand and for what the integral has to make up |
| LoadControl.TickContracts | src/cpu/load_controller.cc:15-30 | with headroom, a tick brings the integral nearer its fixed point by the factor 1 - 0.02 e, plus at most 0.01 e of rounding, and keeps the headroom |
| LoadControl.DistanceFalls | src/cpu/load_controller.cc:15-30 | so the distance falls off geometrically, down to half a unit |
| LoadControl.PowerBound | src/cpu/load_controller.cc:21-27 | the factor's powers vanish at least as fast as 1 / (1 + 0.02 e n) |
| LoadControl.SystemConverges | src/cpu/load_controller.cc:10-31 | the system load converges on the target, to within what the workers deliver of one unit of demand |
| LoadAverages.MeansSeen | src/cpu/manager.cc:82-92 | the means of the samples are what the workers deliver of the mean demand, with the others' load above it |
| LoadAverages.MeanLags | src/util/rolling_sampler.h:29-50 | a mean of ten values that lag behind a point by a slope each is off by at most four and a half of them |
| LoadAverages.TickMoves | src/cpu/manager.cc:166-169 | told of means, the integral moves by 0.02 e times the mean demand's surplus unless that takes it past the rail it is pulled towards, never by more, and stays within the capacity |
| LoadAverages.MeanClose | src/cpu/manager.cc:82-92 | the mean demand is within rounding and four and a half steps of what the integral asks for now |
| LoadAverages.MovesFreely | src/cpu/load_controller.cc:18-27 | with room for the steady demand, the integral is never held at a rail once ten ticks have gone by |
| LoadAverages.FallsToBasin | src/cpu/manager.cc:60-92 | from any integral in -capacity..capacity, the distance falls by a fixed amount a tick until it is a tenth of the capacity |
| LoadAverages.InsideShrinks | src/cpu/manager.cc:60-92 | nineteen ticks within a distance m take the next to 0.6 + (1 - 0.0182 e) * (m - 0.6) |
| LoadAverages.AveragesConverge | src/cpu/manager.cc:60-92 | so from any start the system load converges on the target, to within what the workers deliver of 1.1 units of demand, geometrically |
| LoadAverages.CpuResourceManager.constructor | src/cpu/manager.cc:16-24 | two samplers of ten values and a fresh controller |
| LoadAverages.CpuResourceManager.Schedule | src/cpu/manager.cc:60-92 | a tick adds both samples, and integral and demand are the controller's on the means of the last ten |
| LoadAverages.CpuResourceManager.CalculateLoadDemand | src/cpu/manager.cc:166-169 | the controller is told the means and the capacity |
| LoadAverages.ClosedLoop | src/cpu/manager.cc:60-92 | the manager at work on a plant for any number of ticks leaves the system as near its target as that |
| LoadControl.IntegralBounded | src/cpu/load_controller.cc:21-27 | whatever is measured, the integral never winds up beyond the capacity |
| Rolling.WindowMoves | src/util/rolling_sampler.h:29-41 | the sum of the window of the last values follows each insertion |
| Rolling.OverwriteOldest | src/util/rolling_sampler.h:34-40 | overwriting at the index and stepping it round drops the oldest value and appends the new one |
| Rolling.RollingSampler.constructor | src/util/rolling_sampler.h:21-24 | an empty window |
| Rolling.RollingSampler.InsertValue | src/util/rolling_sampler.h:29-50 | through warm-up and any number of wraps, the mean is that of the last min(n, capacity) values, and the index names the oldest |
| Rolling.RollingSampler.GetMean | src/util/rolling_sampler.h:26-27 | the mean times the number of values is their sum; 0 before the first |
| BlockAllocator.Allocator.AllocateBlock | src/memory/allocator.cc:22-29 | a block of the size asked for, or an empty allocator |
| BlockAllocator.Allocator.ReleaseBlock | src/memory/allocator.cc:15-20 | an empty allocator |
| BlockAllocator.Allocator.Fill | src/memory/allocator.cc:31-48 | seed xor i in every byte up to the first chunk at which a stop was requested, or to the end, and nothing else changed |
| BlockAllocator.Allocator.FillChunk | src/memory/allocator.cc:43-46 | a chunk extends the pattern to its end and touches nothing behind it |
| BlockAllocator.PatternTells | src/memory/allocator.cc:43-46 | byte b of every 256 differs from the seed in the bits of b |
| BlockAllocator.PatternRepeats | src/memory/allocator.cc:43-46 | and so on every 256 bytes |
| BlockAllocator.PatternDistinct | src/memory/allocator.cc:43-46 | so 256 bytes in a row are all different and have every value |
| BlockAllocator.SeedsDiffer | src/memory/allocator.cc:43-46 | and with another seed every byte is another |
| HandOver.WorkInStep | src/memory/allocator.cc:31-48 | each step of a fill has written the pattern as far as it has come |
| HandOver.RatioPositive | src/memory/manager_default.cc:38-43 | sizes are multiples of 4 KiB, within the limit and above half of it, but for the alignment |
| HandOver.SizeFollowsRatio | src/memory/manager_default.cc:38-43 | a size is the largest multiple of 4 KiB within the ratio of the limit |
| HandOver.TickSchedules | src/memory/manager_default.cc:26-67 | a tick does nothing while a fill is in flight and only joins before a schedule is due; when it is, 32 MiB or more go to a new background thread and less is begun at once |
| HandOver.StepOwned | src/memory/manager_default.cc:26-80 | every step of either thread keeps the ownership of the allocator in one hand |
| HandOver.StepSpaced | src/memory/manager_default.cc:82-90 | and the schedules apart |
| HandOver.EveryInterleaving | src/memory/manager_default.cc:26-102 | so do all interleavings of ticks and steps: at most one background thread, the one the manager holds, its done flag telling exactly whether it has ended; aligned sizes within the limit; 46 whole seconds between schedules |
| HandOver.OneOwner | src/memory/manager_default.cc:26-102 | no two threads are ever inside AllocateAndFill |
| HandOver.CompleteFill | src/memory/manager_default.cc:92-102 | a fill that has come to its end has written seed xor i at every byte of a block of the size asked for |
| HandOver.UnhinderedGoesOn | src/memory/manager_default.cc:92-102 | a job none of whose own steps was refused memory or asked to stop is never broken off, whatever the other thread does |
| HandOver.UnhinderedFill | src/memory/manager_default.cc:92-102 | so, once through, it has written seed xor i at every byte of a block of the size asked for |
| MemoryManager.InlineFillEnds | src/memory/manager_default.cc:60-62 | the main thread's own steps take an inline fill to a whole block |
| MemoryManager.MemoryResourceManagerDefault.ReapBackgroundThread | src/memory/manager_default.cc:69-80 | joins just a thread that is done, and says whether one is still in flight |
| MemoryManager.MemoryResourceManagerDefault.WillSchedule | src/memory/manager_default.cc:82-90 | the first time, and whenever more than 45 whole seconds have gone by |
| MemoryManager.MemoryResourceManagerDefault.AllocateAndFill | src/memory/manager_default.cc:92-102 | on the main thread, a whole pattern or no block |
| MemoryManager.MemoryResourceManagerDefault.Spawn | src/memory/manager_default.cc:51-59 | a large block is handed to a new background thread, with the flag down |
| MemoryManager.MemoryResourceManagerDefault.FillInline | src/memory/manager_default.cc:60-62 | a small one is filled at once, as the machine's main thread does in its steps |
| MemoryManager.MemoryResourceManagerDefault.NoteSchedule | src/memory/manager_default.cc:64-66 | the count, the flag and the time of the last schedule are those of the list of all schedules |
| MemoryManager.MemoryResourceManagerDefault.Schedule | src/memory/manager_default.cc:26-67 | the manager's fields follow the machine: a tick, then for a small block the inline fill, so every interleaving result holds of them; with no fill in flight, it schedules the first time and from 46 s after the last, 32 MiB or more on a background thread; a fill in flight leaves all untouched |
| MemoryManager.MemoryResourceManagerDefault.BackgroundStep | src/memory/manager_default.cc:56-59 | so does every step of the background thread, whose last action is the flag |
| MemoryManager.MemoryResourceManagerDefault.AllocateStep | src/memory/allocator.cc:22-29 | the thread's allocation is the machine's |
| MemoryManager.MemoryResourceManagerDefault.FillStep | src/memory/allocator.cc:39-47 | and so is each of its chunks, its test for a stop and its end |
| PciBusId.HexReadsBack | src/gpu/contention/parse.cc:68-72 | a printed number reads back as itself and has at least its width |
| PciBusId.HexIsLower | src/gpu/contention/parse.cc:68-72 | all digits printed are 0-9 or a-f |
| PciBusId.PrintedAsRead | src/gpu/contention/parse.cc:13-30 | and text of such digits is what its value prints as at its width |
| PciBusId.CaseIgnored | src/gpu/contention/parse.cc:13-30 | digits that differ in case only have one value |
| PciBusId.TakeHex | src/gpu/contention/parse.cc:13-30 | takes exactly the digits in front, unless it is empty or too long, with its value in 32 bits |
| PciBusId.TakeChar | src/gpu/contention/parse.cc:32-38 | takes the character if it is at the front |
| PciBusId.CanonicalPciBusId | src/gpu/contention/parse.cc:74-100 | the cursor loop comes to printing what the grammar reads |
| PciBusId.SpellingParsed | src/gpu/contention/parse.cc:74-100 | every spelling (domain or none, either case, up to eight digits a field) of an address in range is read as it, one out of range as nothing |
| PciBusId.ParsedIsSpelling | src/gpu/contention/parse.cc:74-100 | nothing but such spellings is read |
| PciBusId.ParseFormat | src/gpu/contention/parse.cc:68-100 | parsing inverts printing for all addresses in range: 16 bits of domain, 8 of bus, 5 of device, 3 of function |
| PciBusId.ParsedInRange | src/gpu/contention/parse.cc:90-99 | nothing but such addresses is read |
| PciBusId.CanonicalKeepsPrinted | src/gpu/contention/parse.cc:68-100 | a printed address is its own canonical form |
| PciBusId.CanonicalOnce | src/gpu/contention/parse.cc:74-100 | every canonical form is a fixed point |
| PciBusId.FormatInjective | src/gpu/contention/parse.cc:68-72 | no two addresses in range are printed alike |
| PciBusId.FormatShape | src/gpu/contention/parse.cc:68-72 | an address in range is printed in twelve characters, of which the fifth and the eighth are colons and the eleventh a dot, the others lower-case digits |
| PciBusId.KfdUnpacks | src/gpu/contention/parse.cc:124-127 | printing a packed location prints the packed fields, whatever is above them in the word |

## Left out

- BlockSweep.MemSweep.Reset: segment sizes are unbounded; the 64-bit wrap of the offset for segments within one window of 2^64 bytes is not modelled, as no device has them.
- SweepRuns.TrafficConserved: speaks of runs in which the 64-bit sum of pending and new traffic does not wrap (`NoWrap`), and of thread counts that some window fits; `BlockSweep.MemSweep.Next` itself is modelled with the wrap.
- KernelLaunch.AnyOrderSweeps: of launches that lap their window out of step, only that the order can matter is shown; what they leave depends on their timing.
- NormalSchedule.BuildNormalSchedulePoints: takes the bins' masses as arguments and requires them positive, as differences of a strictly increasing distribution function are; with a mass of zero the free weight can run out early and the total be missed.
- NormalDist.FindXAxisPosition: the comparison is any that turns true at a threshold; `erf` and `exp` and the rounding of the midpoint are left out.
- ScheduleWalk.GpuSchedule.Init: bringing up devices, and the conversion of a percentage into milliseconds of the worker's period, are left out; targets are percentages, times milliseconds.
- ScheduleWalk.CpuSchedule.UpdateLoadTarget: how many workers the highest point asks for is left out.
- Contention.Monitor.Poll: at each poll a source is any function of what it is handed, and own busy times are any numbers; the counter of unknown polls is unbounded, where the source's `int` would overflow after billions of polls.
- GpuWorker.GpuWorkerContext.Loop: the traffic's random walk is an arbitrary non-negative factor, the cast of the traffic to 64 bits and of the loop count to 32 are not cut off, and the busy-time counter, the log, sleeping and the absent device are left out; while the count drifts, that the samples keep to a line of the true cost (`Follows`) is taken as given, since a drifted count's residual has the drift in it; with an exact count it is proved; loads are 0..100, others -1..100.
- GpuWorker.GpuWorkerContext.CalibrateBaseLoopCount: the device answers a trial with the time it took; the clock readings around it are not separate.
- LoadControl.SystemConverges: is about exact readings of each tick and demands away from the rails (`Headroom`); the loop on the samplers' means, from any start, is that of `LoadAverages.AveragesConverge`. That demand is monotone in the target is not claimed, since freezing the integral breaks it.
- LoadAverages.AveragesConverge: the others' load and the workers' efficiency are constant, the steady demand has a tenth of the capacity and 0.6 on either side (`Roomy`), and a demand made at one tick is what is measured at the next.
- LoadAverages.CpuResourceManager.Schedule: loads are given as measured; reading the counters, the first tick and ticks without elapsed time are left out.
- Rolling.RollingSampler.InsertValue: the version over `double` only, with exact sums.
- MemoryManager.MemoryResourceManagerDefault.Schedule: the random ratio and seed and the success of the allocation are arguments; memory limits are natural numbers, not cut to `double` precision.
- HandOver.EveryInterleaving: steps are a chunk of the fill, the allocation, the flag or a whole tick; tearing and reordering of memory accesses below that are not modelled, nor the destructor's stop and join.
- PciBusId.ParseFormat: addresses in range only; printing 32-bit fields that overflow the 32-byte buffer is not modelled.
- Device backends, driver loading, the operating systems' contention sources and their other parsers, the factories, options and command line, platform statistics, CPU worker threads and the even split of load among them.
