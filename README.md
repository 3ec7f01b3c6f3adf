# Swaption pricing driver (HJM Monte Carlo), modelled in Dafny

The program prices a portfolio of interest-rate swaptions by Monte Carlo
simulation under the Heath-Jarrow-Morton model. This project models the
driver in `HJM_Securities.cpp`, that is, everything around the simulation
kernel:

- the process globals (trial count, thread count, swaption count, the
  `swaptions` array);
- `parseOpt`, the command-line parser;
- the worker-count check in `main`;
- `initSwaption`, which sets up one `parm` record per swaption and copies the
  factor table into it;
- `worker`, which gives each thread a contiguous range of swaptions. The last
  thread also takes the remainder. For each swaption in its range, the worker
  stores the kernel's mean price and standard error in the record.

Files:

- `hjm_type.dfy`: module `HjmType`. Holds the constants of `HJM_type.h`, the
  C `int` range, the fixed dataset dimensions, and the `parm` record as the
  datatype `Parm`.
- `partition.dfy`: module `Partition`. The pure partition arithmetic
  (`Beg`, `End`, `Owner`) and its coverage and disjointness lemmas.
- `options.dfy`: module `Options`. What `parseOpt` computes, written as
  functions over the argument list, with lemmas about option order,
  overriding and unrecognised arguments.
- `securities.dfy`: module `Securities`. The class `Globals` (the C globals)
  with the methods `ParseOpt`, `InitSwaption`, `Worker`, `RunWorkers` and
  `Run` (the body of `main`). Each method is proved against the functions
  above.

The main end-to-end result is the postcondition of `Globals.Run`. When `main`
gets past its checks, each swaption `i` ends up holding exactly the kernel's
result for its own set-up input, `InitialInput(i, nSwaptions, numTrials,
table)`. That input does not mention the thread count, so for the same final
swaption count, splitting the portfolio over a different number of workers
gives the same per-swaption results. The final swaption count itself can
depend on the thread count, because `parseOpt` raises it to the thread count
(so `-ns 2 -nt 4` prices four swaptions and `-ns 2 -nt 1` two). This is proved using the facts that the worker ranges are laid end
to end (`Adjacent`) and that each worker writes only its own range
(`Worker`).

Several parts of the program are parameters of the model:

- `atoi` is a function `string -> Int32`.
- The kernel `HJM_Swaption_Blocking` is a function `PricerInput -> Price`.
- The literal volatility table of `getFactors` is an input array of
  `NUM_FACTORS * (NUM_STEPS - 1)` reals.

Threads are modelled as workers run one after another, in id order. The
ranges are disjoint, so the order does not affect the results.

Where the usage text and the code disagree, the model follows the code. The
usage message asks for more swaptions than threads. The code only raises the
swaption count to the thread count, so equal counts are accepted.

## Model

| member | source | states |
|---|---|---|
| `Partition.ChunkSize` | HJM_Securities.cpp:33 | `chunksize` is the rounded-down share: `c * t <= n < (c + 1) * t`, `c >= 0` |
| `Partition.Beg` | HJM_Securities.cpp:34 | a worker's first index lies in `[0, n]` |
| `Partition.End` | HJM_Securities.cpp:35 | a worker's end lies in `[Beg, n]`, so its loop stays inside the array |
| `Partition.RangeLength` | HJM_Securities.cpp:33-35 | every worker but the last prices exactly `chunksize` swaptions; the last prices `chunksize + n % t` |
| `Partition.Adjacent` | HJM_Securities.cpp:33-37 | for any worker count `t >= 1`, one worker included: `End(tid) == Beg(tid + 1)` for every worker but the last, `Beg(0) == 0`, `End(t - 1) == n` |
| `Partition.Owner` | HJM_Securities.cpp:33-37 | every index in `[0, n)` lies in the range of some worker `0 <= tid < t` |
| `Partition.OwnerUnique` | HJM_Securities.cpp:33-37 | a worker whose range holds `i` is `Owner(i)`, so no index is priced twice |
| `Partition.ExactlyOneWorker` | HJM_Securities.cpp:33-37 | worker `tid`'s range holds `i` if and only if `tid == Owner(i)` |
| `Partition.NonEmpty` | HJM_Securities.cpp:33-35 | `n >= t >= 1` makes `chunksize >= 1`, so every range is non-empty |
| `Partition.BoundsFitInt` | HJM_Securities.cpp:33-35 | with `n` a C `int`, the products `tid * chunksize` and `(tid + 1) * chunksize` do not overflow |
| `Options.Set` | HJM_Securities.cpp:92-94 | assigning one setting gives it the new value and leaves the other two settings as they were |
| `Options.ValuesPresent` | HJM_Securities.cpp:91-94 | the argument lists `parseOpt` handles without reading past `argv`; any list without a recognised option is one of them |
| `Options.TrailingOptionLacksValue` | HJM_Securities.cpp:92-94 | a recognised option as the last argument has no value to `atoi`, so such lists are outside `ValuesPresent` |
| `Options.Scan` | HJM_Securities.cpp:91-98 | after the loop, each setting holds its value from before the loop or `atoi` of one of the arguments |
| `Options.FlagSetting` | HJM_Securities.cpp:92-94 | the options `-sm`, `-nt`, `-ns` are recognised by exact comparison, each naming its own setting |
| `Options.Rejected` | HJM_Securities.cpp:95-97 | the arguments that print the usage message are the unrecognised ones, taken from the argument list |
| `Options.ParseResult` | HJM_Securities.cpp:84-103 | no arguments means exit with status 1; otherwise the parse goes on and ends with `nSwaptions >= nThreads` |
| `Options.ParseClamp` | HJM_Securities.cpp:100-102 | the final rule keeps the trial and thread counts and sets the swaption count to the larger of the two counts |
| `Options.ScanAppend` | HJM_Securities.cpp:91-98 | parsing a concatenation at an option boundary is parsing the second part from the first part's settings; the usage reports concatenate |
| `Options.ScanForgets` | HJM_Securities.cpp:91-94 | a setting's earlier value never shows through a later assignment of it |
| `Options.LastOccurrenceDecides` | HJM_Securities.cpp:91-94 | a final `flag value` sets that setting to `atoi(value)` and leaves the other two as the earlier arguments left them |
| `Options.LaterOccurrenceOverrides` | HJM_Securities.cpp:91-94 | an earlier occurrence of an option has no effect once a later one of the same option follows |
| `Options.UnrecognisedSkipped` | HJM_Securities.cpp:95-97 | an unrecognised argument changes no setting, does not stop parsing, and is reported in its place |
| `Options.NoOptionsNoChange` | HJM_Securities.cpp:91-98 | arguments without any option leave all three settings unchanged and are all reported |
| `Securities.ThreadCountAccepted` | HJM_Securities.cpp:192-207 | a count the check of `main` lets through lies in `1..MAX_THREAD` |
| `Securities.AcceptedCounts` | HJM_Securities.cpp:192-207 | a threaded build accepts exactly `1..1024` workers, a serial build exactly 1, which a threaded build accepts too |
| `Securities.AcceptedConfigKeepsWorkersBusy` | HJM_Securities.cpp:192-207 | after `parseOpt` and the worker-count check, every worker's range is non-empty |
| `Securities.InputOf` | HJM_Securities.cpp:53-58 | the kernel gets the record's strike, compounding, maturity, tenor, payment interval, `iN`, `iFactors` and `dYears`, the full contents of both buffers, the random seed `RANDSEEDVAL` (100), the trial count and `BLOCK_SIZE` |
| `Securities.InitialInput` | HJM_Securities.cpp:150-169 | the set-up input of swaption `i`: a strike in `[0, 1)`, a yield curve of `iN + 1` points, the factor table itself, seed `RANDSEEDVAL`, the global trial count |
| `Securities.StrikeBelowOne` | HJM_Securities.cpp:156 | the strike `i / nSwaptions` of every swaption lies in `[0, 1)` |
| `Securities.Initialised` | HJM_Securities.cpp:150-169 | a record as `initSwaption` leaves it has both buffers and a strike in `[0, 1)` |
| `Securities.Priced` | HJM_Securities.cpp:77-78 | storing a result sets the mean price and the standard error and keeps every other field |
| `Securities.InitialisedInput` | HJM_Securities.cpp:166-169 | the element-wise row-major copy covers the whole factor table, so a set-up record hands the kernel exactly `InitialInput` |
| `Securities.NewSwaption` | HJM_Securities.cpp:150-169 | one record: `Id == i`, the global dimensions, compounding 0, maturity 1, tenor 2, payment interval 1, strike `i / n`, with two fresh, distinct buffers |
| `Securities.FillYieldCurve` | HJM_Securities.cpp:162-164 | yield point `j` is `0.1 + 0.005 * j` for `j` in `0..numSteps`; entries beyond those are untouched |
| `Securities.CopyFactors` | HJM_Securities.cpp:166-169 | `f[k*(iN-1)+j] == table[k*(iN-1)+j]` for `k < iFactors`, `j < iN-1`; only `f` is written |
| `Securities.Globals.constructor` | HJM_Securities.cpp:21-27 | the globals start at 102400 trials, one thread, one swaption, and no swaption array |
| `Securities.Globals.ParseOpt` | HJM_Securities.cpp:84-103 | exits exactly when there are no arguments, leaving the settings as they were; otherwise the new settings and the usage reports are those of `ParseResult` |
| `Securities.Globals.InitSwaption` | HJM_Securities.cpp:145-172 | a fresh array of `nSwaptions` records, each set up for its index; no two records share a buffer; the factor table is not modified |
| `Securities.Globals.Worker` | HJM_Securities.cpp:29-82 | each swaption in `[Beg(tid), End(tid))` gets the kernel's two results for its own input; no other field and no record outside the range changes |
| `Securities.Globals.RunWorkers` | HJM_Securities.cpp:214-228 | after all workers, every swaption holds the result of the kernel applied to its own input; no other field changes |
| `Securities.Globals.Run` | HJM_Securities.cpp:176-228 | exit status 1 exactly when there are no arguments or the worker count is rejected, with no swaption set up; otherwise every swaption `i` holds the kernel's result for `InitialInput(i, ...)`, whatever the thread count |

## Left out

- `HJM_Swaption_Blocking`, the Monte Carlo kernel, is not part of this model. Its source is not available, and it is a floating-point simulation. It appears only as the function parameter `pricer`. The model takes the `assert(iSuccess == 1)` of line 62 as always holding, so the kernel returns only the two prices.
- The constant `0` that `worker` passes to the kernel after `BLOCK_SIZE` (line 58) is not in `PricerInput`. Its meaning lies in the kernel.
- The per-swaption workspace (`dmatrix`, `dvector` and the `free` calls, lines 40-51 and 64-75) is not modelled. `ddelt` and the rounded `iSwapVectorLength` (lines 38-39) are left out too, because they are floating-point. The model does record that each set-up record carries the global `iN` and `iFactors`, which are the dimensions `worker` uses to size those buffers.
- `getFactors` (lines 105-143) is hard-coded data. The table it returns is an input array of 30 entries. Its literal offsets fill 10 entries per row, which matches `iN - 1` only because `iN` is 11.
- The strike `i / nSwaptions` (line 156) and the yield accumulation `+ 0.005` (line 164) are modelled in exact `real` arithmetic, not IEEE double.
- `pthread_create` and `pthread_join` (lines 214-222): the concurrency itself is not modelled. Workers run one after another in id order, which is valid because their ranges are disjoint.
- The second, identical worker-count check of a threaded build (lines 199-202) is folded into the first. It cannot change the outcome.
- All output (`printf`, `fprintf`, the per-swaption report of lines 230-233) and the final `free` calls (lines 235-240) are left out, because they are I/O and memory release.
- `atoi` is a parameter: any function from strings to C `int`s.
- `Globals.ParseOpt`: requires that every option read as an option is followed by a value (`ValuesPresent`). The source reads `argv[++j]` unchecked, so after a trailing `-sm`, `-nt` or `-ns` it passes the null `argv[argc]` to `atoi`, which is undefined behaviour; the loop then stops because `j` has passed `argc`.
- `FillYieldCurve`: requires room for `numSteps + 1` entries. The buffer comes from `dvector(iN)`, whose length is set by code this model does not include. `NewSwaption` therefore allocates `NUM_STEPS + 1` entries.
- `NewSwaption`: the result fields of a `malloc`ed record hold no defined value in the source. The model stores zero there and none of its contracts depends on that value.
- The partition uses Dafny's Euclidean `/` and `%`, while C truncates toward zero. The two agree on non-negative operands. The partition is only computed after the counts have been checked (`nSwaptions >= nThreads >= 1`), so the model requires `n >= 0`.
