/** The driver of HJM_Securities.cpp: the process-wide globals it keeps, the
    option parser, the set-up of the swaption records, the per-thread worker
    that prices a contiguous range of them, and the checks of `main`.

    The Monte Carlo kernel `HJM_Swaption_Blocking` is not part of this model:
    it is a parameter, a function from what the worker passes it to the two
    numbers it writes back. */
module Securities {
  import opened HjmType
  import opened Partition
  import opened Options

  /** Largest worker count a threaded build accepts. */
  const MAX_THREAD: int := 1024

  /** Whether the program is built with `ENABLE_THREADS`. */
  datatype BuildMode = Threaded | Serial

  /** The worker-count check of `main`: a threaded build rejects a count
      below 1 or above `MAX_THREAD`, a serial build any count but 1. */
  predicate ThreadCountAccepted(mode: BuildMode, n: int): (ok: bool)
    ensures ok ==> 1 <= n <= MAX_THREAD
  {
    match mode
    case Threaded => !(n < 1 || n > MAX_THREAD)
    case Serial => !(n != 1)
  }

  /** A threaded build accepts exactly the counts in `[1, MAX_THREAD]`, a
      serial build exactly the count 1, which a threaded build accepts too. */
  lemma AcceptedCounts(n: int)
    ensures ThreadCountAccepted(Threaded, n) <==> 1 <= n <= MAX_THREAD
    ensures ThreadCountAccepted(Serial, n) <==> n == 1
    ensures ThreadCountAccepted(Serial, n) ==> ThreadCountAccepted(Threaded, n)
  {
  }

  /** After `parseOpt`, a worker count that `main` accepts leaves no worker
      without a swaption: every worker's range is non-empty. */
  lemma AcceptedConfigKeepsWorkersBusy(argv: seq<string>, c: Config, atoi: string -> Int32,
                                       mode: BuildMode, tid: int)
    requires ValuesPresent(Args(argv))
    requires ParseResult(argv, c, atoi).Proceed?
    requires ThreadCountAccepted(mode, ParseResult(argv, c, atoi).cfg.nThreads)
    requires 0 <= tid < ParseResult(argv, c, atoi).cfg.nThreads
    ensures var cfg := ParseResult(argv, c, atoi).cfg;
            Beg(tid, cfg.nSwaptions, cfg.nThreads) < End(tid, cfg.nSwaptions, cfg.nThreads)
  {
    var cfg := ParseResult(argv, c, atoi).cfg;
    NonEmpty(tid, cfg.nSwaptions, cfg.nThreads);
  }

  /** What `worker` passes to `HJM_Swaption_Blocking` for one swaption: the
      record's terms, the contents of its yield curve and factor table, the
      seed (the literal 100, equal to `RANDSEEDVAL`), the trial count and the
      block size. */
  datatype PricerInput = PricerInput(
    strike: real,
    compounding: real,
    maturity: real,
    tenor: real,
    paymentInterval: real,
    numSteps: int,
    numFactors: int,
    years: real,
    yieldCurve: seq<real>,
    factors: seq<real>,
    seed: int,
    trials: int,
    blockSize: int)

  /** The two numbers the kernel leaves in `pdSwaptionPrice`. */
  datatype Price = Price(mean: real, stdError: real)

  /** A record whose two buffers have been allocated. */
  predicate HasBuffers(p: Parm) {
    p.yieldCurve != null && p.factors != null
  }

  /** The kernel's input for record `p`, read from `p` and its buffers. */
  function InputOf(p: Parm, trials: int): (r: PricerInput)
    requires HasBuffers(p)
    reads p.yieldCurve, p.factors
    ensures r.yieldCurve == p.yieldCurve[..] && r.factors == p.factors[..]
    ensures r.strike == p.strike && r.compounding == p.compounding && r.maturity == p.maturity
            && r.tenor == p.tenor && r.paymentInterval == p.paymentInterval
    ensures r.numSteps == p.numSteps && r.numFactors == p.numFactors && r.years == p.years
    ensures r.seed == RANDSEEDVAL && r.blockSize == BLOCK_SIZE && r.trials == trials
  {
    PricerInput(p.strike, p.compounding, p.maturity, p.tenor, p.paymentInterval,
                p.numSteps, p.numFactors, p.years, p.yieldCurve[..], p.factors[..],
                100, trials, BLOCK_SIZE)
  }

  /** `p` with the kernel's two results stored, every other field kept. */
  function Priced(p: Parm, r: Price): (q: Parm)
    ensures q.meanPrice == r.mean && q.stdError == r.stdError
    ensures q.(meanPrice := p.meanPrice, stdError := p.stdError) == p
  {
    p.(meanPrice := r.mean, stdError := r.stdError)
  }

  /** Point `j` of the synthetic yield curve: 0.1, raised by 0.005 per point
      (in exact arithmetic, not IEEE double). */
  function InitialYield(j: int): real {
    0.1 + 0.005 * j as real
  }

  /** The kernel's input for swaption `i` of `n` as `initSwaption` sets it up
      from the factor table `table`: nothing in it depends on how the
      swaptions are later split among workers. */
  function InitialInput(i: int, n: int, trials: int, table: seq<real>): (r: PricerInput)
    requires 0 <= i < n
    ensures 0.0 <= r.strike < 1.0
    ensures |r.yieldCurve| == NUM_STEPS + 1 && r.factors == table
    ensures r.seed == RANDSEEDVAL && r.trials == trials
  {
    StrikeBelowOne(i, n);
    PricerInput(i as real / n as real, 0.0, 1.0, 2.0, 1.0, NUM_STEPS, NUM_FACTORS, YEARS,
                seq(NUM_STEPS + 1, j => InitialYield(j)), table, 100, trials, BLOCK_SIZE)
  }

  /** The strike `i / n` of swaption `i` of `n` lies in `[0, 1)`. */
  lemma StrikeBelowOne(i: int, n: int)
    requires 0 <= i < n
    ensures 0.0 <= i as real / n as real < 1.0
  {
    assert (i as real / n as real) * n as real == i as real;
  }

  /** Record `p` is swaption `i` of `n` as `initSwaption` leaves it: its
      identity, the global dimensions, the fixed terms, the yield curve and
      a row-major copy of `table`. The two result fields are not set. */
  ghost predicate Initialised(p: Parm, i: int, n: int, table: seq<real>): (ok: bool)
    reads p.yieldCurve, p.factors
    ensures ok ==> HasBuffers(p) && 0.0 <= p.strike < 1.0
  {
    0 <= i < n && (StrikeBelowOne(i, n); p.id == i)
    && p.numSteps == NUM_STEPS && p.numFactors == NUM_FACTORS && p.years == YEARS
    && p.strike == i as real / n as real
    && p.compounding == 0.0 && p.maturity == 1.0 && p.tenor == 2.0 && p.paymentInterval == 1.0
    && HasBuffers(p)
    && p.yieldCurve.Length == NUM_STEPS + 1
    && (forall j :: 0 <= j <= NUM_STEPS ==> p.yieldCurve[j] == InitialYield(j))
    && p.factors.Length == FACTOR_TABLE_SIZE && |table| == FACTOR_TABLE_SIZE
    && (forall k, j :: 0 <= k < NUM_FACTORS && 0 <= j < NUM_STEPS - 1 ==>
          p.factors[RowMajor(k, j)] == table[RowMajor(k, j)])
  }

  /** The element-wise row-major copy covers the whole table, so an
      initialised record hands the kernel exactly the set-up input. */
  lemma InitialisedInput(p: Parm, i: int, n: int, trials: int, table: seq<real>)
    requires Initialised(p, i, n, table)
    ensures InputOf(p, trials) == InitialInput(i, n, trials, table)
  {
    var cols := NUM_STEPS - 1;
    forall x | 0 <= x < FACTOR_TABLE_SIZE
      ensures p.factors[x] == table[x]
    {
      var k, j := x / cols, x % cols;
      assert x == RowMajor(k, j);
      assert p.factors[RowMajor(k, j)] == table[RowMajor(k, j)];
    }
    assert p.factors[..] == table;
    assert p.yieldCurve[..] == seq(NUM_STEPS + 1, j => InitialYield(j));
  }

  /** The globals of the process: the three settings `parseOpt` may change
      and the `swaptions` array. `iN`, `dYears` and `iFactors` are never
      assigned and are the constants NUM_STEPS, YEARS and NUM_FACTORS. */
  class Globals {
    var numTrials: Int32
    var nThreads: Int32
    var nSwaptions: Int32
    var swaptions: array?<Parm>

    /** Static initialisation of the globals. */
    constructor ()
      ensures Settings() == Defaults && swaptions == null
    {
      numTrials, nThreads, nSwaptions := DEFAULT_NUM_TRIALS, 1, 1;
      swaptions := null;
    }

    function Settings(): Config
      reads this
    {
      Config(numTrials, nThreads, nSwaptions)
    }

    /** `parseOpt(argc, argv)`. `exited` means the usage message was printed
        and the process exits with status 1; `rejected` lists the arguments
        for which the usage message was printed without stopping. */
    method ParseOpt(argv: seq<string>, atoi: string -> Int32) returns (exited: bool, rejected: seq<string>)
      requires ValuesPresent(Args(argv))
      modifies this`numTrials, this`nThreads, this`nSwaptions
      ensures exited <==> |argv| == 1
      ensures exited ==> Settings() == old(Settings()) && rejected == []
      ensures !exited ==> ParseResult(argv, old(Settings()), atoi) == Proceed(Settings(), rejected)
    {
      if |argv| == 1 {
        return true, [];
      }
      exited, rejected := false, [];
      ghost var start, args := Settings(), Args(argv);
      var j := 1;
      while j < |argv|
        invariant 1 <= j <= |args| + 1
        invariant ValuesPresent(args[j - 1..])
        invariant Scan(args, start, atoi) == Scan(args[j - 1..], Settings(), atoi)
        invariant Rejected(args) == rejected + Rejected(args[j - 1..])
        decreases |argv| - j
      {
        ghost var c0, rest := Settings(), args[j - 1..];
        assert rest[0] == argv[j];
        ghost var next := if IsFlag(rest[0]) then rest[2..] else rest[1..];
        assert ValuesPresent(next) && Rejected(rest) == (if IsFlag(rest[0]) then [] else [rest[0]]) + Rejected(next);
        if argv[j] == "-sm" {
          j := j + 1;
          numTrials := atoi(argv[j]);
          assert Settings() == Set(c0, Trials, atoi(rest[1]));
        } else if argv[j] == "-nt" {
          j := j + 1;
          nThreads := atoi(argv[j]);
          assert Settings() == Set(c0, Threads, atoi(rest[1]));
        } else if argv[j] == "-ns" {
          j := j + 1;
          nSwaptions := atoi(argv[j]);
          assert Settings() == Set(c0, Swaptions, atoi(rest[1]));
        } else {
          rejected := rejected + [argv[j]];
        }
        j := j + 1;
        assert args[j - 1..] == next;
      }
      if nSwaptions < nThreads {
        nSwaptions := nThreads;
      }
    }

    /** `initSwaption(factors)`: allocates the `swaptions` array and sets up
        every record, with a yield buffer and a factor buffer of its own; the
        factor table passed in is only read. */
    method InitSwaption(table: array<real>)
      requires 0 <= nSwaptions
      requires table.Length == FACTOR_TABLE_SIZE
      modifies this`swaptions
      ensures fresh(swaptions) && swaptions.Length == nSwaptions
      ensures forall i :: 0 <= i < nSwaptions ==>
                Initialised(swaptions[i], i, nSwaptions, table[..])
                && fresh(swaptions[i].yieldCurve) && fresh(swaptions[i].factors)
      ensures forall i, i' :: 0 <= i < i' < nSwaptions ==> SeparateBuffers(swaptions[i], swaptions[i'])
      ensures unchanged(table)
    {
      var a := new Parm[nSwaptions];
      swaptions := a;
      for i := 0 to nSwaptions
        invariant swaptions == a
        invariant forall i0 :: 0 <= i0 < i ==>
                    Initialised(a[i0], i0, nSwaptions, table[..])
                    && fresh(a[i0].yieldCurve) && fresh(a[i0].factors)
        invariant forall i0, i1 :: 0 <= i0 < i1 < i ==> SeparateBuffers(a[i0], a[i1])
      {
        var p := NewSwaption(i, nSwaptions, table);
        a[i] := p;
      }
    }

    /** `worker(&tid)`: prices the swaptions of worker `tid`'s range one by
        one and stores each one's mean price and standard error in its
        record. No other field and no record outside the range changes. */
    method Worker(tid: int, pricer: PricerInput -> Price)
      requires swaptions != null && swaptions.Length == nSwaptions
      requires 0 <= tid < nThreads
      requires forall i :: 0 <= i < nSwaptions ==> HasBuffers(swaptions[i])
      modifies swaptions
      ensures forall i :: 0 <= i < nSwaptions ==>
                swaptions[i] == if Beg(tid, nSwaptions, nThreads) <= i < End(tid, nSwaptions, nThreads)
                                then Priced(old(swaptions[i]), pricer(InputOf(old(swaptions[i]), numTrials)))
                                else old(swaptions[i])
    {
      var chunksize := nSwaptions / nThreads;
      var beg := tid * chunksize;
      var end := if tid == nThreads - 1 then nSwaptions else (tid + 1) * chunksize;
      assert beg == Beg(tid, nSwaptions, nThreads) && end == End(tid, nSwaptions, nThreads);
      for i := beg to end
        invariant forall i0 :: 0 <= i0 < nSwaptions ==>
                    swaptions[i0] == if beg <= i0 < i
                                     then Priced(old(swaptions[i0]), pricer(InputOf(old(swaptions[i0]), numTrials)))
                                     else old(swaptions[i0])
      {
        var price := pricer(InputOf(swaptions[i], numTrials));
        swaptions[i] := swaptions[i].(meanPrice := price.mean, stdError := price.stdError);
      }
    }

    /** `main(argc, argv)` up to the report: parse the options, check the
        worker count, set up the swaptions from the factor table `table`
        (what `getFactors` returns) and run every worker. Threads are run one
        after another in id order; their ranges are disjoint, so the order
        does not affect the result. Returns the exit status. */
    method Run(mode: BuildMode, argv: seq<string>, atoi: string -> Int32,
               table: array<real>, pricer: PricerInput -> Price) returns (status: int)
      requires ValuesPresent(Args(argv))
      requires table.Length == FACTOR_TABLE_SIZE
      modifies this
      ensures var r := ParseResult(argv, old(Settings()), atoi);
              status == if r.Exit? || !ThreadCountAccepted(mode, r.cfg.nThreads) then 1 else 0
      ensures status == 1 ==> swaptions == old(swaptions)
      ensures status == 0 ==>
                Settings() == ParseResult(argv, old(Settings()), atoi).cfg
                && fresh(swaptions) && swaptions.Length == nSwaptions
                && forall i :: 0 <= i < nSwaptions ==>
                     Initialised(swaptions[i], i, nSwaptions, table[..])
                     && swaptions[i].meanPrice == pricer(InitialInput(i, nSwaptions, numTrials, table[..])).mean
                     && swaptions[i].stdError == pricer(InitialInput(i, nSwaptions, numTrials, table[..])).stdError
    {
      var exited, rejected := ParseOpt(argv, atoi);
      if exited {
        return 1;
      }
      // The threaded build repeats this check after allocating the thread
      // handles; the repetition cannot change the outcome.
      if !ThreadCountAccepted(mode, nThreads) {
        return 1;
      }
      InitSwaption(table);
      ghost var init := swaptions[..];
      forall i | 0 <= i < nSwaptions
        ensures InputOf(init[i], numTrials) == InitialInput(i, nSwaptions, numTrials, table[..])
      {
        InitialisedInput(init[i], i, nSwaptions, numTrials, table[..]);
      }
      RunWorkers(mode, pricer);
      return 0;
    }

    /** The thread creation and join of `main` (a threaded build starts
        worker `tid` for every `tid < nThreads` and waits for all of them; a
        serial build calls worker 0 directly). The workers' ranges tile
        `[0, nSwaptions)`, so afterwards every swaption holds the kernel's
        result for its own input. */
    method RunWorkers(mode: BuildMode, pricer: PricerInput -> Price)
      requires swaptions != null && swaptions.Length == nSwaptions
      requires ThreadCountAccepted(mode, nThreads)
      requires forall i :: 0 <= i < nSwaptions ==> HasBuffers(swaptions[i])
      modifies swaptions
      ensures forall i :: 0 <= i < nSwaptions ==>
                swaptions[i] == Priced(old(swaptions[i]), pricer(InputOf(old(swaptions[i]), numTrials)))
    {
      match mode
      case Threaded =>
        var tid := 0;
        while tid < nThreads
          invariant 0 <= tid <= nThreads
          invariant forall i :: 0 <= i < nSwaptions ==>
                      swaptions[i] == if i < (if tid < nThreads then Beg(tid, nSwaptions, nThreads) else nSwaptions)
                                      then Priced(old(swaptions[i]), pricer(InputOf(old(swaptions[i]), numTrials)))
                                      else old(swaptions[i])
        {
          Worker(tid, pricer);
          if tid + 1 < nThreads {
            Adjacent(tid, nSwaptions, nThreads);
          }
          tid := tid + 1;
        }
      case Serial =>
        Worker(0, pricer);
    }
  }

  /** The body of the loop of `initSwaption` for record `i` of `n`: fresh
      yield and factor buffers, the fixed fields, the yield curve and the
      copy of the factor table. The result fields stay unset (zero here). */
  method NewSwaption(i: int, n: int, table: array<real>) returns (p: Parm)
    requires 0 <= i < n
    requires table.Length == FACTOR_TABLE_SIZE
    ensures Initialised(p, i, n, table[..])
    ensures fresh(p.yieldCurve) && fresh(p.factors) && p.yieldCurve != p.factors
  {
    var y := new real[NUM_STEPS + 1];
    var f := new real[FACTOR_TABLE_SIZE];
    p := Parm(i, 0.0, 0.0, i as real / n as real, 0.0, 1.0, 2.0, 1.0,
              NUM_STEPS, YEARS, NUM_FACTORS, y, f);
    FillYieldCurve(y, p.numSteps);
    CopyFactors(f, table, p.numFactors, p.numSteps);
  }

  /** The yield-curve loop of `initSwaption`: point 0 is 0.1 and each later
      point adds 0.005, for points `0..numSteps`. The loop writes
      `numSteps + 1` entries into a buffer allocated as `dvector(iN)`;
      `dvector` is not part of this model, so room for them is required. */
  method FillYieldCurve(y: array<real>, numSteps: int)
    requires 0 <= numSteps && numSteps + 1 <= y.Length
    modifies y
    ensures forall j :: 0 <= j <= numSteps ==> y[j] == InitialYield(j)
    ensures forall j :: numSteps < j < y.Length ==> y[j] == old(y[j])
  {
    y[0] := 0.1;
    for j := 1 to numSteps + 1
      invariant forall j0 :: 0 <= j0 < j ==> y[j0] == InitialYield(j0)
      invariant forall j0 :: numSteps < j0 < y.Length ==> y[j0] == old(y[j0])
    {
      y[j] := y[j - 1] + 0.005;
    }
  }

  /** The factor-copy loops of `initSwaption`: row `k < numFactors`,
      column `j < numSteps - 1` of `table` is copied to the same row-major
      offset of `f`. The offset uses the global `iN`, the bounds the record's
      own fields, so the record must carry the global dimensions. */
  method CopyFactors(f: array<real>, table: array<real>, numFactors: int, numSteps: int)
    requires numFactors == NUM_FACTORS && numSteps == NUM_STEPS
    requires f.Length == FACTOR_TABLE_SIZE && table.Length == FACTOR_TABLE_SIZE
    modifies f
    ensures forall k, j :: 0 <= k < numFactors && 0 <= j < numSteps - 1 ==>
              f[RowMajor(k, j)] == table[RowMajor(k, j)]
  {
    for k := 0 to numFactors
      invariant forall x :: 0 <= x < RowMajor(k, 0) ==> f[x] == table[x]
    {
      for j := 0 to numSteps - 1
        invariant forall x :: 0 <= x < RowMajor(k, j) ==> f[x] == table[x]
      {
        f[RowMajor(k, j)] := table[RowMajor(k, j)];
      }
    }
  }

  /** Two records share no buffer: neither their yield curves nor their
      factor tables alias each other or one another. */
  ghost predicate SeparateBuffers(p: Parm, q: Parm) {
    && p.yieldCurve != q.yieldCurve && p.factors != q.factors
    && p.yieldCurve != q.factors && p.factors != q.yieldCurve
  }
}
