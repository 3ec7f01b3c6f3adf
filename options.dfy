/** What `parseOpt` in HJM_Securities.cpp does to the three configurable
    globals, as functions over the argument list. `atoi` is a library call
    whose text is not part of this model: it is a parameter, an arbitrary
    function from an argument string to a C `int`. */
module Options {
  import opened HjmType

  /** The three globals `parseOpt` may change. */
  datatype Config = Config(numTrials: Int32, nThreads: Int32, nSwaptions: Int32)

  /** The values the program starts with: 102400 trials, one thread, one swaption. */
  const Defaults: Config := Config(DEFAULT_NUM_TRIALS, 1, 1)

  /** The setting a recognised option assigns. */
  datatype Setting = Trials | Threads | Swaptions

  datatype Option<T> = None | Some(value: T)

  /** `-sm`, `-nt` and `-ns`, compared with `strcmp`, i.e. exactly. */
  function FlagSetting(arg: string): (s: Option<Setting>)
    ensures s == Some(Trials) <==> arg == "-sm"
    ensures s == Some(Threads) <==> arg == "-nt"
    ensures s == Some(Swaptions) <==> arg == "-ns"
  {
    if arg == "-sm" then Some(Trials)
    else if arg == "-nt" then Some(Threads)
    else if arg == "-ns" then Some(Swaptions)
    else None
  }

  predicate IsFlag(arg: string) {
    FlagSetting(arg).Some?
  }

  function Get(c: Config, s: Setting): Int32 {
    match s
    case Trials => c.numTrials
    case Threads => c.nThreads
    case Swaptions => c.nSwaptions
  }

  /** `c` with setting `s` replaced by `v` and the other two kept. */
  function Set(c: Config, s: Setting, v: Int32): (r: Config)
    ensures Get(r, s) == v
    ensures forall s' :: s' != s ==> Get(r, s') == Get(c, s')
  {
    match s
    case Trials => c.(numTrials := v)
    case Threads => c.(nThreads := v)
    case Swaptions => c.(nSwaptions := v)
  }

  /** The arguments after the program name, `argv[1..argc-1]`. */
  function Args(argv: seq<string>): seq<string> {
    if |argv| == 0 then [] else argv[1..]
  }

  /** Every recognised option that is read as an option is followed by a
      value. `parseOpt` reads `argv[++j]` without a bounds check, so after a
      trailing option it passes the null `argv[argc]` to `atoi`, which is
      undefined behaviour; callers must not do that. An option string in
      value position is a value, not an option. */
  predicate ValuesPresent(args: seq<string>): (ok: bool)
    ensures (forall k :: 0 <= k < |args| ==> !IsFlag(args[k])) ==> ok
    decreases |args|
  {
    if args == [] then true
    else if IsFlag(args[0]) then |args| >= 2 && ValuesPresent(args[2..])
    else ValuesPresent(args[1..])
  }

  /** `v` is the initial value `v0` or what `atoi` makes of one of `args`. */
  predicate FromArgs(v: Int32, v0: Int32, args: seq<string>, atoi: string -> Int32) {
    v == v0 || exists k :: 0 <= k < |args| && v == atoi(args[k])
  }

  /** The settings after the loop of `parseOpt` has walked `args` from `c`. */
  function Scan(args: seq<string>, c: Config, atoi: string -> Int32): (r: Config)
    requires ValuesPresent(args)
    ensures forall s :: FromArgs(Get(r, s), Get(c, s), args, atoi)
    decreases |args|
  {
    if args == [] then c
    else match FlagSetting(args[0])
      case Some(s) => Scan(args[2..], Set(c, s, atoi(args[1])), atoi)
      case None => Scan(args[1..], c, atoi)
  }

  /** The arguments the loop does not recognise, in order; each one makes
      `parseOpt` print the usage message once. */
  function Rejected(args: seq<string>): (r: seq<string>)
    requires ValuesPresent(args)
    ensures forall k :: 0 <= k < |r| ==> !IsFlag(r[k]) && r[k] in args
    decreases |args|
  {
    if args == [] then []
    else if IsFlag(args[0]) then Rejected(args[2..])
    else [args[0]] + Rejected(args[1..])
  }

  /** How `parseOpt` ends. */
  datatype ParseOutcome =
    | Exit(code: int)                                 // usage printed, process exits
    | Proceed(cfg: Config, rejected: seq<string>)     // settings, unrecognised arguments

  /** The whole of `parseOpt`: no arguments at all exits with status 1;
      otherwise the loop's settings, with the swaption count raised to the
      thread count when it is smaller. */
  function ParseResult(argv: seq<string>, c: Config, atoi: string -> Int32): (r: ParseOutcome)
    requires ValuesPresent(Args(argv))
    ensures r.Exit? <==> |argv| == 1
    ensures r.Exit? ==> r.code == 1
    ensures r.Proceed? ==> r.cfg.nSwaptions >= r.cfg.nThreads
  {
    if |argv| == 1 then Exit(1)
    else
      var s := Scan(Args(argv), c, atoi);
      Proceed(if s.nSwaptions < s.nThreads then s.(nSwaptions := s.nThreads) else s,
              Rejected(Args(argv)))
  }

  /** The clamp at the end of `parseOpt` keeps the trial and thread counts
      the loop produced and sets the swaption count to the larger of the two
      counts. */
  lemma ParseClamp(argv: seq<string>, c: Config, atoi: string -> Int32)
    requires ValuesPresent(Args(argv)) && |argv| != 1
    ensures var s := Scan(Args(argv), c, atoi);
            var r := ParseResult(argv, c, atoi);
            r.Proceed? && r.cfg.numTrials == s.numTrials && r.cfg.nThreads == s.nThreads
            && r.cfg.nSwaptions == (if s.nSwaptions < s.nThreads then s.nThreads else s.nSwaptions)
            && r.rejected == Rejected(Args(argv))
  {
  }

  /** Parsing splits at any boundary between whole options: a well-formed
      prefix is parsed first and the rest continues from its settings. */
  lemma {:induction false} ScanAppend(a: seq<string>, b: seq<string>, c: Config, atoi: string -> Int32)
    requires ValuesPresent(a)
    ensures ValuesPresent(a + b) <==> ValuesPresent(b)
    ensures ValuesPresent(b) ==> Scan(a + b, c, atoi) == Scan(b, Scan(a, c, atoi), atoi)
    ensures ValuesPresent(b) ==> Rejected(a + b) == Rejected(a) + Rejected(b)
    decreases |a|
  {
    if a == [] {
      assert a + b == b;
    } else if IsFlag(a[0]) {
      assert (a + b)[2..] == a[2..] + b;
      ScanAppend(a[2..], b, Set(c, FlagSetting(a[0]).value, atoi(a[1])), atoi);
    } else {
      assert (a + b)[1..] == a[1..] + b;
      ScanAppend(a[1..], b, c, atoi);
    }
  }

  /** Whatever `args` does to setting `s`, a later assignment of `s`
      erases the setting's earlier value. */
  lemma {:induction false} ScanForgets(args: seq<string>, c: Config, s: Setting, x: Int32, y: Int32, atoi: string -> Int32)
    requires ValuesPresent(args)
    ensures Set(Scan(args, Set(c, s, x), atoi), s, y) == Set(Scan(args, c, atoi), s, y)
    decreases |args|
  {
    if args != [] {
      match FlagSetting(args[0])
      case Some(s') =>
        var v := atoi(args[1]);
        if s' == s {
          assert Set(Set(c, s, x), s, v) == Set(c, s, v);
        } else {
          assert Set(Set(c, s, x), s', v) == Set(Set(c, s', v), s, x);
          ScanForgets(args[2..], Set(c, s', v), s, x, y, atoi);
        }
      case None =>
        ScanForgets(args[1..], c, s, x, y, atoi);
    }
  }

  /** A recognised option as the very last argument, after complete
      options, has no value: such argument lists are outside what
      `parseOpt` can handle. */
  lemma TrailingOptionLacksValue(a: seq<string>, flag: string)
    requires ValuesPresent(a) && IsFlag(flag)
    ensures !ValuesPresent(a + [flag])
  {
    ScanAppend(a, [flag], Defaults, _ => 0);
  }

  /** The last occurrence of an option decides its setting: appending
      `flag value` sets that setting to `atoi(value)` and leaves the other two
      as the earlier arguments left them. */
  lemma LastOccurrenceDecides(a: seq<string>, flag: string, value: string, c: Config, atoi: string -> Int32)
    requires ValuesPresent(a) && IsFlag(flag)
    ensures ValuesPresent(a + [flag, value])
    ensures Scan(a + [flag, value], c, atoi)
            == Set(Scan(a, c, atoi), FlagSetting(flag).value, atoi(value))
  {
    var tail := [flag, value];
    assert tail[2..] == [];
    ScanAppend(a, tail, c, atoi);
  }

  /** A later occurrence of an option overrides an earlier one: the earlier
      `flag v1` has no effect on the result once `flag v2` follows it. */
  lemma LaterOccurrenceOverrides(a: seq<string>, flag: string, v1: string, b: seq<string>,
                                 v2: string, c: Config, atoi: string -> Int32)
    requires ValuesPresent(a) && ValuesPresent(b) && IsFlag(flag)
    ensures ValuesPresent(a + [flag, v1] + b + [flag, v2])
    ensures ValuesPresent(a + b + [flag, v2])
    ensures Scan(a + [flag, v1] + b + [flag, v2], c, atoi) == Scan(a + b + [flag, v2], c, atoi)
  {
    var s := FlagSetting(flag).value;
    var first := [flag, v1];
    assert first[2..] == [];
    ScanAppend(a, first, c, atoi);
    var ca := Scan(a, c, atoi);
    assert Scan(a + first, c, atoi) == Set(ca, s, atoi(v1));
    ScanAppend(a + first, b, c, atoi);
    LastOccurrenceDecides(a + first + b, flag, v2, c, atoi);
    ScanAppend(a, b, c, atoi);
    LastOccurrenceDecides(a + b, flag, v2, c, atoi);
    ScanForgets(b, ca, s, atoi(v1), atoi(v2), atoi);
  }

  /** An unrecognised argument changes no setting and does not stop the
      loop: the arguments after it are parsed as if it were absent, and it is
      reported (one usage message) exactly where it stands. */
  lemma UnrecognisedSkipped(a: seq<string>, x: string, b: seq<string>, c: Config, atoi: string -> Int32)
    requires ValuesPresent(a) && ValuesPresent(b) && !IsFlag(x)
    ensures ValuesPresent(a + [x] + b) && ValuesPresent(a + b)
    ensures Scan(a + [x] + b, c, atoi) == Scan(a + b, c, atoi)
    ensures Rejected(a + [x] + b) == Rejected(a) + [x] + Rejected(b)
  {
    var xb := [x] + b;
    assert xb[1..] == b;
    assert a + [x] + b == a + xb;
    var ca := Scan(a, c, atoi);
    assert ValuesPresent(xb) && Scan(xb, ca, atoi) == Scan(b, ca, atoi) by {
      assert !IsFlag(xb[0]);
    }
    ScanAppend(a, xb, c, atoi);
    ScanAppend(a, b, c, atoi);
  }

  /** Arguments none of which is an option leave all three settings as they
      were, and each of them is reported. */
  lemma {:induction false} NoOptionsNoChange(args: seq<string>, c: Config, atoi: string -> Int32)
    requires forall k :: 0 <= k < |args| ==> !IsFlag(args[k])
    ensures ValuesPresent(args)
    ensures Scan(args, c, atoi) == c
    ensures Rejected(args) == args
    decreases |args|
  {
    if args != [] {
      assert !IsFlag(args[0]);
      NoOptionsNoChange(args[1..], c, atoi);
      assert args == [args[0]] + args[1..];
    }
  }
}
