/** Constants and the swaption record of HJM_type.h, with the C `int` range
    and the fixed dataset dimensions that HJM_Securities.cpp keeps as globals. */
module HjmType {

  /** Trials are simulated in blocks of this many, for cache locality. */
  const BLOCK_SIZE: int := 16
  /** Seed of the random path generator. */
  const RANDSEEDVAL: int := 100
  /** Monte Carlo trials per swaption unless `-sm` says otherwise. */
  const DEFAULT_NUM_TRIALS: int := 102400

  const INT_MIN: int := -0x8000_0000
  const INT_MAX: int := 0x7fff_ffff

  /** A value of C type `int` (32 bits on the platforms the program targets). */
  type Int32 = x: int | INT_MIN <= x <= INT_MAX

  /** The global `iN`: number of points of the discretised forward curve. */
  const NUM_STEPS: int := 11
  /** The global `dYears`: simulation horizon in years. */
  const YEARS: real := 5.5
  /** The global `iFactors`: number of volatility factors. */
  const NUM_FACTORS: int := 3

  /** Number of entries of a factor table: `iFactors` rows of `iN - 1` columns. */
  const FACTOR_TABLE_SIZE: int := NUM_FACTORS * (NUM_STEPS - 1)

  /** Offset of row `k`, column `j` of a factor table laid out row by row,
      `k * (iN - 1) + j`. */
  function RowMajor(k: int, j: int): int {
    k * (NUM_STEPS - 1) + j
  }

  /** The `parm` record of one swaption. `FTYPE` (double) fields are `real`s:
      the modelled logic only stores and copies them. `yieldCurve` and `factors`
      are the heap buffers `pdYield` and `ppdFactors`; they are nullable, as a
      freshly `malloc`ed record's pointers are not yet set. */
  datatype Parm = Parm(
    id: int,
    meanPrice: real,
    stdError: real,
    strike: real,
    compounding: real,
    maturity: real,
    tenor: real,
    paymentInterval: real,
    numSteps: int,
    years: real,
    numFactors: int,
    yieldCurve: array?<real>,
    factors: array?<real>)
}
