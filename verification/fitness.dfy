/** The fitness side of AdjustableCrossroads: goStats runs the simulation kernel once per
    replication on the connected intersection and keeps eight numbers per run, getIndividualMetric
    reduces them to the largest mean queue, and findOptimalPhaseTimes searches a grid of phase
    times for the least such metric. The kernel itself is a parameter: for a model, a horizon and a
    replication number it either returns the statistics of every arena place or fails. */
module Fitness {
  import opened Common
  import opened Petri
  import opened Crossroads

  /** What the kernel reports about one place after a run: the time-averaged token count and the
      token count at the end. */
  datatype PlaceStat = PlaceStat(mean: real, mark: int)

  /** The simulation kernel. For a model, a horizon and a replication number it either fails (None:
      the run threw ExceptionInvalidTimeDelay) or reports, for net k of the model and slot j of
      that net, the statistics of the place there. */
  type Kernel = (Model, real, nat) -> Option<(nat, nat) -> PlaceStat>

  /** Number of values in a row of goStats: four mean queues, then four departed counts. */
  const RowWidth: nat := 8

  /** The row a failed replication contributes: new double[8]. */
  const ZeroRow: seq<real> := [0.0, 0.0, 0.0, 0.0, 0.0, 0.0, 0.0, 0.0]

  /** getStatistics: the mean of slot 1 of nets 1..4, then the final mark of slot 2 of nets 1..4. */
  function GetStatistics(stat: (nat, nat) -> PlaceStat): (row: seq<real>)
    ensures |row| == RowWidth
  {
    [stat(1, 1).mean, stat(2, 1).mean, stat(3, 1).mean, stat(4, 1).mean,
     stat(1, 2).mark as real, stat(2, 2).mark as real, stat(3, 2).mark as real, stat(4, 2).mark as real]
  }

  /** On the intersection, the eight statistics are read from the queue place and then the departed
      place of each direction, in direction order. */
  lemma StatisticsPlaces(phaseTimes: seq<int>, arrivalTimes: seq<real>, connected: bool, d: nat)
    requires |phaseTimes| >= 4 && |arrivalTimes| >= 4 && d < 4
    ensures var md := IntersectionModel(phaseTimes, arrivalTimes, connected);
      |md.nets| == 5 && |md.nets[d + 1].slots| == 4
      && md.nets[d + 1].slots[1] == Queue(d) && md.nets[d + 1].slots[2] == Departed(d)
  {
    DirectionNetShape(phaseTimes, arrivalTimes, connected, d);
  }

  /** One replication of goStats: build and connect the nets, run the kernel, read the statistics;
      a failed run gives the zero row. */
  function Replication(phaseTimes: seq<int>, arrivalTimes: seq<real>, simulationTime: real, kernel: Kernel, i: nat): (row: seq<real>)
    requires |phaseTimes| >= 4 && |arrivalTimes| >= 4
    ensures |row| == RowWidth
  {
    match kernel(WiredModel(phaseTimes, arrivalTimes), simulationTime, i)
    case None => ZeroRow
    case Some(stat) => GetStatistics(stat)
  }

  /** goStats: one row per replication 0 .. iterations - 1 (none for a negative count). Row i is the
      zero row when replication i fails, and otherwise holds the mean queue of each direction in
      columns 0..3 and the cars that crossed in each direction in columns 4..7. */
  function GoStats(phaseTimes: seq<int>, arrivalTimes: seq<real>, simulationTime: real, iterations: int, kernel: Kernel): (rows: seq<seq<real>>)
    requires |phaseTimes| >= 4 && |arrivalTimes| >= 4
    ensures |rows| == if iterations < 0 then 0 else iterations
    ensures forall i | 0 <= i < |rows| :: |rows[i]| == RowWidth
    ensures forall i | 0 <= i < |rows| ::
      match kernel(WiredModel(phaseTimes, arrivalTimes), simulationTime, i)
      case None => rows[i] == ZeroRow
      case Some(stat) =>
        && (forall d | 0 <= d < 4 :: rows[i][d] == stat(d + 1, 1).mean)
        && (forall c | 4 <= c < 8 :: rows[i][c] == stat(c - 3, 2).mark as real)
  {
    var n := if iterations < 0 then 0 else iterations;
    seq(n, i requires 0 <= i < n => Replication(phaseTimes, arrivalTimes, simulationTime, kernel, i))
  }

  /** Sum of column k over the rows. */
  function ColumnSum(rows: seq<seq<real>>, k: nat): real
    requires forall i | 0 <= i < |rows| :: k < |rows[i]|
  {
    if rows == [] then 0.0 else rows[0][k] + ColumnSum(rows[1..], k)
  }

  /** Arrays.stream(stats).mapToDouble(stat -> stat[k]).average().orElse(0). */
  function ColumnMean(rows: seq<seq<real>>, k: nat): real
    requires forall i | 0 <= i < |rows| :: k < |rows[i]|
  {
    if rows == [] then 0.0 else ColumnSum(rows, k) / (|rows| as real)
  }

  function Max(a: real, b: real): real { if a < b then b else a }

  /** getIndividualMetric: the largest of the mean queues of the four directions. */
  function GetIndividualMetric(rows: seq<seq<real>>): (r: real)
    requires forall i | 0 <= i < |rows| :: 4 <= |rows[i]|
    ensures forall k | 0 <= k < 4 :: ColumnMean(rows, k) <= r
    ensures exists k | 0 <= k < 4 :: r == ColumnMean(rows, k)
    ensures rows == [] ==> r == 0.0
  {
    var r := Max(Max(ColumnMean(rows, 0), ColumnMean(rows, 1)), Max(ColumnMean(rows, 2), ColumnMean(rows, 3)));
    assert r == ColumnMean(rows, 0) || r == ColumnMean(rows, 1) || r == ColumnMean(rows, 2) || r == ColumnMean(rows, 3);
    r
  }

  /** Rows that agree on column k have the same column sum. */
  lemma {:induction false} ColumnSumAgree(rows: seq<seq<real>>, rows': seq<seq<real>>, k: nat)
    requires |rows| == |rows'|
    requires forall i | 0 <= i < |rows| :: k < |rows[i]| && k < |rows'[i]| && rows[i][k] == rows'[i][k]
    ensures ColumnSum(rows, k) == ColumnSum(rows', k)
  {
    if rows != [] {
      ColumnSumAgree(rows[1..], rows'[1..], k);
    }
  }

  /** The metric depends on columns 0..3 only: the departed counts in columns 4..7 never matter. */
  lemma MetricIgnoresDepartures(rows: seq<seq<real>>, rows': seq<seq<real>>)
    requires |rows| == |rows'|
    requires forall i | 0 <= i < |rows| :: 4 <= |rows[i]| && 4 <= |rows'[i]|
    requires forall i, k | 0 <= i < |rows| && 0 <= k < 4 :: rows[i][k] == rows'[i][k]
    ensures GetIndividualMetric(rows) == GetIndividualMetric(rows')
  {
    ColumnSumAgree(rows, rows', 0);
    ColumnSumAgree(rows, rows', 1);
    ColumnSumAgree(rows, rows', 2);
    ColumnSumAgree(rows, rows', 3);
  }

  /** Column sums of non-negative entries are non-negative, and those of zero entries are zero. */
  lemma {:induction false} ColumnSumSign(rows: seq<seq<real>>, k: nat)
    requires forall i | 0 <= i < |rows| :: k < |rows[i]| && 0.0 <= rows[i][k]
    ensures 0.0 <= ColumnSum(rows, k)
    ensures (forall i | 0 <= i < |rows| :: rows[i][k] == 0.0) ==> ColumnSum(rows, k) == 0.0
  {
    if rows != [] {
      ColumnSumSign(rows[1..], k);
    }
  }

  /** Rows that are all zero rows score 0. */
  lemma ZeroRowsScoreZero(rows: seq<seq<real>>)
    requires forall i | 0 <= i < |rows| :: rows[i] == ZeroRow
    ensures GetIndividualMetric(rows) == 0.0
  {
    ColumnSumSign(rows, 0);
    ColumnSumSign(rows, 1);
    ColumnSumSign(rows, 2);
    ColumnSumSign(rows, 3);
  }

  /** Rows whose mean-queue columns are non-negative never score below 0. */
  lemma MetricNonNegative(rows: seq<seq<real>>)
    requires forall i | 0 <= i < |rows| :: 4 <= |rows[i]| && forall k | 0 <= k < 4 :: 0.0 <= rows[i][k]
    ensures 0.0 <= GetIndividualMetric(rows)
  {
    ColumnSumSign(rows, 0);
  }

  /** A run where every replication throws scores 0, which by MetricNonNegative no run with
      non-negative mean queues beats: a failing configuration gets the best possible metric. */
  lemma FailureScoresBest(phaseTimes: seq<int>, arrivalTimes: seq<real>, simulationTime: real, iterations: int, kernel: Kernel)
    requires |phaseTimes| >= 4 && |arrivalTimes| >= 4
    requires forall i: nat | i < iterations :: kernel(WiredModel(phaseTimes, arrivalTimes), simulationTime, i).None?
    ensures GetIndividualMetric(GoStats(phaseTimes, arrivalTimes, simulationTime, iterations, kernel)) == 0.0
  {
    var stats := GoStats(phaseTimes, arrivalTimes, simulationTime, iterations, kernel);
    forall i | 0 <= i < |stats|
      ensures stats[i] == ZeroRow
    {
      assert kernel(WiredModel(phaseTimes, arrivalTimes), simulationTime, i).None?;
    }
    ZeroRowsScoreZero(stats);
  }

  /** The metric findOptimalPhaseTimes computes for phase times [phase1, 10, phase3, 10]. */
  function GridMetric(kernel: Kernel, phase1: int, phase3: int): real
  {
    GetIndividualMetric(GoStats([phase1, 10, phase3, 10], ArrivalTimesInit, SimulationTime, Iterations, kernel))
  }

  /** The nested loop of findOptimalPhaseTimes, for any metric of (phase1, phase3): starting from
      Double.MAX_VALUE it keeps the least metric seen over [minPhase, maxPhase]². */
  method GridMinimum(minPhase: int, maxPhase: int, metric: (int, int) -> real) returns (r: real)
    ensures r <= DoubleMaxValue
    ensures forall p1, p3 | minPhase <= p1 <= maxPhase && minPhase <= p3 <= maxPhase :: r <= metric(p1, p3)
    ensures r == DoubleMaxValue ||
      exists p1, p3 | minPhase <= p1 <= maxPhase && minPhase <= p3 <= maxPhase :: r == metric(p1, p3)
    ensures maxPhase < minPhase ==> r == DoubleMaxValue
  {
    r := DoubleMaxValue;
    var phase1 := minPhase;
    while phase1 <= maxPhase
      invariant minPhase <= phase1 && (phase1 <= maxPhase + 1 || phase1 == minPhase)
      invariant r <= DoubleMaxValue && (maxPhase < minPhase ==> r == DoubleMaxValue)
      invariant forall p1, p3 | minPhase <= p1 < phase1 && minPhase <= p3 <= maxPhase :: r <= metric(p1, p3)
      invariant r == DoubleMaxValue ||
        exists p1, p3 | minPhase <= p1 <= maxPhase && minPhase <= p3 <= maxPhase :: r == metric(p1, p3)
      decreases maxPhase - phase1
    {
      var phase3 := minPhase;
      while phase3 <= maxPhase
        invariant minPhase <= phase1 <= maxPhase && minPhase <= phase3 <= maxPhase + 1
        invariant r <= DoubleMaxValue
        invariant forall p1, p3 | minPhase <= p1 < phase1 && minPhase <= p3 <= maxPhase :: r <= metric(p1, p3)
        invariant forall p3 | minPhase <= p3 < phase3 :: r <= metric(phase1, p3)
        invariant r == DoubleMaxValue ||
          exists p1, p3 | minPhase <= p1 <= maxPhase && minPhase <= p3 <= maxPhase :: r == metric(p1, p3)
        decreases maxPhase - phase3
      {
        var individualMetric := metric(phase1, phase3);
        if individualMetric < r {
          r := individualMetric;
        }
        phase3 := phase3 + 1;
      }
      phase1 := phase1 + 1;
    }
  }

  /** findOptimalPhaseTimes: the least metric of goStats over every (phase1, phase3) in
      [minPhase, maxPhase]², with genes 1 and 3 fixed at 10, or Double.MAX_VALUE when that is
      smaller or the range is empty. The flag of the source only chooses what is printed. */
  method FindOptimalPhaseTimes(minPhase: int, maxPhase: int, kernel: Kernel) returns (r: real)
    ensures r <= DoubleMaxValue
    ensures forall p1, p3 | minPhase <= p1 <= maxPhase && minPhase <= p3 <= maxPhase :: r <= GridMetric(kernel, p1, p3)
    ensures r == DoubleMaxValue ||
      exists p1, p3 | minPhase <= p1 <= maxPhase && minPhase <= p3 <= maxPhase :: r == GridMetric(kernel, p1, p3)
    ensures maxPhase < minPhase ==> r == DoubleMaxValue
  {
    var metric := (phase1, phase3) => GridMetric(kernel, phase1, phase3);
    r := GridMinimum(minPhase, maxPhase, metric);
    assert forall p1, p3 :: metric(p1, p3) == GridMetric(kernel, p1, p3);
  }
}
