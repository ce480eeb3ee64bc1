/** The load generator (cmd/veneur-load): the static connection pool, the
    loader's request counter, and the throughput report printed at shutdown.
    Dialing, the rate limiter's waits and the random draws are inputs; the
    workers run one after another instead of concurrently. */
module VeneurLoad {
  import opened Text

  const Uint64Modulus: int := 0x1_0000_0000_0000_0000

  /** Go's `uint64`. */
  newtype Uint64 = x: int | 0 <= x < 0x1_0000_0000_0000_0000

  // ---------------------------------------------------------------------------
  // Connection pool
  // ---------------------------------------------------------------------------

  /** `singleConnector`: a fixed, read-only pool of connections. Its random
      source is not modelled; every selection takes the draw as a parameter. */
  datatype SingleConnector<C> = SingleConnector(conns: seq<C>)
  {
    /** `Conn`: `draw` stands for `r.Int()`, which is never negative. The
        `hash` argument plays no part, and the error is always nil. */
    function Conn(hash: string, draw: nat): (r: Result<C>)
      requires |conns| > 0
      ensures r.Ok? && r.value in conns
    {
      Ok(conns[draw % |conns|])
    }

    /** `Return`: does nothing; the connector after the call is the one before it. */
    function Return(conn: C, err: Option<Error>): (after: SingleConnector<C>)
      ensures after.conns == conns
    {
      this
    }
  }

  /** Every connection of the pool can be selected: the draw equal to its
      index selects it. */
  lemma EveryConnSelectable<C>(s: SingleConnector<C>, hash: string, i: nat)
    requires i < |s.conns|
    ensures exists draw: nat :: s.Conn(hash, draw) == Ok(s.conns[i])
  {
    assert s.Conn(hash, i) == Ok(s.conns[i]);
  }

  /** The selection does not depend on `hash`, and returning a connection does
      not change what later selections yield. */
  lemma ConnIgnoresHashAndReturn<C>(s: SingleConnector<C>, h1: string, h2: string, draw: nat,
                                    conn: C, err: Option<Error>)
    requires |s.conns| > 0
    ensures s.Conn(h1, draw) == s.Conn(h2, draw)
    ensures s.Return(conn, err).Conn(h1, draw) == s.Conn(h1, draw)
  {
  }

  /** `newSingleConnector`: dials `nConns` connections in order. `dial(hostport, i)`
      is the outcome of the i-th dial. The first failed dial aborts the process
      (here: an error, and no pool at all). */
  method NewSingleConnector<C>(nConns: int, hostport: string, dial: (string, nat) -> Result<C>)
    returns (r: Result<SingleConnector<C>>)
    ensures r.Ok? <==> forall i: nat :: i < nConns ==> dial(hostport, i).Ok?
    ensures r.Ok? ==> |r.value.conns| == (if nConns < 0 then 0 else nConns)
    ensures r.Ok? ==> forall i :: 0 <= i < |r.value.conns| ==> dial(hostport, i) == Ok(r.value.conns[i])
    ensures r.Err? ==> exists i: nat :: (i < nConns && dial(hostport, i) == Err(r.error)
                                         && forall j: nat :: j < i ==> dial(hostport, j).Ok?)
  {
    var conns: seq<C> := [];
    var i: nat := 0;
    while i < nConns
      invariant i == 0 || i <= nConns
      invariant |conns| == i
      invariant forall j :: 0 <= j < i ==> dial(hostport, j) == Ok(conns[j])
    {
      var conn := dial(hostport, i);
      if conn.Err? {
        return Err(conn.error);
      }
      conns := conns + [conn.value];
      i := i + 1;
    }
    return Ok(SingleConnector(conns));
  }

  // ---------------------------------------------------------------------------
  // Loader and request counter
  // ---------------------------------------------------------------------------

  /** The atomic add of one to the counter, wrapping to 0 past 2^64 - 1. */
  function Increment(count: Uint64): (r: Uint64)
    ensures count as int < Uint64Modulus - 1 ==> r as int == count as int + 1
    ensures count as int == Uint64Modulus - 1 ==> r == 0
  {
    ((count as int + 1) % Uint64Modulus) as Uint64
  }

  /** The token-bucket limiter, with rate and burst both `qps`; its waiting
      is not modelled. */
  datatype Limiter = Limiter(limit: int, burst: int)

  /** `loader`. `CB` is the type of the unit of work `cb`; calling it is
      recorded in the ghost count `completed`. */
  class Loader<CB> {
    const cb: CB
    const limiter: Limiter
    const parallelism: int
    var requestCount: Uint64
    var stopped: bool
    ghost var completed: nat

    /** The counter is the number of callbacks that have returned, modulo 2^64. */
    ghost predicate Valid()
      reads this
    {
      requestCount as int == completed % Uint64Modulus
    }

    /** `newLoader`. */
    constructor (qps: int, cb: CB, parallelism: int)
      ensures Valid()
      ensures this.cb == cb && this.parallelism == parallelism
      ensures limiter == Limiter(qps, qps)
      ensures requestCount == 0 && completed == 0 && !stopped
    {
      this.cb := cb;
      this.limiter := Limiter(qps, qps);
      this.parallelism := parallelism;
      this.requestCount := 0;
      this.stopped := false;
      this.completed := 0;
    }

    /** `runner`, for as many iterations as there are limiter outcomes in
        `waits`: each granted wait calls `cb` once and then adds one to the
        counter; the first failed wait is fatal and ends the loop. */
    method Runner(waits: seq<Option<Error>>) returns (fatal: Option<Error>, iterations: nat)
      requires Valid()
      modifies this`requestCount, this`completed
      ensures Valid()
      ensures iterations <= |waits|
      ensures forall k :: 0 <= k < iterations ==> waits[k].None?
      ensures fatal.None? ==> iterations == |waits|
      ensures fatal.Some? ==> iterations < |waits| && fatal == waits[iterations]
      ensures completed == old(completed) + iterations
      ensures requestCount as int == (old(requestCount) as int + iterations) % Uint64Modulus
    {
      iterations := 0;
      while iterations < |waits|
        invariant iterations <= |waits|
        invariant Valid()
        invariant forall k :: 0 <= k < iterations ==> waits[k].None?
        invariant completed == old(completed) + iterations
      {
        if waits[iterations].Some? {
          return waits[iterations], iterations;
        }
        completed := completed + 1;
        requestCount := Increment(requestCount);
        iterations := iterations + 1;
      }
      fatal := None;
    }
  }

  // ---------------------------------------------------------------------------
  // Shutdown report
  // ---------------------------------------------------------------------------

  const NanosPerSecond: int := 1_000_000_000

  /** The elapsed time rounded to whole seconds, from whole nanoseconds: the nearest
      whole second, with halves rounded up. */
  function RoundedSeconds(elapsedNs: nat): (secs: nat)
    ensures secs * NanosPerSecond <= elapsedNs + NanosPerSecond / 2 < (secs + 1) * NanosPerSecond
  {
    (elapsedNs + NanosPerSecond / 2) / NanosPerSecond
  }

  /** The rate as the report computes it: the count divided by the rounded seconds,
      which is defined only when the divisor is not 0. */
  function AchievedQps(requestCount: Uint64, elapsedNs: nat): (qps: Uint64)
    requires RoundedSeconds(elapsedNs) > 0
    ensures qps as int * RoundedSeconds(elapsedNs) <= requestCount as int
    ensures requestCount as int < (qps as int + 1) * RoundedSeconds(elapsedNs)
  {
    var secs := RoundedSeconds(elapsedNs);
    var q := requestCount as int / secs;
    assert q <= requestCount as int by { DivBound(requestCount as int, secs); }
    q as Uint64
  }

  lemma DivBound(a: nat, b: nat)
    requires b > 0
    ensures a / b <= a
    ensures (a / b) * b <= a < (a / b + 1) * b
  {
    MulAtLeast(a / b, b);
  }

  lemma MulAtLeast(q: nat, b: nat)
    requires b > 0
    ensures q * b >= q
  {
  }

  /** An interrupt in the first half second leaves the report's divisor at 0:
      the expression as written divides by zero. */
  lemma PrematureInterruptDividesByZero(elapsedNs: nat)
    ensures RoundedSeconds(elapsedNs) == 0 <==> elapsedNs < NanosPerSecond / 2
  {
  }

  datatype ShutdownReport = ShutdownReport(totalRequests: Uint64, elapsedNs: nat, achievedQps: Option<Uint64>)

  /** The report with the division guarded: no rate when the elapsed time
      rounds to 0 seconds, the rate of `AchievedQps` otherwise. */
  function Report(requestCount: Uint64, elapsedNs: nat): (r: ShutdownReport)
    ensures r.totalRequests == requestCount && r.elapsedNs == elapsedNs
    ensures r.achievedQps.None? <==> elapsedNs < NanosPerSecond / 2
    ensures r.achievedQps.Some? ==>
      r.achievedQps.value as int * RoundedSeconds(elapsedNs) <= requestCount as int
        < (r.achievedQps.value as int + 1) * RoundedSeconds(elapsedNs)
  {
    var secs := RoundedSeconds(elapsedNs);
    if secs == 0 then ShutdownReport(requestCount, elapsedNs, None)
    else ShutdownReport(requestCount, elapsedNs, Some(AchievedQps(requestCount, elapsedNs)))
  }

  /** After exactly two seconds the rate is the count halved, rounded down. */
  lemma ReportAfterTwoSeconds(requestCount: Uint64)
    ensures Report(requestCount, 2 * NanosPerSecond).achievedQps == Some((requestCount as int / 2) as Uint64)
  {
  }
}
