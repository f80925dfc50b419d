/**
  The tabulated core-performance objective: `myfunc(x)` rounds each of the
  13 design coordinates to an integer, looks the rounded key up in a table of
  simulated designs and returns the `bips` of the first row that matches,
  counting calls, timing them and logging each successful one.

  The table is the data frame read at start-up, one `Row` per line with its
  13 design columns in the order `depth, width, gpr_phys, br_resv,
  dmem_lat, load_lat, br_lat, fix_lat, fpu_lat, d2cache_lat, l2cache_size,
  icache_size, dcache_size`; the clock reading of each call is a parameter.
*/
module HarvardCore {
  import opened Results
  import opened Seqs

  /** Number of design coordinates. */
  const Dimensions: nat := 13

  /** Python's `int()` on a float: truncation toward zero. */
  function Trunc(v: real): (n: int)
    ensures 0.0 <= v ==> n as real <= v < n as real + 1.0
    ensures v < 0.0 ==> n as real - 1.0 < v <= n as real
  {
    if 0.0 <= v then v.Floor else -((-v).Floor)
  }

  /** `int(0.5 + v)`. */
  function Quantise(v: real): int {
    Trunc(0.5 + v)
  }

  /** The quantised key of a design vector: coordinates `x[0..13]`. */
  function QuantiseKey(x: seq<real>): (key: seq<int>)
    requires |x| >= Dimensions
    ensures |key| == Dimensions
    ensures forall i :: 0 <= i < Dimensions ==> key[i] == Quantise(x[i])
  {
    seq(Dimensions, i requires 0 <= i < Dimensions => Quantise(x[i]))
  }

  /** For inputs from -1/2 up, quantisation rounds to the nearest integer
      with ties going up. */
  lemma QuantiseRoundsHalfUp(v: real)
    requires -0.5 <= v
    ensures Quantise(v) as real - 0.5 <= v < Quantise(v) as real + 0.5
  {
  }

  /** Below -1/2 truncation goes toward zero instead: the result is one more
      than round-half-up would give, except at half-integers, where the two
      agree (-3/2 gives -1); a negative integer is moved up by one. */
  lemma QuantiseBelowMinusHalf(v: real)
    requires v < -0.5
    ensures Quantise(v) as real - 1.5 < v <= Quantise(v) as real - 0.5
    ensures v.Floor as real == v ==> Quantise(v) == v.Floor + 1
  {
  }

  /** One line of the table: its 13 design columns and its `bips`. */
  datatype Row = Row(design: seq<real>, bips: real)

  /** The row's design columns all equal the key. */
  predicate Matches(row: Row, key: seq<int>) {
    && |row.design| == Dimensions && |key| == Dimensions
    && forall i :: 0 <= i < Dimensions ==> row.design[i] == key[i] as real
  }

  /** Row `i` matches and no row before it does. */
  predicate IsFirstRow(table: seq<Row>, key: seq<int>, i: int) {
    && 0 <= i < |table| && Matches(table[i], key)
    && forall j :: 0 <= j < i ==> !Matches(table[j], key)
  }

  /** `df.loc[mask, 'bips']`: the `bips` of the matching rows, in table
      order. */
  function Select(table: seq<Row>, key: seq<int>): (hits: seq<real>)
    ensures |hits| <= |table|
    ensures |hits| == 0 <==> forall i :: 0 <= i < |table| ==> !Matches(table[i], key)
  {
    if |table| == 0 then []
    else (if Matches(table[0], key) then [table[0].bips] else []) + Select(table[1..], key)
  }

  /** `.iloc[0]` of the selection is the `bips` of the first matching row. */
  lemma {:induction false} SelectStartsAtFirstRow(table: seq<Row>, key: seq<int>, i: int)
    requires IsFirstRow(table, key, i)
    ensures |Select(table, key)| > 0 && Select(table, key)[0] == table[i].bips
  {
    if i > 0 {
      assert !Matches(table[0], key);
      assert IsFirstRow(table[1..], key, i - 1);
      SelectStartsAtFirstRow(table[1..], key, i - 1);
      assert Select(table, key) == Select(table[1..], key);
    }
  }

  /** The first matching row, if any. */
  function FirstRow(table: seq<Row>, key: seq<int>): (r: Option<nat>)
    ensures r.None? <==> forall i :: 0 <= i < |table| ==> !Matches(table[i], key)
    ensures r.Some? ==> IsFirstRow(table, key, r.value)
  {
    FirstIndex(table, (row: Row) => Matches(row, key))
  }

  /** The state `myfunc` keeps between calls. */
  datatype Context = Context(iter: int, tic: real, log: seq<LogRow>)

  /** One row of the observation log: `[iter, *x, bips, iter_time]`. */
  datatype LogRow = LogRow(iter: int, x: seq<real>, bips: real, iterTime: real)

  /** Why a call returns no value. */
  datatype HarvardError =
    | TooFewCoordinates  // `x[i]` out of range while quantising
    | NoMatchingRow      // `.iloc[0]` on an empty selection
    | RowShapeMismatch   // the log row does not have 16 columns

  /** The state after a call and the value returned or error raised. */
  datatype Observation = Observation(ctx: Context, result: Result<real, HarvardError>)

  /** `myfunc(x)` with the timer reading `now`. The counter and timer are
      updated before anything can fail; the log only on success. */
  function Objective(ctx: Context, x: seq<real>, table: seq<Row>, now: real): (r: Observation)
    ensures r.ctx.iter == ctx.iter + 1 && r.ctx.tic == now
    ensures r.result.Err? ==> r.ctx.log == ctx.log
    ensures r.result.Ok? ==>
      |x| == Dimensions && r.ctx.log == ctx.log + [LogRow(ctx.iter + 1, x, r.result.value, now - ctx.tic)]
    ensures r.result == Err(TooFewCoordinates) <==> |x| < Dimensions
    ensures r.result == Err(NoMatchingRow) <==>
      |x| >= Dimensions && forall i :: 0 <= i < |table| ==> !Matches(table[i], QuantiseKey(x))
  {
    var iter := ctx.iter + 1;
    var iterTime := now - ctx.tic;
    var next := ctx.(iter := iter, tic := now);
    if |x| < Dimensions then Observation(next, Err(TooFewCoordinates))
    else
      var hits := Select(table, QuantiseKey(x));
      if |hits| == 0 then Observation(next, Err(NoMatchingRow))
      else if |x| != Dimensions then Observation(next, Err(RowShapeMismatch))
      else Observation(next.(log := ctx.log + [LogRow(iter, x, hits[0], iterTime)]), Ok(hits[0]))
  }

  /** A call with 13 coordinates returns the `bips` of the first row whose
      design columns equal the quantised key, and fails exactly when there is
      no such row. */
  lemma ReturnsFirstMatch(ctx: Context, x: seq<real>, table: seq<Row>, now: real)
    requires |x| == Dimensions
    ensures var r := Objective(ctx, x, table, now);
      match FirstRow(table, QuantiseKey(x))
      case None => r.result == Err(NoMatchingRow)
      case Some(i) => r.result == Ok(table[i].bips)
  {
    match FirstRow(table, QuantiseKey(x))
    case None =>
    case Some(i) => SelectStartsAtFirstRow(table, QuantiseKey(x), i);
  }

  /** Every logged row records a call that succeeded: 13 raw coordinates,
      the value the table gives their key, and an iteration number no later
      than the counter and later than the row before. */
  ghost predicate LogConsistent(ctx: Context, table: seq<Row>) {
    forall k :: 0 <= k < |ctx.log| ==>
      && |ctx.log[k].x| == Dimensions
      && 1 <= ctx.log[k].iter <= ctx.iter
      && (k > 0 ==> ctx.log[k - 1].iter < ctx.log[k].iter)
      && Select(table, QuantiseKey(ctx.log[k].x)) != []
      && ctx.log[k].bips == Select(table, QuantiseKey(ctx.log[k].x))[0]
  }

  /** A call keeps the log consistent. */
  lemma ObjectiveKeepsLogConsistent(ctx: Context, x: seq<real>, table: seq<Row>, now: real)
    requires ctx.iter >= 0 && LogConsistent(ctx, table)
    ensures LogConsistent(Objective(ctx, x, table, now).ctx, table)
  {
  }

  /** One call of a session: the design vector and the timer reading. */
  datatype Request = Request(x: seq<real>, now: real)

  /** The state after a sequence of calls. */
  function Session(ctx: Context, requests: seq<Request>, table: seq<Row>): Context
    decreases |requests|
  {
    if |requests| == 0 then ctx
    else Session(Objective(ctx, requests[0].x, table, requests[0].now).ctx, requests[1..], table)
  }

  /** Over a session the counter grows by one per call, the log only grows
      at its end and by at most one row per call, and it stays consistent. */
  lemma {:induction false} SessionInvariant(ctx: Context, requests: seq<Request>, table: seq<Row>)
    requires ctx.iter >= 0 && LogConsistent(ctx, table)
    decreases |requests|
    ensures var end := Session(ctx, requests, table);
      && end.iter == ctx.iter + |requests|
      && ctx.log <= end.log
      && |end.log| <= |ctx.log| + |requests|
      && LogConsistent(end, table)
  {
    if |requests| > 0 {
      var next := Objective(ctx, requests[0].x, table, requests[0].now).ctx;
      ObjectiveKeepsLogConsistent(ctx, requests[0].x, table, requests[0].now);
      SessionInvariant(next, requests[1..], table);
    }
  }
}
