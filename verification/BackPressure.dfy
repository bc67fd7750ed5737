/** The lock-free back-pressure accumulator: a wrapping event counter and a maximum, recorded by any
    number of threads and drained by swaps, at the granularity of one atomic operation per step. Relaxed
    loads may return stale values; a read-modify-write sees the latest. */
module BackPressure {
  import opened Common

  const TWO_64: nat := 0x1_0000_0000_0000_0000

  /** A value the maximum has held, and how many swaps had been made when it was stored. */
  datatype Version = Version(value: nat, asOf: nat)

  /** The maximum with the versions it held before, oldest first, and what its swaps have returned. */
  datatype Cell = Cell(older: seq<Version>, max: nat, swaps: seq<nat>)

  /** The versions in modification order; the latest has index `|older|`. */
  function VersionAt(c: Cell, k: nat): Version
    requires k <= |c.older|
  {
    if k < |c.older| then c.older[k] else Version(c.max, |c.swaps|)
  }

  function Store(c: Cell, v: nat): Cell {
    Cell(c.older + [Version(c.max, |c.swaps|)], v, c.swaps)
  }

  function Swap(c: Cell): Cell {
    Cell(c.older + [Version(c.max, |c.swaps|)], 0, c.swaps + [c.max])
  }

  function MaxOf(xs: seq<nat>): nat {
    if xs == [] then 0 else Max(MaxOf(xs[..|xs| - 1]), xs[|xs| - 1])
  }

  /** The larger of the current maximum and those returned by the swaps after the first `since`. */
  function Observed(c: Cell, since: nat): nat
    requires since <= |c.swaps|
  {
    Max(c.max, MaxOf(c.swaps[since..]))
  }

  /** No version exceeds what has been observed since it was stored, and later versions were stored later. */
  ghost predicate Coherent(c: Cell) {
    && (forall k :: 0 <= k <= |c.older| ==>
          VersionAt(c, k).asOf <= |c.swaps| && VersionAt(c, k).value <= Observed(c, VersionAt(c, k).asOf))
    && (forall j, k :: 0 <= j <= k <= |c.older| ==> VersionAt(c, j).asOf <= VersionAt(c, k).asOf)
  }

  /** Where a recorder is: entered, counted, comparing with the version it last read, or returned; `asOf`
      counts the swaps before the version that it left behind or relied on. */
  datatype Progress = Entered | Counted | Comparing(read: nat) | Returned(asOf: nat)

  /** `entered` is the number of swaps made before the recorder entered. */
  datatype Recorder = Recorder(elapsed: nat, entered: nat, at: Progress)

  /** `drained` adds up the counts that swaps of the counter returned. */
  datatype State = State(count: nat, cell: Cell, recorders: map<nat, Recorder>, halfDrained: set<nat>, drained: nat)

  /** `Load` reads any version; an exchange that fails, spuriously or not, reads one that is not older than
      the recorder has already seen. */
  datatype Event =
    | Enter(r: nat, elapsed: nat)
    | FetchAdd(r: nat)
    | Load(r: nat, version: nat)
    | Leave(r: nat)
    | CompareExchangeWeak(r: nat, failed: Option<nat>)
    | SwapCount(d: nat)
    | SwapMax(d: nat)

  const INITIAL: State := State(0, Cell([], 0, []), map[], {}, 0)

  predicate Compares(s: State, r: nat) {
    r in s.recorders && s.recorders[r].at.Comparing? && s.recorders[r].at.read <= |s.cell.older|
  }

  function Seen(s: State, r: nat): Version
    requires Compares(s, r)
  {
    VersionAt(s.cell, s.recorders[r].at.read)
  }

  predicate Enabled(s: State, e: Event) {
    match e
    case Enter(r, elapsed) => r !in s.recorders && elapsed < TWO_64
    case FetchAdd(r) => r in s.recorders && s.recorders[r].at.Entered?
    case Load(r, version) => r in s.recorders && s.recorders[r].at.Counted? && version <= |s.cell.older|
    case Leave(r) => Compares(s, r) && s.recorders[r].elapsed <= Seen(s, r).value
    case CompareExchangeWeak(r, None) => Compares(s, r) && s.recorders[r].elapsed > Seen(s, r).value == s.cell.max
    case CompareExchangeWeak(r, Some(version)) =>
      && Compares(s, r) && s.recorders[r].elapsed > Seen(s, r).value
      && s.recorders[r].at.read <= version <= |s.cell.older|
    case SwapCount(d) => d !in s.halfDrained
    case SwapMax(d) => d in s.halfDrained
  }

  function Move(s: State, r: nat, p: Progress): State
    requires r in s.recorders
  {
    s.(recorders := s.recorders[r := s.recorders[r].(at := p)])
  }

  function Next(s: State, e: Event): State
    requires Enabled(s, e)
  {
    match e
    case Enter(r, elapsed) => s.(recorders := s.recorders[r := Recorder(elapsed, |s.cell.swaps|, Entered)])
    case FetchAdd(r) => Move(s, r, Counted).(count := (s.count + 1) % TWO_64)
    case Load(r, version) => Move(s, r, Comparing(version))
    case Leave(r) => Move(s, r, Returned(Seen(s, r).asOf))
    case CompareExchangeWeak(r, None) =>
      Move(s, r, Returned(|s.cell.swaps|)).(cell := Store(s.cell, s.recorders[r].elapsed))
    case CompareExchangeWeak(r, Some(version)) => Move(s, r, Comparing(version))
    case SwapCount(d) => s.(count := 0, drained := s.drained + s.count, halfDrained := s.halfDrained + {d})
    case SwapMax(d) => s.(cell := Swap(s.cell), halfDrained := s.halfDrained - {d})
  }

  function Run(events: seq<Event>): Option<State> {
    if events == [] then Some(INITIAL)
    else
      var n := |events| - 1;
      match Run(events[..n])
      case Some(s) => if Enabled(s, events[n]) then Some(Next(s, events[n])) else None
      case None => None
  }

  ghost function CountedRecorders(s: State): set<nat> {
    set r | r in s.recorders && !s.recorders[r].at.Entered?
  }

  /** A recorded value was brought by some recorder. */
  ghost predicate Brought(s: State, v: nat) {
    exists r :: r in s.recorders && s.recorders[r].elapsed == v
  }

  ghost predicate RecorderInv(s: State, r: Recorder) {
    && r.entered <= |s.cell.swaps|
    && (r.at.Comparing? ==> r.at.read <= |s.cell.older|)
    && (r.at.Returned? ==> r.at.asOf <= |s.cell.swaps| && r.elapsed <= Observed(s.cell, r.at.asOf))
  }

  /** The counts drained and the one still held account for `n` events, modulo 2^64. */
  predicate Accounted(drained: nat, count: nat, n: nat) {
    count < TWO_64 && (drained + count) % TWO_64 == n % TWO_64
  }

  ghost predicate Inv(s: State) {
    && Accounted(s.drained, s.count, |CountedRecorders(s)|)
    && Coherent(s.cell)
    && (forall r :: r in s.recorders ==> RecorderInv(s, s.recorders[r]))
    && (s.cell.max > 0 ==> Brought(s, s.cell.max))
    && (forall i :: 0 <= i < |s.cell.swaps| && s.cell.swaps[i] > 0 ==> Brought(s, s.cell.swaps[i]))
  }

  lemma {:induction false} MaxOfSnoc(xs: seq<nat>, since: nat, x: nat)
    requires since <= |xs|
    ensures MaxOf((xs + [x])[since..]) == Max(MaxOf(xs[since..]), x)
  {
    var ys := (xs + [x])[since..];
    assert ys[..|ys| - 1] == xs[since..];
  }

  lemma {:induction false} MaxOfBounds(xs: seq<nat>)
    ensures forall i :: 0 <= i < |xs| ==> xs[i] <= MaxOf(xs)
    ensures MaxOf(xs) > 0 ==> exists i :: 0 <= i < |xs| && xs[i] == MaxOf(xs)
  {
    if xs != [] {
      var n := |xs| - 1;
      MaxOfBounds(xs[..n]);
      forall i | 0 <= i < |xs| ensures xs[i] <= MaxOf(xs) { if i < n { assert xs[i] == xs[..n][i]; } }
      if MaxOf(xs) > 0 && MaxOf(xs) != xs[n] {
        var i :| 0 <= i < n && xs[..n][i] == MaxOf(xs[..n]);
        assert xs[i] == MaxOf(xs);
      }
    }
  }

  /** A swap only moves the maximum from the cell to what was drained. */
  lemma {:induction false} SwapKeepsObserved(c: Cell, since: nat)
    requires since <= |c.swaps|
    ensures Observed(Swap(c), since) == Observed(c, since)
  {
    MaxOfSnoc(c.swaps, since, c.max);
  }

  /** What has been observed since an earlier point is no less. */
  lemma {:induction false} ObservedSinceEarlier(c: Cell, early: nat, late: nat)
    requires early <= late <= |c.swaps|
    ensures Observed(c, late) <= Observed(c, early)
  {
    MaxOfBounds(c.swaps[early..]);
    MaxOfBounds(c.swaps[late..]);
    if MaxOf(c.swaps[late..]) > 0 {
      var i :| 0 <= i < |c.swaps[late..]| && c.swaps[late..][i] == MaxOf(c.swaps[late..]);
      assert c.swaps[early..][late - early + i] == MaxOf(c.swaps[late..]);
    }
  }

  /** A later state of the cell: versions stay, and what has been observed since any point has not shrunk. */
  ghost predicate Follows(c: Cell, c': Cell) {
    && c.swaps <= c'.swaps && |c.older| <= |c'.older|
    && (forall since :: 0 <= since <= |c.swaps| ==> Observed(c, since) <= Observed(c', since))
    && (forall k :: 0 <= k <= |c.older| ==> VersionAt(c', k) == VersionAt(c, k))
  }

  lemma {:induction false} FollowsOn(c: Cell, c': Cell, c'': Cell)
    requires Follows(c, c') && Follows(c', c'')
    ensures Follows(c, c'')
  {
    hide Observed, VersionAt;
  }

  lemma {:induction false} FollowsAt(c: Cell, c': Cell, k: nat)
    requires Follows(c, c') && k <= |c.older|
    ensures |c.older| <= |c'.older| && c.swaps <= c'.swaps && VersionAt(c', k) == VersionAt(c, k)
  {}

  lemma {:induction false} FollowsItself(c: Cell)
    ensures Follows(c, c)
  {}

  /** A larger value may be stored, and a swap made, without any version escaping observation. */
  lemma {:induction false} CellStep(c: Cell, c': Cell)
    requires Coherent(c) && (c' == Swap(c) || exists v :: v >= c.max && c' == Store(c, v))
    ensures Coherent(c') && Follows(c, c')
  {
    hide MaxOf;
    forall since | 0 <= since <= |c.swaps| ensures Observed(c, since) <= Observed(c', since) {
      SwapKeepsObserved(c, since);
    }
    assert forall k :: 0 <= k <= |c.older| ==> VersionAt(c', k) == VersionAt(c, k);
  }

  lemma {:induction false} ObservedGrows(s: State, e: Event)
    requires Coherent(s.cell) && Enabled(s, e)
    ensures Coherent(Next(s, e).cell) && Follows(s.cell, Next(s, e).cell)
  {
    var c' := Next(s, e).cell;
    if c' != s.cell {
      assert c' == Swap(s.cell) || exists v :: v >= s.cell.max && c' == Store(s.cell, v) by {
        if e.CompareExchangeWeak? { assert c' == Store(s.cell, s.recorders[e.r].elapsed); }
      }
      CellStep(s.cell, c');
    }
  }

  lemma {:induction false} CountedStep(s: State, e: Event)
    requires Enabled(s, e)
    ensures |CountedRecorders(Next(s, e))| == |CountedRecorders(s)| + if e.FetchAdd? then 1 else 0
  {
    hide Observed, Store, Swap, Seen;
    var s' := Next(s, e);
    forall x ensures x in CountedRecorders(s') <==> x in CountedRecorders(s) || (e.FetchAdd? && x == e.r) {}
    assert CountedRecorders(s') == CountedRecorders(s) + if e.FetchAdd? then {e.r} else {};
  }

  /** A single `fetch_add` per recorder, added up modulo 2^64. */
  lemma {:induction false} CountStep(s: State, e: Event)
    requires Enabled(s, e)
    requires Accounted(s.drained, s.count, |CountedRecorders(s)|)
    ensures var s' := Next(s, e); Accounted(s'.drained, s'.count, |CountedRecorders(s')|)
  {
    hide CountedRecorders;
    CountedStep(s, e);
    if e.FetchAdd? { WrapsOnce(s.drained, s.count, |CountedRecorders(s)|); }
  }

  lemma {:induction false} WrapsOnce(drained: nat, count: nat, n: nat)
    requires Accounted(drained, count, n)
    ensures Accounted(drained, (count + 1) % TWO_64, n + 1)
  {}

  lemma {:induction false} BroughtStays(s: State, e: Event, v: nat)
    requires Enabled(s, e) && Brought(s, v)
    ensures Brought(Next(s, e), v)
  {
    var r :| r in s.recorders && s.recorders[r].elapsed == v;
    assert r in Next(s, e).recorders && Next(s, e).recorders[r].elapsed == v;
  }

  lemma {:induction false} RecorderStep(s: State, e: Event, r: nat)
    requires Inv(s) && Enabled(s, e) && r in Next(s, e).recorders
    ensures RecorderInv(Next(s, e), Next(s, e).recorders[r])
  {
    hide Coherent, CountedRecorders, Brought;
    ObservedGrows(s, e);
    if r in s.recorders && Next(s, e).recorders[r] != s.recorders[r] && e.Leave? {
      VersionObserved(s.cell, s.recorders[r].at.read, s.recorders[r].at.read);
    }
  }

  lemma {:induction false} VersionObserved(c: Cell, j: nat, k: nat)
    requires Coherent(c) && j <= k <= |c.older|
    ensures VersionAt(c, j).asOf <= VersionAt(c, k).asOf <= |c.swaps|
    ensures VersionAt(c, k).value <= Observed(c, VersionAt(c, k).asOf)
  {}

  lemma {:induction false} StepKeepsInv(s: State, e: Event)
    requires Inv(s) && Enabled(s, e)
    ensures Inv(Next(s, e))
  {
    hide Coherent, RecorderInv, CountedRecorders;
    var s' := Next(s, e);
    CountStep(s, e);
    forall r | r in s'.recorders ensures RecorderInv(s', s'.recorders[r]) { RecorderStep(s, e, r); }
    ObservedGrows(s, e);
    forall v | Brought(s, v) ensures Brought(s', v) { BroughtStays(s, e, v); }
    if s'.cell.max > 0 && s'.cell.max != s.cell.max {
      assert Brought(s', s'.cell.max) by { assert e.r in s'.recorders; }
    }
    forall i | 0 <= i < |s'.cell.swaps| && s'.cell.swaps[i] > 0 ensures Brought(s', s'.cell.swaps[i]) {
      if i < |s.cell.swaps| { assert s'.cell.swaps[i] == s.cell.swaps[i]; }
    }
  }

  /** Every interleaving of atomic operations, stale reads and spurious failures included. */
  lemma {:induction false} RunKeepsInv(events: seq<Event>)
    requires Run(events).Some?
    ensures Inv(Run(events).value)
  {
    if events == [] {
      assert CountedRecorders(INITIAL) == {};
    } else {
      var n := |events| - 1;
      RunKeepsInv(events[..n]);
      StepKeepsInv(Run(events[..n]).value, events[n]);
    }
  }

  /** A recorder that has not returned always has a next step of its own, whatever the others did. */
  lemma {:induction false} NeverStuck(s: State, r: nat)
    requires Inv(s) && r in s.recorders && !s.recorders[r].at.Returned?
    ensures exists e :: e in [FetchAdd(r), Load(r, |s.cell.older|), Leave(r), CompareExchangeWeak(r, Some(|s.cell.older|))] && Enabled(s, e)
  {
    hide Coherent, CountedRecorders, Brought;
    assert RecorderInv(s, s.recorders[r]);
    var steps := [FetchAdd(r), Load(r, |s.cell.older|), Leave(r), CompareExchangeWeak(r, Some(|s.cell.older|))];
    assert Enabled(s, steps[0]) || Enabled(s, steps[1]) || Enabled(s, steps[2]) || Enabled(s, steps[3]);
  }

  /** What the drains have returned plus what is left accounts for every counted event, and no finished
      recorder's value is lost to the drains after the version it relied on. */
  lemma {:induction false} NothingLost(events: seq<Event>)
    requires Run(events).Some?
    ensures var s := Run(events).value;
            && Accounted(s.drained, s.count, |CountedRecorders(s)|)
            && forall r :: r in s.recorders && s.recorders[r].at.Returned? ==>
                 s.recorders[r].at.asOf <= |s.cell.swaps| && s.recorders[r].elapsed <= Observed(s.cell, s.recorders[r].at.asOf)
  {
    RunKeepsInv(events);
    assert forall r :: r in Run(events).value.recorders ==> RecorderInv(Run(events).value, Run(events).value.recorders[r]);
  }

  /** A recorder that entered after `entered` swaps has returned, relying on a version stored after `asOf`. */
  predicate ReturnsOn(events: seq<Event>, r: nat, entered: nat, asOf: nat) {
    && Run(events).Some? && r in Run(events).value.recorders
    && Run(events).value.recorders[r].entered == entered && Run(events).value.recorders[r].at == Returned(asOf)
  }

  /** Its value is held, or was drained after it entered. */
  predicate Kept(s: State, r: nat)
    requires r in s.recorders
  {
    s.recorders[r].entered <= |s.cell.swaps| && s.recorders[r].elapsed <= Observed(s.cell, s.recorders[r].entered)
  }

  /** Over all runs, a recorder's value survives the drains made since it entered exactly if it did not rely
      on a version from before the last of the earlier drains. */
  lemma {:induction false} KeptIffFresh(entered: nat, asOf: nat)
    ensures (forall events, r :: ReturnsOn(events, r, entered, asOf) ==> Kept(Run(events).value, r))
            <==> entered <= asOf
  {
    if entered <= asOf {
      forall events, r | ReturnsOn(events, r, entered, asOf) ensures Kept(Run(events).value, r) {
        NothingLost(events);
        ObservedSinceEarlier(Run(events).value.cell, entered, asOf);
      }
    } else {
      StaleReadLoses(entered, asOf);
    }
  }

  lemma {:induction false} RunStep(events: seq<Event>, e: Event)
    requires Run(events).Some? && Enabled(Run(events).value, e)
    ensures Run(events + [e]) == Some(Next(Run(events).value, e))
  {
    assert (events + [e])[..|events|] == events;
  }

  lemma {:induction false} InitialRun()
    ensures Run([]) == Some(INITIAL)
  {}

  function WithDrains(events: seq<Event>, n: nat): seq<Event> {
    if n == 0 then events else WithDrains(events, n - 1) + [SwapCount(0)] + [SwapMax(0)]
  }

  /** No drain is between its two swaps. */
  predicate NoneHalf(s: State) { s.halfDrained == {} }

  lemma {:induction false} OneDrain(events: seq<Event>)
    requires Run(events).Some? && NoneHalf(Run(events).value)
    ensures var s := Run(events).value;
            Run(events + [SwapCount(0)] + [SwapMax(0)]) == Some(s.(count := 0, drained := s.drained + s.count, cell := Swap(s.cell)))
  {
    hide Run, Swap;
    RunStep(events, SwapCount(0));
    RunStep(events + [SwapCount(0)], SwapMax(0));
  }

  lemma {:induction false} DrainsRun(events: seq<Event>, n: nat)
    requires Run(events).Some? && NoneHalf(Run(events).value)
    ensures var s := Run(events).value; Run(WithDrains(events, n)).Some? && var s' := Run(WithDrains(events, n)).value;
            && NoneHalf(s') && s'.recorders == s.recorders
            && |s'.cell.swaps| == |s.cell.swaps| + n && (n > 0 || s.cell.max == 0 ==> s'.cell.max == 0)
            && |s'.cell.older| == |s.cell.older| + n
            && forall k :: 0 <= k <= |s.cell.older| ==> VersionAt(s'.cell, k) == VersionAt(s.cell, k)
  {
    hide Run;
    if n > 0 {
      DrainsRun(events, n - 1);
      OneDrain(WithDrains(events, n - 1));
    }
  }

  function WithLoad(events: seq<Event>, r: nat, elapsed: nat, version: nat): seq<Event> {
    events + [Enter(r, elapsed)] + [FetchAdd(r)] + [Load(r, version)]
  }

  lemma {:induction false} LoadRun(events: seq<Event>, r: nat, elapsed: nat, version: nat)
    requires Run(events).Some? && r !in Run(events).value.recorders && elapsed < TWO_64
    requires version <= |Run(events).value.cell.older|
    ensures var s := Run(events).value; var loaded := Run(WithLoad(events, r, elapsed, version));
            && loaded.Some? && loaded.value.cell == s.cell && loaded.value.halfDrained == s.halfDrained
            && loaded.value.recorders == s.recorders[r := Recorder(elapsed, |s.cell.swaps|, Comparing(version))]
  {
    hide Run;
    RunStep(events, Enter(r, elapsed));
    RunStep(events + [Enter(r, elapsed)], FetchAdd(r));
    RunStep(events + [Enter(r, elapsed)] + [FetchAdd(r)], Load(r, version));
  }

  /** Recorder 0 stores five, the drains take it away, and recorder 1 enters with three but still reads five. */
  lemma {:induction false} StaleReadLoses(entered: nat, asOf: nat)
    requires asOf < entered
    ensures exists events, r :: ReturnsOn(events, r, entered, asOf) && !Kept(Run(events).value, r)
  {
    hide Run, WithDrains, WithLoad;
    InitialRun();
    var drained := WithDrains([], asOf);
    DrainsRun([], asOf);
    LoadRun(drained, 0, 5, asOf);
    var loaded := WithLoad(drained, 0, 5, asOf);
    RunStep(loaded, CompareExchangeWeak(0, None));
    var stored := loaded + [CompareExchangeWeak(0, None)];
    assert VersionAt(Run(stored).value.cell, asOf + 1) == Version(5, asOf);
    DrainsRun(stored, entered - asOf);
    var taken := WithDrains(stored, entered - asOf);
    LoadRun(taken, 1, 3, asOf + 1);
    var stale := WithLoad(taken, 1, 3, asOf + 1);
    RunStep(stale, Leave(1));
    assert ReturnsOn(stale + [Leave(1)], 1, entered, asOf) && !Kept(Run(stale + [Leave(1)]).value, 1);
  }

  /** When all recorders have returned, the largest value ever drained or still held is exactly the
      largest recorded one, stale reads or not. */
  lemma {:induction false} MaximumExactAtRest(events: seq<Event>)
    requires Run(events).Some? && forall r :: r in Run(events).value.recorders ==> Run(events).value.recorders[r].at.Returned?
    ensures var s := Run(events).value;
            && (forall r :: r in s.recorders ==> s.recorders[r].elapsed <= Observed(s.cell, 0))
            && (Observed(s.cell, 0) > 0 ==> Brought(s, Observed(s.cell, 0)))
  {
    RunKeepsInv(events);
    NothingLost(events);
    var s := Run(events).value;
    assert s.cell.swaps[0..] == s.cell.swaps;
    MaxOfBounds(s.cell.swaps);
    forall r | r in s.recorders ensures s.recorders[r].elapsed <= Observed(s.cell, 0) {
      ObservedSinceEarlier(s.cell, 0, s.recorders[r].at.asOf);
    }
  }

  /** What others do to the maximum just before an exchange of the recorder in focus, and whether that
      exchange then fails with an older version. */
  datatype Other = Idle | RaisesTo(v: nat) | Swaps
  datatype Turn = Turn(other: Other, failed: Option<nat>)

  class Accumulator {
    var eventCount: nat
    var cell: Cell
    ghost var recorded: nat
    ghost var drained: nat

    ghost predicate Valid() reads this {
      && Accounted(drained, eventCount, recorded)
      && Coherent(cell)
    }

    constructor ()
      ensures Valid() && recorded == drained == 0 && cell == INITIAL.cell
    {
      eventCount, cell, recorded, drained := 0, INITIAL.cell, 0, 0;
    }

    method Interfere(other: Other)
      requires Coherent(cell)
      modifies this`cell
      ensures Coherent(cell) && Follows(old(cell), cell) && (other.Idle? ==> cell == old(cell))
    {
      ghost var before := cell;
      if other.Swaps? {
        cell := Swap(cell);
        CellStep(before, cell);
      } else if other.RaisesTo? {
        cell := Store(cell, Max(cell.max, other.v));
        CellStep(before, cell);
      }
    }

    /** The compare-exchange loop, its first load stale or not, against arbitrary interference. */
    method RecordEvent(elapsedMs: nat, version: nat, turns: seq<Turn>) returns (ghost asOf: nat)
      requires Valid() && version <= |cell.older|
      modifies this
      ensures Valid() && recorded == old(recorded) + 1 && drained == old(drained)
      ensures Follows(old(cell), cell)
      ensures VersionAt(old(cell), version).asOf <= asOf <= |cell.swaps| && elapsedMs <= Observed(cell, asOf)
      ensures version == |old(cell.older)| && turns == [] ==>
                cell.max == Max(old(cell.max), elapsedMs) && cell.swaps == old(cell.swaps)
    {
      hide Coherent, Accounted, Follows, Observed;
      ghost var before := cell;
      FollowsItself(cell);
      WrapsOnce(drained, eventCount, recorded);
      eventCount := (eventCount + 1) % TWO_64;
      recorded := recorded + 1;
      var read := version;
      var rest := turns;
      while elapsedMs > VersionAt(cell, read).value
        invariant Valid() && recorded == old(recorded) + 1 && drained == old(drained)
        invariant version <= read <= |cell.older| && Follows(before, cell)
        invariant version == |before.older| && turns == [] ==> rest == [] && read == version && cell == before
        decreases |rest|, |cell.older| - read
      {
        var failed := None;
        if rest != [] {
          ghost var c := cell;
          Interfere(rest[0].other);
          FollowsAt(c, cell, read);
          FollowsOn(before, c, cell);
          failed := rest[0].failed;
          rest := rest[1..];
        }
        if failed.Some? && read <= failed.value <= |cell.older| {
          read := failed.value;
        } else if VersionAt(cell, read).value == cell.max {
          asOf := Exchange(before, version, elapsedMs);
          return;
        } else {
          read := |cell.older|;
        }
      }
      FollowsAt(before, cell, version);
      VersionObserved(cell, version, read);
      asOf := VersionAt(cell, read).asOf;
    }

    method Exchange(ghost before: Cell, ghost version: nat, elapsedMs: nat) returns (ghost asOf: nat)
      requires Coherent(cell) && Follows(before, cell) && version <= |before.older| && elapsedMs > cell.max
      modifies this`cell
      ensures Coherent(cell) && Follows(before, cell) && cell == Store(old(cell), elapsedMs)
      ensures VersionAt(before, version).asOf <= asOf <= |cell.swaps| && elapsedMs <= Observed(cell, asOf)
    {
      hide Coherent, Follows;
      ghost var c := cell;
      asOf := |cell.swaps|;
      FollowsAt(before, cell, version);
      VersionObserved(cell, version, |cell.older|);
      cell := Store(cell, elapsedMs);
      CellStep(c, cell);
      FollowsOn(before, c, cell);
    }

    /** A drain hands over what it takes: nothing recorded leaves the account, and what has been observed
        since any point stays the same. */
    method Drain() returns (count: nat, max: nat)
      requires Valid()
      modifies this
      ensures Valid() && recorded == old(recorded) && drained == old(drained) + count
      ensures forall since :: 0 <= since <= |old(cell.swaps)| ==>
                since <= |cell.swaps| && Observed(cell, since) == old(Observed(cell, since))
      ensures eventCount == 0 && cell.max == 0 && cell.swaps == old(cell.swaps) + [max]
      ensures forall k :: 0 <= k <= |old(cell.older)| ==> k <= |cell.older| && VersionAt(cell, k) == VersionAt(old(cell), k)
    {
      ghost var before := cell;
      count, eventCount := eventCount, 0;
      drained := drained + count;
      max := cell.max;
      cell := Swap(cell);
      CellStep(before, cell);
      forall since | 0 <= since <= |before.swaps| ensures Observed(cell, since) == Observed(before, since) {
        SwapKeepsObserved(before, since);
      }
    }
  }
}
