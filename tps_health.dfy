/**
 * The actuator example's TPS health gate: a one-minute window that counts
 * transactions, and a health indicator that reports the service out of
 * service once the window holds more transactions than its threshold.
 *
 * The wall clock is an explicit argument `now`, an absolute time in
 * milliseconds (the resolution at which `Calendar` values are compared).
 */
module TpsHealth {
  import opened Wrappers

  /** `Calendar.add(Calendar.MINUTE, 1)`, in milliseconds. */
  const OneMinute: int := 60_000

  /** The initial value of `TPSCounter.threshold`. */
  const DefaultThreshold: int := 2

  const TwoTo31: int := 0x8000_0000
  const TwoTo32: int := 0x1_0000_0000

  /**
   * `LongAdder.intValue()`: the sum narrowed to a Java `int`, i.e. its low
   * 32 bits read as a two's-complement number. The low 32 bits of the
   * 64-bit sum are those of the unbounded count, so no 64-bit step is needed.
   */
  function IntValue(n: nat): (r: int)
    ensures -TwoTo31 <= r < TwoTo31
    ensures (r - n) % TwoTo32 == 0
    ensures n < TwoTo31 ==> r == n
  {
    var low := n % TwoTo32;
    if low < TwoTo31 then low else low - TwoTo32
  }

  // ---------------------------------------------------------------------
  // Value-level specification of one window and of the gate
  // ---------------------------------------------------------------------

  /** The state of one `TPSCounter`: its count, threshold and expiry time. */
  datatype Window = Window(count: nat, threshold: int, expiry: int)

  /** The state of a counter created at time `now`. */
  function FreshWindow(now: int): Window {
    Window(0, DefaultThreshold, now + OneMinute)
  }

  /** `Calendar.getInstance().after(expiry)`: strictly past the expiry time. */
  predicate Expired(w: Window, now: int) {
    now > w.expiry
  }

  /** `count.intValue() > threshold`. */
  predicate Weak(w: Window) {
    IntValue(w.count) > w.threshold
  }

  /** Window after `updateTx` at time `now`, given the window held before (None: no counter yet). */
  function RecordTx(g: Option<Window>, now: int): (w: Window)
    ensures !Expired(w, now)
    ensures g.None? || Expired(g.value, now) ==> w == Window(1, DefaultThreshold, now + OneMinute)
    ensures g.Some? && !Expired(g.value, now) ==>
              w.count == g.value.count + 1 && w.threshold == g.value.threshold && w.expiry == g.value.expiry
  {
    var current := if g.None? || Expired(g.value, now) then FreshWindow(now) else g.value;
    current.(count := current.count + 1)
  }

  /** The status part of a Spring Boot `Health`. */
  datatype Status = Up | OutOfService

  /** A `Health` value: a status and its detail entries. */
  datatype Health = Health(status: Status, details: map<string, string>)

  /** What `TPSHealth.health()` can throw: it dereferences a counter that may not exist yet. */
  datatype Fault = NullPointerException

  /** `Health.outOfService().withDetail("Too many requests", "OutofService").build()`. */
  function TooManyRequests(): Health {
    Health(OutOfService, map["Too many requests" := "OutofService"])
  }

  /** `Health.up().build()`. */
  function Healthy(): Health {
    Health(Up, map[])
  }

  /** Outcome of `health()` for the window held (None: `counter` is still null). */
  function Report(g: Option<Window>): (r: Result<Health, Fault>)
    ensures g.None? <==> r == Failure(NullPointerException)
    ensures g.Some? ==> r.Success? && (r.value == TooManyRequests() <==> Weak(g.value))
    ensures g.Some? ==> r.Success? && (r.value == Healthy() <==> !Weak(g.value))
  {
    match g
    case None => Failure(NullPointerException)
    case Some(w) => Success(if Weak(w) then TooManyRequests() else Healthy())
  }

  /** The window after a sequence of `updateTx` calls at the given times, in order. */
  function Run(g: Option<Window>, times: seq<int>): Option<Window>
    decreases |times|
  {
    if times == [] then g else Run(Some(RecordTx(g, times[0])), times[1..])
  }

  // ---------------------------------------------------------------------
  // Properties of the specification
  // ---------------------------------------------------------------------

  /** A new window is live up to and including its expiry instant, and expired one millisecond later. */
  lemma FreshWindowLifetime(created: int, now: int)
    ensures FreshWindow(created).count == 0 && FreshWindow(created).threshold == 2
    ensures FreshWindow(created).expiry == created + 60_000
    ensures Expired(FreshWindow(created), now) <==> now > created + 60_000
    ensures !Expired(FreshWindow(created), created + 60_000)
    ensures Expired(FreshWindow(created), created + 60_001)
  {
  }

  /** For every count a Java `int` can hold, the window is weak exactly when the count exceeds the threshold. */
  lemma WeakIffOverThreshold(w: Window)
    requires w.count < TwoTo31
    ensures Weak(w) <==> w.count > w.threshold
  {
  }

  /** With the default threshold, two transactions leave the window healthy and three make it weak. */
  lemma ThresholdOfTwo(w: Window)
    requires w.threshold == DefaultThreshold
    ensures w.count == 2 ==> !Weak(w)
    ensures w.count == 3 ==> Weak(w)
  {
  }

  /** `intValue()` wraps: a count of 2^31 reads as a negative int, so the window is not weak. */
  lemma WeakWrapsAtIntOverflow(w: Window)
    requires w.count == TwoTo31 && w.threshold == DefaultThreshold
    ensures IntValue(w.count) == -TwoTo31
    ensures !Weak(w)
  {
  }

  /**
   * While a window stays current (the expiry after the call is the one before),
   * `updateTx` only raises its count by one: the count never decreases
   * during a window's lifetime.
   */
  lemma SameWindowOnlyGrows(w: Window, now: int)
    requires RecordTx(Some(w), now).expiry == w.expiry
    ensures !Expired(w, now)
    ensures RecordTx(Some(w), now) == w.(count := w.count + 1)
  {
  }

  /** Requests no later than a live window's expiry all land in that window. */
  lemma {:induction false} RunWithinLiveWindow(w: Window, times: seq<int>)
    requires forall i :: 0 <= i < |times| ==> times[i] <= w.expiry
    ensures Run(Some(w), times) == Some(w.(count := w.count + |times|))
    decreases |times|
  {
    if times != [] {
      var w' := RecordTx(Some(w), times[0]);
      assert w' == w.(count := w.count + 1);
      RunWithinLiveWindow(w', times[1..]);
    }
  }

  /**
   * A burst that starts with no live window at `times[0]` and ends within one
   * minute of it: it opens one fresh window holding exactly one count per request.
   */
  lemma BurstOpensOneWindow(g: Option<Window>, times: seq<int>)
    requires |times| > 0
    requires g.None? || Expired(g.value, times[0])
    requires forall i :: 0 <= i < |times| ==> times[i] <= times[0] + OneMinute
    ensures Run(g, times) == Some(Window(|times|, DefaultThreshold, times[0] + OneMinute))
  {
    var w := RecordTx(g, times[0]);
    assert w == Window(1, DefaultThreshold, times[0] + OneMinute);
    var rest := times[1..];
    forall i | 0 <= i < |rest| ensures rest[i] <= w.expiry {
      assert rest[i] == times[i + 1];
    }
    RunWithinLiveWindow(w, rest);
  }

  /**
   * n transactions within one minute of the first, starting from a gate that
   * never saw one: `health()` reports out of service exactly when n > 2.
   */
  lemma BurstVerdict(times: seq<int>)
    requires 0 < |times| < TwoTo31
    requires forall i :: 0 <= i < |times| ==> times[i] <= times[0] + OneMinute
    ensures Report(Run(None, times)) == Success(if |times| > 2 then TooManyRequests() else Healthy())
  {
    BurstOpensOneWindow(None, times);
    WeakIffOverThreshold(Window(|times|, DefaultThreshold, times[0] + OneMinute));
  }

  /** Before any transaction the gate has no counter, and `health()` fails instead of reporting up. */
  lemma HealthBeforeAnyTransaction()
    ensures Run(None, []) == None
    ensures Report(Run(None, [])) == Failure(NullPointerException)
    ensures Report(Run(None, [])) != Success(Healthy())
  {
  }

  /** A request after the window expired discards the old count: the new window holds count 1 and reports up. */
  lemma ExpiryResets(w: Window, now: int)
    requires Expired(w, now)
    ensures RecordTx(Some(w), now) == Window(1, DefaultThreshold, now + OneMinute)
    ensures Report(Some(RecordTx(Some(w), now))) == Success(Healthy())
  {
  }

  /**
   * Two requests, then one more after the minute has passed: the old window
   * held 2, the new one holds 1, and the gate reports up.
   */
  lemma TwoThenAfterTheMinute(t0: int, t1: int, t2: int)
    requires t0 <= t1 <= t0 + OneMinute < t2
    ensures Run(None, [t0, t1]) == Some(Window(2, DefaultThreshold, t0 + OneMinute))
    ensures Run(None, [t0, t1, t2]) == Some(Window(1, DefaultThreshold, t2 + OneMinute))
    ensures Report(Run(None, [t0, t1, t2])) == Success(Healthy())
  {
    BurstOpensOneWindow(None, [t0, t1]);
    assert Run(None, [t0, t1, t2]) == Run(Run(None, [t0, t1]), [t2]) by {
      RunAppend(None, [t0, t1], [t2]);
      assert [t0, t1] + [t2] == [t0, t1, t2];
    }
    var w := Window(2, DefaultThreshold, t0 + OneMinute);
    assert Run(Some(w), [t2]) == Run(Some(RecordTx(Some(w), t2)), []) by {
      assert [t2][1..] == [];
    }
  }

  /** Running two request sequences one after the other is running their concatenation. */
  lemma {:induction false} RunAppend(g: Option<Window>, xs: seq<int>, ys: seq<int>)
    ensures Run(g, xs + ys) == Run(Run(g, xs), ys)
    decreases |xs|
  {
    if xs == [] {
      assert xs + ys == ys;
    } else {
      assert (xs + ys)[0] == xs[0];
      assert (xs + ys)[1..] == xs[1..] + ys;
      RunAppend(Some(RecordTx(g, xs[0])), xs[1..], ys);
    }
  }

  // ---------------------------------------------------------------------
  // The source's classes
  // ---------------------------------------------------------------------

  /** `TPSCounter`: a one-minute window whose count is incremented in place. */
  class TPSCounter {
    var count: nat
    var threshold: int
    var expiry: int

    /** The window this counter currently represents. */
    function View(): Window
      reads this
    {
      Window(count, threshold, expiry)
    }

    /** `new TPSCounter()` at time `now`: count 0, threshold 2, expiry one minute later. */
    constructor (now: int)
      ensures count == 0 && threshold == DefaultThreshold && expiry == now + OneMinute
      ensures View() == FreshWindow(now)
    {
      count := 0;
      threshold := DefaultThreshold;
      expiry := now + OneMinute;
    }

    /** `isExpired()` at time `now`. */
    function IsExpired(now: int): (r: bool)
      reads this
      ensures r == Expired(View(), now)
      ensures r <==> now > expiry
    {
      now > expiry
    }

    /** `isWeak()`. */
    function IsWeak(): (r: bool)
      reads this
      ensures r == Weak(View())
      ensures count < TwoTo31 ==> (r <==> count > threshold)
    {
      IntValue(count) > threshold
    }

    /** `increment()`: the count rises by one; threshold and expiry stay. */
    method Increment()
      modifies this
      ensures count == old(count) + 1
      ensures threshold == old(threshold) && expiry == old(expiry)
    {
      count := count + 1;
    }
  }

  /** `TPSHealth`: the health indicator holding the current counter, null until the first transaction. */
  class TPSHealth {
    var counter: TPSCounter?

    /** The window currently held, if any. */
    function Gate(): Option<Window>
      reads this, counter
    {
      if counter == null then None else Some(counter.View())
    }

    /** A gate that has not seen any transaction. */
    constructor ()
      ensures counter == null
      ensures Gate() == None
    {
      counter := null;
    }

    /**
     * `updateTx()` at time `now`: replaces a missing or expired counter by a
     * new one, then increments the current counter in place.
     */
    method UpdateTx(now: int)
      modifies this, counter
      ensures counter != null && !counter.IsExpired(now)
      ensures Gate() == Some(RecordTx(old(Gate()), now))
      ensures old(counter == null || counter.IsExpired(now)) ==> fresh(counter)
      ensures old(counter != null && !counter.IsExpired(now)) ==> counter == old(counter)
    {
      if counter == null || counter.IsExpired(now) {
        counter := new TPSCounter(now);
      }
      counter.Increment();
    }

    /** `howGoodIsHealth()`: whether the counter is weak; throws when there is no counter. */
    function HowGoodIsHealth(): (r: Result<bool, Fault>)
      reads this, counter
      ensures counter == null <==> r == Failure(NullPointerException)
      ensures counter != null ==> r == Success(Weak(counter.View()))
    {
      if counter == null then Failure(NullPointerException) else Success(counter.IsWeak())
    }

    /** `health()`: out of service when the counter is weak, up otherwise; reads the state only. */
    function HealthReport(): (r: Result<Health, Fault>)
      reads this, counter
      ensures r == Report(Gate())
    {
      match HowGoodIsHealth()
      case Failure(e) => Failure(e)
      case Success(weak) => Success(if weak then TooManyRequests() else Healthy())
    }
  }

  /** The greeting endpoint's use of the gate: three requests in 20 seconds put it out of service. */
  method ThreeRequestsInOneMinute(start: int)
  {
    var gate := new TPSHealth();
    gate.UpdateTx(start);
    gate.UpdateTx(start + 10_000);
    assert gate.HealthReport() == Success(Healthy());
    gate.UpdateTx(start + 20_000);
    assert gate.HealthReport() == Success(TooManyRequests());
  }
}
