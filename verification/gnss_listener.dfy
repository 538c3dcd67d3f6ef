/** The location test's listener for GNSS measurement callbacks. It keeps the
    received events, the last reported status and a countdown latch that the
    test thread waits on. Callbacks are delivered one at a time; the latch is a
    natural number that `countDown` decrements and never takes below zero, and
    waiting on it succeeds at once when it is zero.

    The status codes are the platform's GnssMeasurementsEvent.Callback constants,
    which are not part of this model; only their being distinct matters here. */
module GnssListener {
  import opened Wrappers

  const StatusNotSupported: int := 0
  const StatusReady: int := 1
  const StatusLocationDisabled: int := 2
  /** The status before any status callback arrives. */
  const NoStatus: int := -1

  /** A GnssMeasurementsEvent; its contents play no part here, so events are
      opaque identifiers. */
  type Event = int

  datatype Listener = Listener(
    tag: string,
    eventsToCollect: int,
    events: seq<Event>,
    latch: nat,
    status: int)

  /** `CountDownLatch.countDown`: decrements, but not below zero. */
  function CountDown(count: nat): (c: nat)
    ensures c <= count
    ensures c == 0 ==> count <= 1
    ensures count > 0 ==> c + 1 == count
  {
    if count == 0 then 0 else count - 1
  }

  /** `await` returns true without waiting exactly when the latch is open. */
  predicate Released(l: Listener) {
    l.latch == 0
  }

  /** The two-argument constructor. A negative count makes the latch's
      constructor raise before any field is set. */
  function New(tag: string, eventsToCollect: int): (r: Result<Listener>)
    ensures r.Failure? <==> eventsToCollect < 0
    ensures r.Success? ==>
              && r.value.status == NoStatus && r.value.events == []
              && r.value.latch == eventsToCollect && r.value.eventsToCollect == eventsToCollect
  {
    if eventsToCollect < 0 then Failure("IllegalArgumentException: count < 0")
    else Success(Listener(tag, eventsToCollect, [], eventsToCollect, NoStatus))
  }

  /** The one-argument constructor: nothing to collect, latch already open. */
  function NewWithoutCount(tag: string): (l: Listener)
    ensures Released(l) && l.events == [] && l.status == NoStatus
  {
    New(tag, 0).value
  }

  /** `onGnssMeasurementsReceived`: append the event; count down once the list
      has reached the number of events to collect. */
  function OnMeasurementsReceived(l: Listener, event: Event): (r: Listener)
    ensures r.events == l.events + [event]
    ensures r.latch < l.latch <==> l.latch > 0 && |l.events| + 1 >= l.eventsToCollect
    ensures l.latch - 1 <= r.latch <= l.latch
    ensures r.status == l.status && r.eventsToCollect == l.eventsToCollect && r.tag == l.tag
  {
    var events := l.events + [event];
    var latch := if |events| >= l.eventsToCollect then CountDown(l.latch) else l.latch;
    l.(events := events, latch := latch)
  }

  /** `onStatusChanged`: record the status; any status other than ready counts down. */
  function OnStatusChanged(l: Listener, status: int): (r: Listener)
    ensures r.status == status
    ensures r.latch < l.latch <==> l.latch > 0 && status != StatusReady
    ensures l.latch - 1 <= r.latch <= l.latch
    ensures r.events == l.events && r.eventsToCollect == l.eventsToCollect && r.tag == l.tag
  {
    var latch := if status != StatusReady then CountDown(l.latch) else l.latch;
    l.(status := status, latch := latch)
  }

  /** `verifyState`: whether data is expected, whether a soft warning was
      logged, or the assertion failure raised when no usable status arrived. */
  datatype StateCheck = Returned(expectData: bool, softWarning: bool) | AssertionFailed(message: string)

  function VerifyState(l: Listener): (c: StateCheck)
    ensures c.Returned? && c.expectData <==> l.status == StatusReady
    ensures c.Returned? && c.softWarning <==> l.status == StatusNotSupported
    ensures c.AssertionFailed? <==>
              l.status != StatusReady && l.status != StatusNotSupported && l.status != StatusLocationDisabled
  {
    if l.status == StatusNotSupported then Returned(false, true)
    else if l.status == StatusReady then Returned(true, false)
    else if l.status == StatusLocationDisabled then Returned(false, false)
    else AssertionFailed("GnssMeasurementsEvent status callback was not received.")
  }

  /** A listener that never received a status fails `verifyState`. */
  lemma VerifyStateWithoutStatus(tag: string, n: int)
    requires New(tag, n).Success?
    ensures VerifyState(New(tag, n).value).AssertionFailed?
  {
  }

  // ---------------------------------------------------------------------------
  // Sequences of callbacks

  datatype Callback = Measurements(event: Event) | StatusChanged(status: int)

  function Receive(l: Listener, cb: Callback): Listener {
    match cb
    case Measurements(event) => OnMeasurementsReceived(l, event)
    case StatusChanged(status) => OnStatusChanged(l, status)
  }

  /** The listener after the callbacks, delivered in order. */
  function Deliver(l: Listener, cbs: seq<Callback>): Listener
    decreases |cbs|
  {
    if |cbs| == 0 then l else Receive(Deliver(l, cbs[..|cbs| - 1]), cbs[|cbs| - 1])
  }

  /** The measurement events among the callbacks, in order. */
  function MeasurementsOf(cbs: seq<Callback>): seq<Event>
    decreases |cbs|
  {
    if |cbs| == 0 then []
    else MeasurementsOf(cbs[..|cbs| - 1])
         + (if cbs[|cbs| - 1].Measurements? then [cbs[|cbs| - 1].event] else [])
  }

  /** The status of the last status callback, or `current` if there is none. */
  function LastStatus(cbs: seq<Callback>, current: int): int
    decreases |cbs|
  {
    if |cbs| == 0 then current
    else if cbs[|cbs| - 1].StatusChanged? then cbs[|cbs| - 1].status
    else LastStatus(cbs[..|cbs| - 1], current)
  }

  /** Whatever arrives: events are only ever appended, in arrival order; the
      status is the last one reported; the latch never goes up and drops by at
      most one per callback. */
  lemma {:induction false} DeliverCharacterization(l: Listener, cbs: seq<Callback>)
    ensures Deliver(l, cbs).events == l.events + MeasurementsOf(cbs)
    ensures Deliver(l, cbs).status == LastStatus(cbs, l.status)
    ensures l.latch - |cbs| <= Deliver(l, cbs).latch <= l.latch
    ensures Deliver(l, cbs).eventsToCollect == l.eventsToCollect && Deliver(l, cbs).tag == l.tag
    decreases |cbs|
  {
    if |cbs| > 0 {
      DeliverCharacterization(l, cbs[..|cbs| - 1]);
    }
  }

  /** How many of the first `k` events count the latch down when `n` are to be
      collected: the j-th event does so when j >= n. */
  function CountedEvents(n: int, k: nat): nat {
    if n <= 0 then k else if k + 1 >= n then k + 1 - n else 0
  }

  /** Starting with no events, after `|cbs|` measurement callbacks the latch has
      been counted down once for each event from the n-th on. */
  lemma {:induction false} LatchAfterMeasurements(l: Listener, cbs: seq<Callback>)
    requires l.events == []
    requires forall i :: 0 <= i < |cbs| ==> cbs[i].Measurements?
    ensures |Deliver(l, cbs).events| == |cbs|
    ensures Deliver(l, cbs).eventsToCollect == l.eventsToCollect
    ensures Deliver(l, cbs).latch == if l.latch <= CountedEvents(l.eventsToCollect, |cbs|) then 0
                                     else l.latch - CountedEvents(l.eventsToCollect, |cbs|)
    decreases |cbs|
  {
    if |cbs| > 0 {
      LatchAfterMeasurements(l, cbs[..|cbs| - 1]);
    }
  }

  /** As written, the first n - 1 events leave the latch where it started. */
  lemma {:induction false} FirstEventsKeepLatch(tag: string, n: int, cbs: seq<Callback>)
    requires 1 <= n && |cbs| < n
    requires forall i :: 0 <= i < |cbs| ==> cbs[i].Measurements?
    ensures Deliver(New(tag, n).value, cbs).latch == n
  {
    LatchAfterMeasurements(New(tag, n).value, cbs);
  }

  /** As written, with n >= 1 events to collect, the latch opens only after
      2n - 1 measurement events, not after n. */
  lemma {:induction false} AsWrittenReleasesLate(tag: string, n: nat, cbs: seq<Callback>)
    requires forall i :: 0 <= i < |cbs| ==> cbs[i].Measurements?
    ensures Released(Deliver(New(tag, n).value, cbs)) <==> n == 0 || |cbs| >= 2 * n - 1
  {
    LatchAfterMeasurements(New(tag, n).value, cbs);
  }

  /** Two events to collect, two events received, and `await` still blocks. */
  lemma AsWrittenCounterexample(e1: Event, e2: Event)
    ensures var l := Deliver(New("gnss", 2).value, [Measurements(e1), Measurements(e2)]);
            |l.events| == 2 && !Released(l)
  {
    AsWrittenReleasesLate("gnss", 2, [Measurements(e1), Measurements(e2)]);
    LatchAfterMeasurements(New("gnss", 2).value, [Measurements(e1), Measurements(e2)]);
  }

  /** A single non-ready status opens the as-written latch only while at most
      one count is left. */
  lemma AsWrittenStatusReleases(l: Listener, status: int)
    requires status != StatusReady
    ensures Released(OnStatusChanged(l, status)) <==> l.latch <= 1
  {
  }

  /** The listener with a single-count latch (none when nothing is to be
      collected): it opens on the n-th event or on the first non-ready status. */
  function NewSingleRelease(tag: string, eventsToCollect: int): (r: Result<Listener>)
    ensures r.Failure? <==> eventsToCollect < 0
    ensures r.Success? ==> r.value.status == NoStatus && r.value.events == []
                           && r.value.eventsToCollect == eventsToCollect
                           && (Released(r.value) <==> eventsToCollect == 0)
  {
    if eventsToCollect < 0 then Failure("IllegalArgumentException: count < 0")
    else Success(Listener(tag, eventsToCollect, [], if eventsToCollect == 0 then 0 else 1, NoStatus))
  }

  /** With the single-count latch, `await` succeeds exactly once the n events
      have been collected. */
  lemma {:induction false} SingleReleaseOpensAtN(tag: string, n: nat, cbs: seq<Callback>)
    requires forall i :: 0 <= i < |cbs| ==> cbs[i].Measurements?
    ensures Released(Deliver(NewSingleRelease(tag, n).value, cbs)) <==> |cbs| >= n
  {
    LatchAfterMeasurements(NewSingleRelease(tag, n).value, cbs);
  }

  /** With the single-count latch, any non-ready status opens it. */
  lemma SingleReleaseOpensOnStatus(tag: string, n: nat, cbs: seq<Callback>, status: int)
    requires status != StatusReady
    ensures Released(OnStatusChanged(Deliver(NewSingleRelease(tag, n).value, cbs), status))
  {
    DeliverCharacterization(NewSingleRelease(tag, n).value, cbs);
  }
}
