/** The telecom test app's single registered ConnectionService. Tests install
    their own service in a process-wide slot; every call the telecom framework
    makes is forwarded to that service, or to a mock fallback when the slot is
    empty. Calls the other way go to the instance the framework created.

    The two static fields become a `Registry` value, the lock around each
    operation becomes the atomicity of a function, and the service objects are
    values of a type parameter `S`. */
module ConnectionService {
  import opened Wrappers

  /** `testService`: the service installed by the running test (null when none);
      `telecomService`: the last instance the framework constructed. */
  datatype Registry<S> = Registry(testService: Option<S>, telecomService: Option<S>)

  /** Before any instance exists and before any test installs a service. */
  function Initial<S>(): (r: Registry<S>)
    ensures r.testService.None? && r.telecomService.None?
  {
    Registry(None, None)
  }

  /** The constructor records the new instance as the one registered with
      telecom; the test slot is untouched. */
  function Construct<S>(r: Registry<S>, instance: S): (r': Registry<S>)
    ensures r'.telecomService == Some(instance)
    ensures r'.testService == r.testService
  {
    r.(telecomService := Some(instance))
  }

  const SetUpFailure: string := "Mock ConnectionService exists.  Failed to call tearDown()."

  /** `setUp`: refuses, leaving everything as it was, while a service is
      installed; otherwise stores the given service (which may be null). The
      phone account handle argument is unused and left out. */
  function SetUp<S>(r: Registry<S>, service: Option<S>): (res: Result<Registry<S>>)
    ensures r.testService.Some? <==> res == Failure(SetUpFailure)
    ensures r.testService.None? ==> res == Success(r.(testService := service))
  {
    if r.testService.Some? then Failure(SetUpFailure)
    else Success(r.(testService := service))
  }

  /** `tearDown`: empties the slot unconditionally. */
  function TearDown<S>(r: Registry<S>): (r': Registry<S>)
    ensures r'.testService.None?
    ensures r'.telecomService == r.telecomService
  {
    r.(testService := None)
  }

  lemma TearDownIdempotent<S>(r: Registry<S>)
    ensures TearDown(TearDown(r)) == TearDown(r)
  {
  }

  /** After `tearDown`, any `setUp` succeeds and installs exactly its argument. */
  lemma SetUpAfterTearDown<S>(r: Registry<S>, service: Option<S>)
    ensures SetUp(TearDown(r), service).Success?
    ensures SetUp(TearDown(r), service).value.testService == service
  {
  }

  // ---------------------------------------------------------------------------
  // Forwarding from the framework to the test

  /** The four ConnectionService callbacks the app overrides; their arguments
      (phone account handles, requests, connections) are opaque identifiers. */
  datatype Callback =
    | CreateOutgoingConnection(account: nat, request: nat)
    | CreateIncomingConnection(account: nat, request: nat)
    | Conference(first: nat, second: nat)
    | RemoteExistingConnectionAdded(connection: nat)

  datatype Target<S> = TestService(service: S) | MockFallback

  /** The callback, unchanged, and the one service that receives it. */
  datatype Forward<S> = Forward(target: Target<S>, callback: Callback)

  function Dispatch<S>(r: Registry<S>, callback: Callback): (f: Forward<S>)
    ensures f.callback == callback
    ensures f.target.MockFallback? <==> r.testService.None?
    ensures f.target.TestService? ==> r.testService == Some(f.target.service)
  {
    match r.testService
    case Some(s) => Forward(TestService(s), callback)
    case None => Forward(MockFallback, callback)
  }

  /** Forwarding depends on the slot alone, not on which instance telecom holds. */
  lemma DispatchIgnoresTelecomInstance<S>(r: Registry<S>, instance: Option<S>, callback: Callback)
    ensures Dispatch(r.(telecomService := instance), callback) == Dispatch(r, callback)
  {
  }

  // ---------------------------------------------------------------------------
  // Forwarding from the test to the framework

  datatype Outbound =
    | AddConference(conference: nat)
    | CreateRemoteOutgoingConnection(account: nat, request: nat)
    | CreateRemoteIncomingConnection(account: nat, request: nat)

  datatype Delivery<S> = Delivery(instance: S, request: Outbound)

  /** The outbound helpers always use the registered telecom instance; before
      any instance was constructed the static field is null and the call raises. */
  function SendToTelecom<S>(r: Registry<S>, request: Outbound): (res: Result<Delivery<S>>)
    ensures res.Success? <==> r.telecomService.Some?
    ensures res.Success? ==> res.value == Delivery(r.telecomService.value, request)
  {
    match r.telecomService
    case Some(instance) => Success(Delivery(instance, request))
    case None => Failure("NullPointerException")
  }

  lemma SendToTelecomIgnoresSlot<S>(r: Registry<S>, installed: Option<S>, request: Outbound)
    ensures SendToTelecom(r.(testService := installed), request) == SendToTelecom(r, request)
  {
  }

  // ---------------------------------------------------------------------------
  // Histories

  /** The operations that change the registry. A refused `setUp` raises to its
      caller and changes nothing. */
  datatype Op<S> = SetUpOp(service: Option<S>) | TearDownOp | ConstructOp(instance: S)

  function Step<S>(r: Registry<S>, op: Op<S>): Registry<S> {
    match op
    case SetUpOp(service) => (match SetUp(r, service) case Success(r') => r' case Failure(_) => r)
    case TearDownOp => TearDown(r)
    case ConstructOp(instance) => Construct(r, instance)
  }

  function Run<S>(r: Registry<S>, ops: seq<Op<S>>): Registry<S>
    decreases |ops|
  {
    if |ops| == 0 then r else Step(Run(r, ops[..|ops| - 1]), ops[|ops| - 1])
  }

  /** The operations after the last `tearDown` (all of them if there is none). */
  function SinceLastTearDown<S>(ops: seq<Op<S>>): seq<Op<S>>
    decreases |ops|
  {
    if |ops| == 0 then []
    else if ops[|ops| - 1].TearDownOp? then []
    else SinceLastTearDown(ops[..|ops| - 1]) + [ops[|ops| - 1]]
  }

  /** The argument of the first `setUp` that passed a non-null service. */
  function FirstInstalled<S>(ops: seq<Op<S>>): Option<S>
    decreases |ops|
  {
    if |ops| == 0 then None
    else if ops[0].SetUpOp? && ops[0].service.Some? then ops[0].service
    else FirstInstalled(ops[1..])
  }

  /** The last instance constructed. */
  function LastConstructed<S>(ops: seq<Op<S>>): Option<S>
    decreases |ops|
  {
    if |ops| == 0 then None
    else if ops[|ops| - 1].ConstructOp? then Some(ops[|ops| - 1].instance)
    else LastConstructed(ops[..|ops| - 1])
  }

  lemma {:induction false} FirstInstalledAppend<S>(ops: seq<Op<S>>, op: Op<S>)
    ensures FirstInstalled(ops + [op]) ==
              if FirstInstalled(ops).Some? then FirstInstalled(ops)
              else if op.SetUpOp? then op.service
              else None
    decreases |ops|
  {
    if |ops| == 0 {
      assert ops + [op] == [op];
    } else {
      assert (ops + [op])[1..] == ops[1..] + [op];
      FirstInstalledAppend(ops[1..], op);
    }
  }

  /** From the initial registry, the slot holds the first non-null service
      installed since the last `tearDown`: later `setUp`s are all refused while
      it is occupied. The telecom instance is the last one constructed. */
  lemma {:induction false} RunCharacterization<S>(ops: seq<Op<S>>)
    ensures Run(Initial(), ops).testService == FirstInstalled(SinceLastTearDown(ops))
    ensures Run(Initial(), ops).telecomService == LastConstructed(ops)
    decreases |ops|
  {
    if |ops| > 0 {
      var prefix := ops[..|ops| - 1];
      var op := ops[|ops| - 1];
      RunCharacterization(prefix);
      if !op.TearDownOp? {
        FirstInstalledAppend(SinceLastTearDown(prefix), op);
      }
    }
  }
}
