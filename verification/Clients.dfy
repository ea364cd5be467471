/** The flintlock and battery clients' waiters: what an RPC's outcome means to each predicate,
    and what the waits built on them can conclude. */
module Clients {
  import opened Wrappers
  import opened Waiter

  datatype Code = NotFound | ResourceExhausted | Unavailable | OtherCode

  /** How one RPC ends. */
  datatype Reply<+T> = Answer(value: T) | RpcError(code: Code) | Interrupted

  datatype VmState = PENDING | CREATED | FAILED | DELETING

  datatype MicroVm = MicroVm(uid: string, state: VmState)

  const INTERVAL := 5.0

  function Thrown<T>(r: Reply<T>): Exn
    requires !r.Answer?
  {
    if r.Interrupted? then Interrupt else OtherError("rpc")
  }

  /** `exists` and `pool_exists`: NOT_FOUND is an answer, any other error is raised. */
  function Exists<T>(r: Reply<T>): Result<bool> {
    match r
    case Answer(_) => Ok(true)
    case RpcError(NotFound) => Ok(false)
    case _ => Raised(Thrown(r))
  }

  function GonePoll<T>(r: Reply<T>): Poll<()> {
    match Exists(r)
    case Ok(there) => if there then Falsy else Truthy(())
    case Raised(e) => Throws(e)
  }

  function ReachedPoll(r: Reply<MicroVm>, target: VmState): Poll<MicroVm> {
    if !r.Answer? then Throws(Thrown(r))
    else if r.value.state == FAILED && target != FAILED then Throws(OtherError("entered FAILED state"))
    else if r.value.state == target then Truthy(r.value)
    else Falsy
  }

  function AvailablePoll(r: Reply<nat>, count: nat): Poll<nat> {
    if !r.Answer? then Throws(Thrown(r)) else if r.value >= count then Truthy(r.value) else Falsy
  }

  function ClaimedPoll(r: Reply<string>): Poll<string> {
    match r
    case Answer(lease) => Truthy(lease)
    case RpcError(ResourceExhausted) => Falsy
    case _ => Throws(Thrown(r))
  }

  /** Both `wait_deleted` methods. They return only on a real NOT_FOUND; an RPC that failed in
      any other way never counts as a deletion, nor does it end the wait: only a deletion, the
      deadline or an interrupt does. */
  method WaitDeleted<T>(clock: Clock, reply: nat -> Reply<T>, laps: nat -> Lap, timeout: real) returns (r: Waited<()>, polls: nat)
    requires Forward(laps)
    modifies clock
    ensures r.Got? ==> polls > 0 && reply(polls - 1) == RpcError(NotFound)
    ensures forall k: nat :: k + 1 < polls ==> reply(k) != RpcError(NotFound) && !reply(k).Interrupted?
    ensures r.TimedOut? ==> Begins(laps, INTERVAL, polls) >= timeout
    ensures r.TimedOut? ==> forall k: nat :: k < polls ==> reply(k) != RpcError(NotFound)
    ensures r.TimedOut? ==> (r.last == None <==> forall k: nat :: k < polls ==> reply(k).Answer?)
    ensures r.Aborted? ==> polls > 0 && reply(polls - 1).Interrupted?
    ensures polls <= PollLimit(timeout, INTERVAL)
  {
    var poll := (k: nat) => GonePoll(reply(k));
    r, polls := WaitUntil(clock, poll, laps, timeout, INTERVAL);
    if r.TimedOut? { NoErrorExact(poll, polls, r.last); }
    forall k: nat | k < polls && Tolerated(poll(k)) ensures reply(k) != RpcError(NotFound) && !reply(k).Interrupted? {}
  }

  /** `wait_state` returns only a VM observed in the target state. The error it raises for a
      FAILED VM is one of those the wait tolerates: it never ends the wait, which goes on until
      the VM is seen in the target state, the deadline passes or an interrupt comes. */
  method WaitState(clock: Clock, reply: nat -> Reply<MicroVm>, target: VmState, laps: nat -> Lap, timeout: real)
    returns (r: Waited<MicroVm>, polls: nat)
    requires Forward(laps)
    modifies clock
    ensures r.Got? ==> polls > 0 && reply(polls - 1) == Answer(r.value) && r.value.state == target
    ensures r.TimedOut? ==> Begins(laps, INTERVAL, polls) >= timeout
    ensures r.TimedOut? ==> forall k: nat :: k < polls && reply(k).Answer? ==> reply(k).value.state != target
    ensures r.TimedOut? ==> (r.last == None <==> forall k: nat :: k < polls ==> reply(k).Answer? && reply(k).value.state != FAILED)
    ensures r.Aborted? ==> polls > 0 && reply(polls - 1).Interrupted?
    ensures forall k: nat :: k + 1 < polls ==> !reply(k).Interrupted? && (reply(k).Answer? ==> reply(k).value.state != target)
    ensures (forall k: nat :: reply(k).Answer? && reply(k).value.state == FAILED) && target != FAILED ==>
              r.TimedOut? && (polls > 0 ==> r.last == Some(OtherError("entered FAILED state")))
    ensures polls <= PollLimit(timeout, INTERVAL)
  {
    var poll := (k: nat) => ReachedPoll(reply(k), target);
    r, polls := WaitUntil(clock, poll, laps, timeout, INTERVAL);
    if r.TimedOut? { NoErrorExact(poll, polls, r.last); }
    forall k: nat | k < polls && Tolerated(poll(k))
      ensures !reply(k).Interrupted? && (reply(k).Answer? ==> reply(k).value.state != target) {}
    if polls > 0 && (forall k: nat :: reply(k).Answer? && reply(k).value.state == FAILED) && target != FAILED {
      assert poll(polls - 1) == Throws(OtherError("entered FAILED state"));
    }
  }

  /** `wait_available` returns only a pool seen with enough VMs. */
  method WaitAvailable(clock: Clock, reply: nat -> Reply<nat>, count: nat, laps: nat -> Lap, timeout: real)
    returns (r: Waited<nat>, polls: nat)
    requires Forward(laps)
    modifies clock
    ensures r.Got? ==> polls > 0 && reply(polls - 1) == Answer(r.value) && r.value >= count
    ensures r.TimedOut? ==> Begins(laps, INTERVAL, polls) >= timeout
    ensures r.TimedOut? ==> forall k: nat :: k < polls && reply(k).Answer? ==> reply(k).value < count
    ensures r.TimedOut? ==> (r.last == None <==> forall k: nat :: k < polls ==> reply(k).Answer?)
    ensures r.Aborted? ==> polls > 0 && reply(polls - 1).Interrupted?
    ensures forall k: nat :: k + 1 < polls ==> !reply(k).Interrupted? && (reply(k).Answer? ==> reply(k).value < count)
  {
    var poll := (k: nat) => AvailablePoll(reply(k), count);
    r, polls := WaitUntil(clock, poll, laps, timeout, INTERVAL);
    if r.TimedOut? { NoErrorExact(poll, polls, r.last); }
    forall k: nat | k < polls && Tolerated(poll(k))
      ensures !reply(k).Interrupted? && (reply(k).Answer? ==> reply(k).value < count) {}
  }

  /** `wait_claimable` never asks again once a claim was granted: it returns the one lease it
      was given, and when it times out it was given none. */
  method WaitClaimable(clock: Clock, reply: nat -> Reply<string>, laps: nat -> Lap, timeout: real)
    returns (r: Waited<string>, polls: nat)
    requires Forward(laps)
    modifies clock
    ensures r.Got? ==> polls > 0 && reply(polls - 1) == Answer(r.value)
    ensures r.TimedOut? ==> Begins(laps, INTERVAL, polls) >= timeout
    ensures r.Aborted? ==> polls > 0 && reply(polls - 1).Interrupted?
    ensures forall k: nat :: k + 1 < polls ==> !reply(k).Interrupted?
    ensures r.TimedOut? ==> (r.last == None <==> forall k: nat :: k < polls ==> reply(k) == RpcError(ResourceExhausted))
    ensures forall k: nat :: k < polls && reply(k).Answer? ==> r.Got? && k == polls - 1
  {
    var poll := (k: nat) => ClaimedPoll(reply(k));
    r, polls := WaitUntil(clock, poll, laps, timeout, INTERVAL);
    if r.TimedOut? { NoErrorExact(poll, polls, r.last); }
    forall k: nat | k < polls && Tolerated(poll(k)) ensures !reply(k).Answer? && !reply(k).Interrupted? {}
  }
}
