/** The test module's background task: a lifecycle component with a
    running flag and an execution counter that the scheduled task bumps
    only while running. */
module TestBackgroundTaskService {
  import opened Common

  /** AtomicInteger.incrementAndGet: 32-bit two's complement, so the
      largest value wraps round to the smallest. */
  function IncrementAndGet(x: int): (r: int)
    requires IsInt32(x)
    ensures IsInt32(r)
    ensures (r - x - 1) % 0x1_0000_0000 == 0
  {
    if x == IntMax then IntMin else x + 1
  }

  /** The counter goes up by exactly one on every increment except the one
      from the largest int, where it wraps. */
  lemma IncrementGrowsExceptAtMax(x: int)
    requires IsInt32(x)
    ensures x < IntMax <==> IncrementAndGet(x) == x + 1
    ensures x < IntMax <==> IncrementAndGet(x) > x
  {
  }

  class BackgroundTaskService {
    var executionCount: int
    var running: bool

    ghost predicate Valid()
      reads this
    {
      IsInt32(executionCount)
    }

    /** A new instance is stopped and has run nothing. */
    constructor ()
      ensures Valid()
      ensures !running && executionCount == 0
    {
      executionCount := 0;
      running := false;
    }

    /** scheduledTask: one increment while running, nothing while stopped. */
    method ScheduledTask()
      requires Valid()
      modifies this
      ensures Valid()
      ensures running == old(running)
      ensures old(running) ==> executionCount == IncrementAndGet(old(executionCount))
      ensures !old(running) ==> executionCount == old(executionCount)
      ensures old(executionCount) < IntMax ==> executionCount >= old(executionCount)
    {
      if running {
        executionCount := IncrementAndGet(executionCount);
      }
    }

    /** getExecutionCount: the counter's current value, always a Java int. */
    function GetExecutionCount(): (c: int)
      requires Valid()
      reads this
      ensures IsInt32(c)
    {
      executionCount
    }

    method Start()
      requires Valid()
      modifies this
      ensures Valid()
      ensures running && executionCount == old(executionCount)
    {
      running := true;
    }

    method Stop()
      requires Valid()
      modifies this
      ensures Valid()
      ensures !running && executionCount == old(executionCount)
    {
      running := false;
    }

    /** isRunning: the flag the last start or stop set. */
    function IsRunning(): (r: bool)
      reads this
      ensures r == running
    {
      running
    }

    /** isPauseable: always true. */
    function IsPauseable(): (r: bool)
      ensures r
    {
      true
    }
  }

  /** A lifecycle event of the component: a start, a stop or one scheduled
      tick. */
  datatype Event = StartEvent | StopEvent | Tick

  /** The state after replaying `events` from the state (`running`,
      `count`): the flag the last start or stop set, and the count raised
      by each tick seen while running, wrapping at 2^31. */
  function Replay(running: bool, count: int, events: seq<Event>): (r: (bool, int))
    requires IsInt32(count)
    ensures IsInt32(r.1)
    decreases |events|
  {
    if events == [] then (running, count)
    else
      match events[0]
      case StartEvent => Replay(true, count, events[1..])
      case StopEvent => Replay(false, count, events[1..])
      case Tick => Replay(running, if running then IncrementAndGet(count) else count, events[1..])
  }

  /** Ticks while running: the number of increments a replay performs. */
  function TicksWhileRunning(running: bool, events: seq<Event>): (n: nat)
    ensures n <= |events|
    decreases |events|
  {
    if events == [] then 0
    else
      match events[0]
      case StartEvent => TicksWhileRunning(true, events[1..])
      case StopEvent => TicksWhileRunning(false, events[1..])
      case Tick => (if running then 1 else 0) + TicksWhileRunning(running, events[1..])
  }

  /** Below the wrap-around the counter never decreases, and it ends up
      increased by exactly the number of ticks that found the task running;
      isRunning reports the last start or stop. */
  lemma {:induction false} ReplayCountsRunningTicks(running: bool, count: int, events: seq<Event>)
    requires IsInt32(count) && count + |events| <= IntMax
    ensures Replay(running, count, events).1 == count + TicksWhileRunning(running, events)
    ensures Replay(running, count, events).1 >= count
    decreases |events|
  {
    if events != [] {
      match events[0]
      case StartEvent => ReplayCountsRunningTicks(true, count, events[1..]);
      case StopEvent => ReplayCountsRunningTicks(false, count, events[1..]);
      case Tick => ReplayCountsRunningTicks(running, if running then count + 1 else count, events[1..]);
    }
  }

  /** Replaying two stretches of events one after the other is replaying
      them together; with a Start or Stop last, isRunning reports it. */
  lemma {:induction false} ReplayConcatenates(running: bool, count: int, a: seq<Event>, b: seq<Event>)
    requires IsInt32(count)
    ensures Replay(running, count, a + b)
            == Replay(Replay(running, count, a).0, Replay(running, count, a).1, b)
    ensures Replay(running, count, a + [StartEvent]).0
    ensures !Replay(running, count, a + [StopEvent]).0
    decreases |a|
  {
    if a == [] {
      assert a + b == b;
      assert a + [StartEvent] == [StartEvent];
      assert a + [StopEvent] == [StopEvent];
    } else {
      assert (a + b)[1..] == a[1..] + b;
      assert (a + [StartEvent])[1..] == a[1..] + [StartEvent];
      assert (a + [StopEvent])[1..] == a[1..] + [StopEvent];
      var next := match a[0]
        case StartEvent => true
        case StopEvent => false
        case Tick => running;
      var nextCount := if a[0] == Tick && running then IncrementAndGet(count) else count;
      ReplayConcatenates(next, nextCount, a[1..], b);
    }
  }

  /** The container driving the component: Spring's lifecycle calls and
      scheduler ticks, in the order `events` lists them. The object ends in
      the state Replay predicts, which ties the lemmas above to the class. */
  method Drive(s: BackgroundTaskService, events: seq<Event>)
    requires s.Valid()
    modifies s
    ensures s.Valid()
    ensures (s.running, s.executionCount) == Replay(old(s.running), old(s.executionCount), events)
  {
    var i := 0;
    while i < |events|
      invariant 0 <= i <= |events|
      invariant s.Valid()
      invariant Replay(old(s.running), old(s.executionCount), events)
                == Replay(s.running, s.executionCount, events[i..])
    {
      assert events[i..] == [events[i]] + events[i + 1..];
      match events[i] {
        case StartEvent => s.Start();
        case StopEvent => s.Stop();
        case Tick => s.ScheduledTask();
      }
      i := i + 1;
    }
  }

  /** What a caller observes through the getters over one start, tick and
      stop: isRunning is true from the start until the stop, and only the
      tick while running moves the count, by one wrapping increment. */
  method ObserveLifecycle(s: BackgroundTaskService)
    returns (runningAfterStart: bool, runningAfterTick: bool, runningAfterStop: bool,
             countAfterStart: int, countAfterTick: int, countAfterStop: int)
    requires s.Valid()
    modifies s
    ensures runningAfterStart && runningAfterTick && !runningAfterStop
    ensures countAfterStart == old(s.executionCount)
    ensures countAfterTick == IncrementAndGet(countAfterStart)
    ensures countAfterStop == countAfterTick
  {
    s.Start();
    runningAfterStart := s.IsRunning();
    countAfterStart := s.GetExecutionCount();
    s.ScheduledTask();
    runningAfterTick := s.IsRunning();
    countAfterTick := s.GetExecutionCount();
    s.Stop();
    runningAfterStop := s.IsRunning();
    countAfterStop := s.GetExecutionCount();
  }
}
