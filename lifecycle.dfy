/**
 * The lifecycle of graph-service instances and their simulation loops, as a
 * sequential state machine over the process-wide globals: the id held by the
 * simulation mutex, the "a loop is running" flag, and each instance's
 * shutdown-requested and shutdown-complete flags (plus whether its loop task
 * is still alive). Interleavings of tasks are not modelled; a shutdown's wait
 * is modelled as polls between which the instance's own loop may or may not
 * get to run, as an oracle says.
 */
module Lifecycle {

  /** One graph-service instance: its 8-character simulation id and its flags. */
  datatype Instance = Instance(
    simulationId: string,
    shutdownRequested: bool,
    shutdownComplete: bool,
    loopAlive: bool)

  /**
   * The globals: `activeId` is the string held by the simulation mutex,
   * `running` the loop-running flag; instances are addressed by creation order.
   */
  datatype Registry = Registry(activeId: string, running: bool, instances: seq<Instance>)

  /** Before any instance: the mutex holds the empty string and no loop runs. */
  const Initial: Registry := Registry("", false, [])

  /** Polls of a shutdown and the sleep between two of them. */
  const ShutdownTimeoutMs: nat := 5000
  const PollIntervalMs: nat := 50
  const MaxPolls: nat := ShutdownTimeoutMs / PollIntervalMs

  /** What `get_simulation_diagnostics` reports when the mutex is held elsewhere. */
  const LockBusy: string := "Unable to acquire mutex"

  /**
   * `new`: the new id replaces whatever the mutex held and the running flag
   * ends up set whatever it was (last writer wins); the new instance starts
   * with both shutdown flags clear and its loop alive.
   */
  function Start(s: Registry, id: string): (r: Registry)
    ensures |r.instances| == |s.instances| + 1
  {
    Registry(id, true, s.instances + [Instance(id, false, false, true)])
  }

  /**
   * The loop's exit guard as written: a compare-and-swap of the running flag
   * from true to false, and only when it succeeds is the instance's
   * shutdown-complete flag set.
   */
  function Exit(s: Registry, h: nat): Registry
    requires h < |s.instances|
  {
    var inst := s.instances[h];
    if s.running then
      s.(running := false, instances := s.instances[h := inst.(shutdownComplete := true, loopAlive := false)])
    else
      s.(instances := s.instances[h := inst.(loopAlive := false)])
  }

  /**
   * The exit guard as evidently intended: the exiting loop always reports its
   * own completion, and clears the running flag only when it is the active
   * instance's loop.
   */
  function ExitCorrected(s: Registry, h: nat): Registry
    requires h < |s.instances|
  {
    var inst := s.instances[h];
    s.(running := if s.activeId == inst.simulationId then false else s.running,
       instances := s.instances[h := inst.(shutdownComplete := true, loopAlive := false)])
  }

  /** The check at the top of one loop iteration: exit when a shutdown was requested. */
  function LoopStep(s: Registry, h: nat, corrected: bool): (r: Registry)
    requires h < |s.instances|
    ensures |r.instances| == |s.instances| && r.activeId == s.activeId
  {
    var inst := s.instances[h];
    if !inst.loopAlive || !inst.shutdownRequested then s
    else if corrected then ExitCorrected(s, h)
    else Exit(s, h)
  }

  /**
   * The loops listed in `ids` run their top-of-loop check, one after the
   * other; an id that names no instance does nothing.
   */
  function RunLoops(s: Registry, ids: seq<nat>, corrected: bool): (r: Registry)
    ensures |r.instances| == |s.instances| && r.activeId == s.activeId
    decreases |ids|
  {
    if |ids| == 0 then s
    else RunLoops(if ids[0] < |s.instances| then LoopStep(s, ids[0], corrected) else s, ids[1..], corrected)
  }

  /**
   * The first half of `shutdown`, under the mutex: an instance that is not the
   * active one changes nothing; the active one gets its request flag set and
   * then its completion flag cleared.
   */
  function RequestShutdown(s: Registry, h: nat): (r: Registry)
    requires h < |s.instances|
    ensures |r.instances| == |s.instances|
  {
    var inst := s.instances[h];
    if s.activeId != inst.simulationId then s
    else s.(instances := s.instances[h := inst.(shutdownRequested := true, shutdownComplete := false)])
  }

  /** The poll condition of `shutdown`: no loop running and this instance's exit reported. */
  predicate Stopped(s: Registry, h: nat)
    requires h < |s.instances|
  {
    !s.running && s.instances[h].shutdownComplete
  }

  datatype ShutdownResult = Refused | StoppedAfter(polls: nat) | TimedOut

  /**
   * The polls `attempt .. MaxPolls - 1` of `shutdown`: stop as soon as the
   * poll condition holds; otherwise sleep, during which the live loops of all
   * instances listed in `sched(attempt)` run their top-of-loop check, in that
   * order. The schedule stands for the task scheduler's interleaving.
   */
  function Poll(s: Registry, h: nat, sched: nat -> seq<nat>, attempt: nat, corrected: bool): (r: (Registry, ShutdownResult))
    requires h < |s.instances|
    ensures |r.0.instances| == |s.instances|
    decreases MaxPolls - attempt
  {
    if attempt >= MaxPolls then (s, TimedOut)
    else if Stopped(s, h) then (s, StoppedAfter(attempt))
    else Poll(RunLoops(s, sched(attempt), corrected), h, sched, attempt + 1, corrected)
  }

  /** `shutdown` of instance `h`: refused unless `h` is active, else a request and the polls. */
  function ShutdownOf(s: Registry, h: nat, sched: nat -> seq<nat>, corrected: bool): (r: (Registry, ShutdownResult))
    requires h < |s.instances|
    ensures |r.0.instances| == |s.instances|
  {
    if s.activeId != s.instances[h].simulationId then (s, Refused)
    else Poll(RequestShutdown(s, h), h, sched, 0, corrected)
  }

  /** The fields `get_simulation_diagnostics` renders. */
  datatype Diagnostics = Diagnostics(
    instanceId: string,
    currentId: string,
    isActive: bool,
    running: bool,
    shutdownRequested: bool,
    hasGpu: bool)

  // ---------------------------------------------------------------------------
  // The globals as mutable state

  /** The process-wide globals, updated in place by the operations of the instances. */
  class SimulationRegistry {
    var activeId: string
    var running: bool
    var instances: seq<Instance>

    function State(): Registry
      reads this
    {
      Registry(activeId, running, instances)
    }

    constructor()
      ensures State() == Initial
    {
      activeId, running, instances := "", false, [];
    }

    /** `new`: register the instance, take over the active id and set the running flag. */
    method New(id: string) returns (h: nat)
      modifies this
      ensures h == |old(instances)|
      ensures State() == Start(old(State()), id)
    {
      instances := instances + [Instance(id, false, false, true)];
      h := |instances| - 1;
      activeId := id;
      if running {
        // compare_exchange(false, true) failed: reset and set again
        running := false;
        running := true;
      } else {
        running := true;
      }
    }

    /** One top-of-loop check of instance `h`'s loop; on a pending request the loop exits. */
    method LoopCheck(h: nat) returns (exited: bool)
      requires h < |instances| && instances[h].loopAlive
      modifies this
      ensures exited == old(instances[h].shutdownRequested)
      ensures State() == LoopStep(old(State()), h, false)
    {
      exited := instances[h].shutdownRequested;
      if exited {
        var inst := instances[h];
        if running {
          running := false;
          instances := instances[h := inst.(shutdownComplete := true, loopAlive := false)];
        } else {
          instances := instances[h := inst.(loopAlive := false)];
        }
      }
    }

    /** The live loops among `ids` run their check, in order. */
    method RunChecks(ids: seq<nat>)
      modifies this
      ensures State() == RunLoops(old(State()), ids, false)
    {
      var i := 0;
      while i < |ids|
        invariant 0 <= i <= |ids|
        invariant RunLoops(State(), ids[i..], false) == RunLoops(old(State()), ids, false)
        decreases |ids| - i
      {
        assert ids[i..][1..] == ids[i + 1..];
        if ids[i] < |instances| && instances[ids[i]].loopAlive {
          var _ := LoopCheck(ids[i]);
        }
        i := i + 1;
      }
    }

    /**
     * `shutdown` of instance `h`: refuse unless active; otherwise request,
     * then poll at most 100 times, 50 ms apart, for the loop to have stopped.
     */
    method Shutdown(h: nat, sched: nat -> seq<nat>) returns (result: ShutdownResult)
      requires h < |instances|
      modifies this
      ensures (State(), result) == ShutdownOf(old(State()), h, sched, false)
      ensures |instances| == |old(instances)|
      ensures result.StoppedAfter? ==> !running && instances[h].shutdownComplete && result.polls < MaxPolls
      ensures result.Refused? <==> old(activeId) != old(instances[h].simulationId)
    {
      if activeId != instances[h].simulationId {
        return Refused;
      }
      Request(h);
      result := AwaitStop(h, sched);
      PollSound(RequestShutdown(old(State()), h), h, sched, 0, false);
    }

    /** The request half of `shutdown`, for the active instance. */
    method Request(h: nat)
      requires h < |instances| && activeId == instances[h].simulationId
      modifies this
      ensures State() == RequestShutdown(old(State()), h)
    {
      var inst := instances[h];
      instances := instances[h := inst.(shutdownRequested := true)];
      instances := instances[h := instances[h].(shutdownComplete := false)];
    }

    /** The polling half of `shutdown`: at most 100 polls, 50 ms apart. */
    method AwaitStop(h: nat, sched: nat -> seq<nat>) returns (result: ShutdownResult)
      requires h < |instances|
      modifies this
      ensures (State(), result) == Poll(old(State()), h, sched, 0, false)
    {
      var attempt := 0;
      while attempt < MaxPolls
        invariant 0 <= attempt <= MaxPolls
        invariant h < |instances|
        invariant Poll(State(), h, sched, attempt, false) == Poll(old(State()), h, sched, 0, false)
        decreases MaxPolls - attempt
      {
        if !running && instances[h].shutdownComplete {
          return StoppedAfter(attempt);
        }
        RunChecks(sched(attempt));
        attempt := attempt + 1;
      }
      result := TimedOut;
    }

    /**
     * `get_simulation_diagnostics`: the current id comes from a try-lock of
     * the mutex (`lockFree` says whether it succeeded) and the accelerator
     * flag from the service at the time of the call; nothing is changed.
     */
    method GetDiagnostics(h: nat, lockFree: bool, gpuPresent: bool) returns (d: Diagnostics)
      requires h < |instances|
      ensures d.instanceId == instances[h].simulationId
      ensures lockFree ==> d.currentId == activeId && (d.isActive <==> activeId == instances[h].simulationId)
      ensures !lockFree ==> d.currentId == LockBusy && (d.isActive <==> instances[h].simulationId == LockBusy)
      ensures !lockFree && |instances[h].simulationId| == 8 ==> !d.isActive
      ensures d.running == running && d.shutdownRequested == instances[h].shutdownRequested
      ensures d.hasGpu == gpuPresent
    {
      var currentId := if lockFree then activeId else LockBusy;
      var inst := instances[h];
      d := Diagnostics(inst.simulationId, currentId, currentId == inst.simulationId,
                       running, inst.shutdownRequested, gpuPresent);
    }
  }

  // ---------------------------------------------------------------------------
  // Properties

  /** After `new`, the new instance is the active one and a loop is flagged running, whatever came before. */
  lemma StartWins(s: Registry, id: string)
    ensures var r := Start(s, id);
            r.activeId == id && r.running &&
            |r.instances| == |s.instances| + 1 && r.instances[..|s.instances|] == s.instances &&
            r.instances[|s.instances|] == Instance(id, false, false, true)
  {
  }

  /** A shutdown from an instance that is not the active one is a no-op. */
  lemma ShutdownOfInactiveIsNoOp(s: Registry, h: nat, sched: nat -> seq<nat>, corrected: bool)
    requires h < |s.instances| && s.activeId != s.instances[h].simulationId
    ensures ShutdownOf(s, h, sched, corrected) == (s, Refused)
  {
  }

  /** A successful poll sequence ends in the poll condition, within the poll budget, and keeps the instances. */
  lemma {:induction false} PollSound(s: Registry, h: nat, sched: nat -> seq<nat>, attempt: nat, corrected: bool)
    requires h < |s.instances|
    ensures var (r, res) := Poll(s, h, sched, attempt, corrected);
            |r.instances| == |s.instances| && r.activeId == s.activeId &&
            (res.StoppedAfter? ==> attempt <= res.polls < MaxPolls && Stopped(r, h)) &&
            (res.TimedOut? || res.StoppedAfter?)
    decreases MaxPolls - attempt
  {
    if attempt < MaxPolls && !Stopped(s, h) {
      PollSound(RunLoops(s, sched(attempt), corrected), h, sched, attempt + 1, corrected);
    }
  }

  /** The longest a shutdown waits: 100 sleeps of 50 ms, the 5-second timeout. */
  lemma ShutdownWaitBounded(s: Registry, h: nat, sched: nat -> seq<nat>, corrected: bool)
    requires h < |s.instances|
    ensures var res := ShutdownOf(s, h, sched, corrected).1;
            res.StoppedAfter? ==> res.polls * PollIntervalMs < ShutdownTimeoutMs
    ensures MaxPolls * PollIntervalMs == ShutdownTimeoutMs
  {
    if s.activeId == s.instances[h].simulationId {
      PollSound(RequestShutdown(s, h), h, sched, 0, corrected);
    }
  }

  /** When no loop gets to run during the remaining polls, they all fail alike. */
  lemma {:induction false} PollIdle(s: Registry, h: nat, sched: nat -> seq<nat>, attempt: nat, corrected: bool)
    requires h < |s.instances| && !Stopped(s, h)
    requires forall k :: attempt <= k < MaxPolls ==> sched(k) == []
    ensures Poll(s, h, sched, attempt, corrected) == (s, TimedOut)
    decreases MaxPolls - attempt
  {
    if attempt < MaxPolls {
      PollIdle(s, h, sched, attempt + 1, corrected);
    }
  }

  /** Instance `h` is untouched by the checks of other loops, and by its own once its loop is gone. */
  lemma {:induction false} RunLoopsKeeps(s: Registry, h: nat, ids: seq<nat>, corrected: bool)
    requires h < |s.instances| && (h !in ids || !s.instances[h].loopAlive)
    ensures RunLoops(s, ids, corrected).instances[h] == s.instances[h]
    decreases |ids|
  {
    if |ids| > 0 {
      var t := if ids[0] < |s.instances| then LoopStep(s, ids[0], corrected) else s;
      assert t.instances[h] == s.instances[h];
      RunLoopsKeeps(t, h, ids[1..], corrected);
    }
  }

  /**
   * The state of a shutdown of `h` that the corrected exit brings to a
   * successful poll: `h` is active and either its loop is about to see the
   * request, or the poll condition already holds.
   */
  predicate Stopping(s: Registry, h: nat)
    requires h < |s.instances|
  {
    s.activeId == s.instances[h].simulationId &&
    ((s.instances[h].loopAlive && s.instances[h].shutdownRequested) || Stopped(s, h))
  }

  /**
   * With the corrected exit, whatever other loops do in between, the
   * shutdown of `h` stays on course, and once `h`'s loop has run its check
   * the poll condition holds, and keeps holding.
   */
  lemma {:induction false} RunLoopsCorrected(s: Registry, h: nat, ids: seq<nat>)
    requires h < |s.instances| && Stopping(s, h)
    ensures Stopping(RunLoops(s, ids, true), h)
    ensures (h in ids || Stopped(s, h)) ==> Stopped(RunLoops(s, ids, true), h)
    decreases |ids|
  {
    if |ids| > 0 {
      var t := if ids[0] < |s.instances| then LoopStep(s, ids[0], true) else s;
      assert Stopping(t, h);
      assert ids[0] == h ==> Stopped(t, h);
      RunLoopsCorrected(t, h, ids[1..]);

    }
  }

  /**
   * The loop exits at its first scheduled check after the request; with the
   * corrected exit the following poll then succeeds, whatever the running
   * flag and whatever the other loops do.
   */
  lemma {:induction false} PollCompletesCorrected(s: Registry, h: nat, sched: nat -> seq<nat>, attempt: nat, k: nat)
    requires h < |s.instances|
    requires s.instances[h].loopAlive && s.instances[h].shutdownRequested && !s.instances[h].shutdownComplete
    requires s.activeId == s.instances[h].simulationId
    requires attempt <= k && k + 1 < MaxPolls && h in sched(k)
    requires forall j :: attempt <= j < k ==> h !in sched(j)
    ensures Poll(s, h, sched, attempt, true).1 == StoppedAfter(k + 1)
    decreases k - attempt
  {
    var t := RunLoops(s, sched(attempt), true);
    if attempt < k {
      RunLoopsKeeps(s, h, sched(attempt), true);
      PollCompletesCorrected(t, h, sched, attempt + 1, k);
    } else {
      RunLoopsCorrected(s, h, sched(k));
      assert Poll(s, h, sched, attempt, true) == Poll(t, h, sched, k + 1, true);
    }
  }

  /**
   * With the corrected exit, the shutdown of the active instance whose loop
   * is alive succeeds one poll after that loop first gets to run, whatever
   * the other instances' loops do meanwhile.
   */
  lemma CorrectedShutdownCompletes(s: Registry, h: nat, sched: nat -> seq<nat>, k: nat)
    requires h < |s.instances|
    requires s.activeId == s.instances[h].simulationId && s.instances[h].loopAlive
    requires k + 1 < MaxPolls && h in sched(k) && forall j :: 0 <= j < k ==> h !in sched(j)
    ensures ShutdownOf(s, h, sched, true).1 == StoppedAfter(k + 1)
  {
    var t := RequestShutdown(s, h);
    assert !Stopped(t, h);
    PollCompletesCorrected(t, h, sched, 0, k);
  }

  /** No instance other than `h` has a live loop with a pending request. */
  predicate OthersQuiet(s: Registry, h: nat) {
    forall j :: 0 <= j < |s.instances| && j != h ==>
      !(s.instances[j].loopAlive && s.instances[j].shutdownRequested)
  }

  /** When the other loops have nothing to act on, only `h`'s own check matters. */
  lemma {:induction false} RunLoopsQuiet(s: Registry, h: nat, ids: seq<nat>)
    requires h < |s.instances| && OthersQuiet(s, h)
    ensures RunLoops(s, ids, false) == if h in ids then LoopStep(s, h, false) else s
    decreases |ids|
  {
    if |ids| > 0 {
      var t := if ids[0] < |s.instances| then LoopStep(s, ids[0], false) else s;
      assert ids == [ids[0]] + ids[1..];
      if ids[0] == h {
        assert OthersQuiet(t, h);
        assert LoopStep(t, h, false) == t;
        RunLoopsQuiet(t, h, ids[1..]);
      } else {
        assert t == s;
        RunLoopsQuiet(s, h, ids[1..]);
      }
    }
  }

  /**
   * As written, the same holds while the running flag is still set and no
   * other loop is about to exit: the exit guard's compare-and-swap succeeds
   * and reports completion.
   */
  lemma {:induction false} PollCompletesWhileRunning(s: Registry, h: nat, sched: nat -> seq<nat>, attempt: nat, k: nat)
    requires h < |s.instances| && s.running && OthersQuiet(s, h)
    requires s.instances[h].loopAlive && s.instances[h].shutdownRequested
    requires attempt <= k && k + 1 < MaxPolls && h in sched(k)
    requires forall j :: attempt <= j < k ==> h !in sched(j)
    ensures Poll(s, h, sched, attempt, false).1 == StoppedAfter(k + 1)
    decreases k - attempt
  {
    RunLoopsQuiet(s, h, sched(attempt));
    if attempt < k {
      PollCompletesWhileRunning(s, h, sched, attempt + 1, k);
    } else {
      var t := Exit(s, h);
      assert Stopped(t, h);
      assert Poll(s, h, sched, attempt, false) == Poll(t, h, sched, k + 1, false);
    }
  }

  /**
   * As written, the active instance's shutdown succeeds one poll after its
   * loop first runs, provided the running flag is set and no other instance
   * has a live loop with a pending request (see `LateExitStrandsShutdown`
   * for what goes wrong otherwise).
   */
  lemma ShutdownCompletesWhileRunning(s: Registry, h: nat, sched: nat -> seq<nat>, k: nat)
    requires h < |s.instances| && s.running && OthersQuiet(s, h)
    requires s.activeId == s.instances[h].simulationId && s.instances[h].loopAlive
    requires k + 1 < MaxPolls && h in sched(k) && forall j :: 0 <= j < k ==> h !in sched(j)
    ensures ShutdownOf(s, h, sched, false).1 == StoppedAfter(k + 1)
  {
    var t := RequestShutdown(s, h);
    assert OthersQuiet(t, h);
    PollCompletesWhileRunning(t, h, sched, 0, k);
  }

  /**
   * The as-written exit strands a later shutdown. Instance "aaaaaaaa" is
   * asked to shut down but its loop does not get to run during the wait;
   * instance "bbbbbbbb" then starts and is asked to shut down. During the
   * first sleep both loops run their check, the first one first: it exits
   * and clears the running flag. The second loop exits too, but its
   * compare-and-swap finds the flag already clear, completion is never
   * reported, and the shutdown waits out the full timeout although its loop
   * has stopped. The corrected exit lets the same shutdown succeed.
   */
  lemma LateExitStrandsShutdown()
    ensures var s1 := Start(Initial, "aaaaaaaa");
            var s2 := Poll(RequestShutdown(s1, 0), 0, (k: nat) => [], 0, false).0;
            var s3 := Start(s2, "bbbbbbbb");
            var bothLoops := (k: nat) => [0, 1];
            ShutdownOf(s3, 1, bothLoops, false).1 == TimedOut &&
            !ShutdownOf(s3, 1, bothLoops, false).0.instances[1].loopAlive &&
            ShutdownOf(s3, 1, bothLoops, true).1 == StoppedAfter(1)
  {
    var s1 := Start(Initial, "aaaaaaaa");
    var r1 := RequestShutdown(s1, 0);
    assert !Stopped(r1, 0);
    PollIdle(r1, 0, (k: nat) => [], 0, false);
    var s2 := Poll(r1, 0, (k: nat) => [], 0, false).0;
    assert s2 == r1;
    var s3 := Start(s2, "bbbbbbbb");
    var bothLoops := (k: nat) => [0, 1];
    var r2 := RequestShutdown(s3, 1);
    assert !Stopped(r2, 1);
    var a := LoopStep(r2, 0, false);
    assert !a.running;
    var b := LoopStep(a, 1, false);
    assert RunLoops(r2, [0, 1], false) == b by {
      assert [0, 1][1..] == [1];
      assert [1][1..] == [];
    }
    assert !b.instances[1].loopAlive && !b.instances[1].shutdownComplete;
    StrandedStaysStranded(b, 1, bothLoops, 1);
    assert Poll(r2, 1, bothLoops, 0, false) == Poll(b, 1, bothLoops, 1, false);
    assert 1 in bothLoops(0);
    CorrectedShutdownCompletes(s3, 1, bothLoops, 0);
  }

  /** Once a loop has exited without reporting completion, no later poll can succeed. */
  lemma {:induction false} StrandedStaysStranded(s: Registry, h: nat, sched: nat -> seq<nat>, attempt: nat)
    requires h < |s.instances| && !s.instances[h].loopAlive && !s.instances[h].shutdownComplete
    ensures Poll(s, h, sched, attempt, false).1 == TimedOut
    ensures Poll(s, h, sched, attempt, false).0.instances[h] == s.instances[h]
    decreases MaxPolls - attempt
  {
    if attempt < MaxPolls {
      RunLoopsKeeps(s, h, sched(attempt), false);
      StrandedStaysStranded(RunLoops(s, sched(attempt), false), h, sched, attempt + 1);
    }
  }
}
