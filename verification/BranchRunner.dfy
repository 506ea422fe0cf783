/** A branch as an object: crates/bedrock-lab/src/branch.rs. */
module BranchRunner {
  import opened Scheduler
  import opened Options

  class Branch {
    var currentTime: nat
    var pendingInputIo: Option<Action>
    var inputIoExhausted: bool
    var inputSource: Option<seq<Action>>
    var lastStopAt: Option<nat>        // a cache of the VM's stop
    var queued: seq<Queued>            // what the VM's queue accepted, and when
    var vmStop: nat                    // the stop the VM has
    var ran: seq<nat>                  // the stop the VM had in each of its runs

    ghost function S(): Sched
      reads this
    {
      Sched(currentTime, pendingInputIo, inputIoExhausted, inputSource, queued)
    }

    ghost predicate CacheOk()
      reads this
    {
      lastStopAt.Some? ==> vmStop == lastStopAt.value
    }

    /** Whatever stop the VM was left with. */
    constructor (s: Sched, inherited: nat)
      ensures S() == s && CacheOk() && ran == []
    {
      vmStop, ran := inherited, [];
      currentTime, pendingInputIo, inputIoExhausted, inputSource, queued := s.now, s.pending, s.exhausted, s.source,
        s.queued;
      lastStopAt := None;
    }

    /** The source's next I/O action; the flag is set when there is none. */
    method PullNext()
      modifies this`pendingInputIo, this`inputIoExhausted, this`inputSource
      requires pendingInputIo.None? && inputSource.Some?
      ensures S() == Pulled(old(S()))
    {
      if inputSource.value == [] {
        inputIoExhausted := true;
      } else {
        pendingInputIo := Some(inputSource.value[0]);
        inputSource := Some(inputSource.value[1..]);
      }
    }

    /** `reply` is what the queue says if it is asked. The result is the time to stop at, or none if the
        action was refused. */
    method PrepareNextIoInput(target: nat, reply: Reply) returns (stop: Option<nat>)
      modifies this`pendingInputIo, this`inputIoExhausted, this`inputSource, this`queued
      ensures S() == Prepare(old(S()), target, reply).s
      ensures stop == match Prepare(old(S()), target, reply) { case Prepared(_, t) => Some(t) case Failed(_) => None }
    {
      if inputIoExhausted { return Some(target); }
      if pendingInputIo.None? {
        if inputSource.None? { return Some(target); }
        PullNext();
        if pendingInputIo.None? { return Some(target); }
      }
      var input := pendingInputIo.value;
      if input.at > target { return Some(target); }
      if input.at > currentTime { return Some(input.at); }
      pendingInputIo := None;
      match reply {
        case Accepted => queued := queued + [Queued(input, currentTime)];
        case Busy =>
          pendingInputIo := Some(input);
          return Some(target);
        case Refused => return None;
      }
      if inputSource.None? { return Some(target); }
      PullNext();
      if pendingInputIo.None? { return Some(target); }
      return Some(Min(pendingInputIo.value.at, target));
    }

    /** The VM is only told when the stop changes; it has the right one either way. */
    method SetStopAt(stop: nat)
      requires CacheOk()
      modifies this`lastStopAt, this`vmStop
      ensures CacheOk() && vmStop == stop
    {
      if lastStopAt == Some(stop) { return; }
      vmStop := stop;
      lastStopAt := Some(stop);
    }

    /** Run to `target`, with `turns` the answers of the VM; `StillRunning` if they end first. In each
        pass the VM has exactly the stop that was prepared for it. */
    method RunTo(target: nat, turns: seq<Turn>) returns (outcome: Outcome)
      requires CacheOk()
      modifies this
      ensures CacheOk() && (S(), outcome) == RunUntil(old(S()), target, turns)
      ensures ran == old(ran) + if target <= old(currentTime) then [] else Stops(old(S()), target, turns)
    {
      if target < currentTime { return TargetInPast; }
      if target == currentTime { return ReachedTime; }
      var i := 0;
      while i < |turns|
        invariant 0 <= i <= |turns|
        invariant CacheOk() && Loop(S(), target, turns[i..]) == Loop(old(S()), target, turns)
        invariant ran + Stops(S(), target, turns[i..]) == old(ran) + Stops(old(S()), target, turns)
      {
        ghost var s := S();
        var turn := turns[i];
        assert turns[i..][0] == turn && turns[i..][1..] == turns[i + 1..];
        var stop := PrepareNextIoInput(target, turn.reply);
        if stop.None? { return QueueError; }
        SetStopAt(stop.value);
        ghost var before := ran;
        ran := ran + [vmStop];
        currentTime := turn.exit.at;
        assert GoesOn(turn.exit, target) ==>
          before + Stops(s, target, turns[i..]) == ran + Stops(S(), target, turns[i + 1..]) by {
          StopsNext(before, stop.value, Stops(S(), target, turns[i + 1..]));
        }
        match turn.exit.kind {
          case StopTscReached => if currentTime >= target { return ReachedTime; }
          case Resumed =>
          case Left => return Yielded;
        }
        i := i + 1;
      }
      outcome := StillRunning;
    }
  }

  lemma StopsNext(before: seq<nat>, stop: nat, rest: seq<nat>)
    ensures before + ([stop] + rest) == before + [stop] + rest
  {}
}
