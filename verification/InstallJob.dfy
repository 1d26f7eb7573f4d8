/** The OS-install job protocol: a collector agent polls a sidecar while a systemd job writes an exit-code file. */
module InstallJob {
  import opened Text

  type Time = real

  const POST_TIMEOUT: Time := 30.0
  const POLL_TIMEOUT: Time := 15.0
  const POLL_PAUSE: Time := 5.0
  const DEADLINE: Time := 1800.0
  const FILE_TTL: Time := 3600.0

  // ----- the host

  /**
   * The job's unit, queued without waiting for it to start, and its shell: apt-get, then
   * `echo $? > rc`, which creates the file before it has content.
   */
  datatype Shell = NotLaunched | Queued | Installing | Exited(rc: nat) | Created(rc: nat) | Written | Ended

  datatype RcFile = Absent | Empty(mtime: Time) | Content(rc: nat, mtime: Time)

  // ----- the sidecar, while it serves one status request

  datatype Reply = Running | Completed | Failed(returncode: int)

  datatype Handler = Waiting | NoCode | Replied(reply: Reply)

  // ----- the agent

  datatype Verdict = Installed | InstallFailed(returncode: int) | OtherError | TimedOut

  datatype Agent =
    | Posting
    | Asleep(until: Time)
    | Polling(start: Time, handler: Handler)
    | Done(verdict: Verdict)

  datatype State = State(
    now: Time,
    launched: Time,           // when the agent sent the install request
    loopStart: Time,          // when the request was answered and the polling loop began
    polls: nat,
    lastPoll: Time,           // start of the latest poll
    agent: Agent,
    shell: Shell,
    aptExit: Option<nat>,     // how apt-get really ended
    rcFile: RcFile,
    writtenRc: Option<(nat, Time)>) // history: what was written to the rc file, and when

  predicate UnitActive(s: State)
  {
    s.shell.Installing? || s.shell.Exited? || s.shell.Created? || s.shell.Written?
  }

  predicate Init(s: State)
  {
    && s.agent == Posting && s.launched == s.now && s.loopStart == s.now && s.polls == 0 && s.lastPoll == s.now
    && s.shell == NotLaunched && s.aptExit == None && s.rcFile == Absent && s.writtenRc == None
  }

  // ----- steps

  datatype Step =
    | Tick(d: Time)
    | Launch
    | UnitStarts
    | AptExits(rc: nat)
    | ShellFails(rc: nat)       // the log could not be opened: apt-get never ran
    | CreateRc
    | WriteRc
    | UnitEnds
    | UnitKilled
    | CollectGarbage
    | PostAnswered
    | PostFails
    | PollStarts
    | HandlerReadsRc
    | HandlerAsksUnit
    | AgentReadsReply
    | ConnectionLost
    | BadReply
    | DeadlinePassed

  /** Client timeouts bound how long a request can stay open. */
  predicate MayPass(s: State, d: Time)
  {
    && d > 0.0
    && (s.agent == Posting ==> s.now + d <= s.launched + POST_TIMEOUT)
    && (s.agent.Polling? ==> s.now + d <= s.agent.start + POLL_TIMEOUT)
  }

  predicate Enabled(s: State, step: Step)
  {
    match step
    case Tick(d) => MayPass(s, d)
    case Launch => s.agent == Posting && s.shell == NotLaunched
    case UnitStarts => s.shell == Queued
    case AptExits(rc) => s.shell == Installing
    case ShellFails(rc) => s.shell == Installing && rc != 0
    case CreateRc => s.shell.Exited?
    case WriteRc => s.shell.Created?
    case UnitEnds => s.shell == Written
    case UnitKilled => UnitActive(s) || s.shell == Queued
    case CollectGarbage => true
    case PostAnswered => s.agent == Posting && s.shell != NotLaunched
    case PostFails => s.agent == Posting
    case PollStarts => s.agent.Asleep? && s.now >= s.agent.until && s.now < s.loopStart + DEADLINE
    case HandlerReadsRc => s.agent.Polling? && s.agent.handler == Waiting
    case HandlerAsksUnit => s.agent.Polling? && s.agent.handler == NoCode
    case AgentReadsReply => s.agent.Polling? && s.agent.handler.Replied?
    case ConnectionLost => s.agent.Polling?
    case BadReply => s.agent.Polling?
    case DeadlinePassed => s.agent.Asleep? && s.now >= s.agent.until && s.now >= s.loopStart + DEADLINE
  }

  /** Files older than the time to live are swept; younger ones stay. */
  predicate Stale(s: State)
  {
    (s.rcFile.Empty? || s.rcFile.Content?) && s.now - s.rcFile.mtime > FILE_TTL
  }

  function ReadRc(s: State): Handler
  {
    if s.rcFile.Content? then Replied(if s.rcFile.rc == 0 then Completed else Failed(s.rcFile.rc)) else NoCode
  }

  function Sleep(s: State): Agent
  {
    Asleep(s.now + POLL_PAUSE)
  }

  function OnReply(s: State, reply: Reply): Agent
  {
    match reply
    case Running => Sleep(s)
    case Completed => Done(Installed)
    case Failed(rc) => Done(InstallFailed(rc))
  }

  function Apply(s: State, step: Step): State
    requires Enabled(s, step)
  {
    match step
    case Tick(d) => s.(now := s.now + d)
    case Launch => s.(shell := Queued)
    case UnitStarts => s.(shell := Installing)
    case AptExits(rc) => s.(shell := Exited(rc), aptExit := Some(rc))
    case ShellFails(rc) => s.(shell := Exited(rc))
    case CreateRc => s.(shell := Created(s.shell.rc), rcFile := Empty(s.now))
    case WriteRc => s.(shell := Written, rcFile := Content(s.shell.rc, s.now), writtenRc := Some((s.shell.rc, s.now)))
    case UnitEnds => s.(shell := Ended)
    case UnitKilled => s.(shell := Ended)
    case CollectGarbage => if Stale(s) then s.(rcFile := Absent) else s
    case PostAnswered => s.(agent := Asleep(s.now), loopStart := s.now)
    case PostFails => s.(agent := Done(OtherError))
    case PollStarts => s.(agent := Polling(s.now, Waiting), polls := s.polls + 1, lastPoll := s.now)
    case HandlerReadsRc => s.(agent := Polling(s.agent.start, ReadRc(s)))
    case HandlerAsksUnit => s.(agent := Polling(s.agent.start, Replied(if UnitActive(s) then Running else Failed(-1))))
    case AgentReadsReply => s.(agent := OnReply(s, s.agent.handler.reply))
    case ConnectionLost => s.(agent := Sleep(s))
    case BadReply => s.(agent := Done(OtherError))
    case DeadlinePassed => s.(agent := Done(TimedOut))
  }

  /** A run: a start state followed by the steps taken. */
  ghost predicate IsRun(states: seq<State>, steps: seq<Step>)
  {
    && |states| == |steps| + 1 && Init(states[0])
    && forall k :: 0 <= k < |steps| ==> Enabled(states[k], steps[k]) && states[k + 1] == Apply(states[k], steps[k])
  }

  // ----- the invariant

  predicate BeforeExit(s: State)
  {
    s.shell.NotLaunched? || s.shell.Queued? || s.shell.Installing?
  }

  /** What is in the rc file is what the shell wrote, and it is zero exactly if apt-get returned zero. */
  predicate FilesHonest(s: State)
  {
    && (BeforeExit(s) || s.shell.Exited? ==> s.writtenRc == None && s.rcFile == Absent)
    && (BeforeExit(s) ==> s.aptExit == None)
    && (s.shell.Created? ==> s.writtenRc == None && !s.rcFile.Content?)
    && (s.shell.Exited? || s.shell.Created? ==> (s.shell.rc == 0 <==> s.aptExit == Some(0)))
    && (s.writtenRc.Some? ==> (s.writtenRc.value.0 == 0 <==> s.aptExit == Some(0)))
    && (s.rcFile.Content? ==> s.writtenRc == Some((s.rcFile.rc, s.rcFile.mtime)))
    && (s.writtenRc.Some? ==> s.launched <= s.writtenRc.value.1 <= s.now)
    && (s.rcFile.Empty? ==> s.rcFile.mtime <= s.now)
    && (s.shell == Written ==> s.writtenRc.Some?)
    // until its time to live is over, a written file is there with its content
    && (s.writtenRc.Some? && s.now - s.writtenRc.value.1 <= FILE_TTL
        ==> s.rcFile == Content(s.writtenRc.value.0, s.writtenRc.value.1))
  }

  predicate AgentHonest(s: State)
  {
    && (s.agent.Polling? && s.agent.handler == Replied(Completed) ==> s.aptExit == Some(0))
    && (s.agent == Done(Installed) ==> s.aptExit == Some(0))
    && (s.agent.Polling? && s.agent.handler.Replied? && s.agent.handler.reply.Failed?
        && s.agent.handler.reply.returncode >= 0
        ==> s.writtenRc.Some? && s.writtenRc.value.0 == s.agent.handler.reply.returncode != 0)
    && (s.agent.Done? && s.agent.verdict.InstallFailed? && s.agent.verdict.returncode >= 0
        ==> s.writtenRc.Some? && s.writtenRc.value.0 == s.agent.verdict.returncode != 0)
  }

  function Pauses(n: nat): Time
  {
    POLL_PAUSE * n as real
  }

  lemma OneMorePause(n: nat)
    ensures Pauses(n + 1) == Pauses(n) + POLL_PAUSE
  {
  }

  /** Polls start at least five seconds apart, inside the deadline, and are over fifteen seconds later. */
  predicate Paced(s: State)
  {
    && s.launched <= s.loopStart <= s.now && s.loopStart <= s.launched + POST_TIMEOUT
    && (s.agent == Posting ==> s.polls == 0 && s.now <= s.launched + POST_TIMEOUT)
    && (s.polls > 0 ==> s.loopStart + Pauses(s.polls - 1) <= s.lastPoll < s.loopStart + DEADLINE)
    && (s.agent.Asleep? ==> s.agent.until >= s.loopStart && (s.polls > 0 ==> s.agent.until >= s.lastPoll + POLL_PAUSE))
    && (s.agent.Polling? ==> s.polls > 0 && s.agent.start == s.lastPoll <= s.now <= s.agent.start + POLL_TIMEOUT)
  }

  predicate Inv(s: State)
  {
    FilesHonest(s) && AgentHonest(s) && Paced(s)
  }

  lemma InitInv(s: State)
    requires Init(s)
    ensures Inv(s)
  {
  }

  lemma FilesStep(s: State, step: Step)
    requires FilesHonest(s) && s.launched <= s.now && Enabled(s, step)
    ensures FilesHonest(Apply(s, step))
  {
  }

  lemma AgentStep(s: State, step: Step)
    requires FilesHonest(s) && AgentHonest(s) && Enabled(s, step)
    ensures AgentHonest(Apply(s, step))
  {
  }

  lemma PacedStep(s: State, step: Step)
    requires Paced(s) && Enabled(s, step)
    ensures Paced(Apply(s, step))
  {
    hide Pauses;
    if step == PollStarts {
      assert Pauses(0) == 0.0 by { NoPause(); }
      if s.polls > 0 {
        OneMorePause(s.polls - 1);
      }
    }
  }

  lemma NoPause()
    ensures Pauses(0) == 0.0
  {
  }

  lemma StepInv(s: State, step: Step)
    requires Inv(s) && Enabled(s, step)
    ensures Inv(Apply(s, step))
  {
    assert s.launched <= s.now;
    hide FilesHonest, AgentHonest, Paced, Enabled, Apply;
    FilesStep(s, step);
    AgentStep(s, step);
    PacedStep(s, step);
  }

  lemma {:induction false} RunInv(states: seq<State>, steps: seq<Step>, k: nat)
    requires IsRun(states, steps) && k < |states|
    ensures Inv(states[k])
  {
    if k == 0 {
      InitInv(states[0]);
    } else {
      RunInv(states, steps, k - 1);
      StepInv(states[k - 1], steps[k - 1]);
    }
  }

  // ----- what holds of every run

  /** The agent reports an install as completed only if apt-get exited zero. */
  lemma CompletedMeansZero(states: seq<State>, steps: seq<Step>, k: nat)
    requires IsRun(states, steps) && k < |states| && states[k].agent == Done(Installed)
    ensures states[k].aptExit == Some(0)
  {
    RunInv(states, steps, k);
  }

  /** At most 360 polls, all of them over within 1845 seconds of the install request. */
  lemma PollsBounded(states: seq<State>, steps: seq<Step>, k: nat)
    requires IsRun(states, steps) && k < |states|
    ensures states[k].polls <= 360
    ensures states[k].agent.Polling? ==> states[k].now <= states[k].launched + 1845.0
  {
    RunInv(states, steps, k);
  }

  lemma {:induction false} WrittenOnce(states: seq<State>, steps: seq<Step>, j: nat, k: nat)
    requires IsRun(states, steps) && j <= k < |states| && states[j].writtenRc.Some?
    ensures states[k].writtenRc == states[j].writtenRc && states[j].now <= states[k].now
    ensures states[k].launched == states[j].launched
    decreases k
  {
    if j < k {
      WrittenOnce(states, steps, j, k - 1);
      RunInv(states, steps, k - 1);
    }
  }

  /** Once the exit code is written, every read of it within the hour gives the same verdict. */
  lemma VerdictStable(states: seq<State>, steps: seq<Step>, j: nat, k: nat)
    requires IsRun(states, steps) && j <= k < |states|
    requires states[j].rcFile.Content? && states[k].now <= states[j].rcFile.mtime + 3600.0
    ensures states[k].rcFile == states[j].rcFile && ReadRc(states[k]) == ReadRc(states[j])
  {
    RunInv(states, steps, j);
    RunInv(states, steps, k);
    WrittenOnce(states, steps, j, k);
  }

  /** The sweep never takes the exit code away from the agent: whenever it reads after the code was
      written, it reads the code. */
  lemma SweepNeverInterferes(states: seq<State>, steps: seq<Step>, k: nat)
    requires IsRun(states, steps) && k < |states| && states[k].agent.Polling? && states[k].writtenRc.Some?
    ensures ReadRc(states[k]) ==
            Replied(if states[k].writtenRc.value.0 == 0 then Completed else Failed(states[k].writtenRc.value.0))
  {
    RunInv(states, steps, k);
    PollsBounded(states, steps, k);
  }

  // ----- what the agent makes of an answered poll

  /** The handler's read of this poll found the code, and the reply is on its way or has been read. */
  predicate Decided(s: State, poll: nat, rc: nat)
  {
    && s.polls == poll && s.agent.Polling?
    && s.agent.handler == Replied(if rc == 0 then Completed else Failed(rc))
  }

  lemma DecidedStep(s: State, step: Step, poll: nat, rc: nat)
    requires Enabled(s, step) && Decided(s, poll, rc)
    ensures step == AgentReadsReply ==> Apply(s, step).agent == Done(if rc == 0 then Installed else InstallFailed(rc))
    ensures step != AgentReadsReply && step != ConnectionLost && step != BadReply ==> Decided(Apply(s, step), poll, rc)
    ensures (step == ConnectionLost || step == BadReply) ==>
              !Apply(s, step).agent.Polling? && Apply(s, step).polls == poll
  {
  }

  lemma PollsStep(s: State, step: Step)
    requires Enabled(s, step)
    ensures Apply(s, step).polls == if step == PollStarts then s.polls + 1 else s.polls
    ensures !s.agent.Polling? && Apply(s, step).agent.Polling? ==> step == PollStarts
  {
  }

  /** A poll that was given up is over. */
  lemma {:induction false} PollOver(states: seq<State>, steps: seq<Step>, j: nat, k: nat)
    requires IsRun(states, steps) && j <= k < |states| && !states[j].agent.Polling?
    ensures states[k].polls >= states[j].polls && (states[k].agent.Polling? ==> states[k].polls > states[j].polls)
    decreases k
  {
    hide Apply, Enabled;
    if j < k {
      PollOver(states, steps, j, k - 1);
      PollsStep(states[k - 1], steps[k - 1]);
    }
  }

  lemma {:induction false} StaysDecided(states: seq<State>, steps: seq<Step>, j: nat, k: nat, rc: nat)
    requires IsRun(states, steps) && j <= k < |states| && Decided(states[j], states[j].polls, rc)
    requires states[k].agent.Polling? && states[k].polls == states[j].polls
    ensures Decided(states[k], states[j].polls, rc)
    decreases k - j
  {
    hide Apply, Enabled;
    if j < k {
      DecidedStep(states[j], steps[j], states[j].polls, rc);
      PollsStep(states[j], steps[j]);
      if !states[j + 1].agent.Polling? {
        PollOver(states, steps, j + 1, k);
      } else {
        StaysDecided(states, steps, j + 1, k, rc);
      }
    }
  }

  /**
   * A poll whose read comes after the code was written, and whose reply arrives, ends the wait with that code's
   * verdict.
   */
  lemma AnsweredPollDecides(states: seq<State>, steps: seq<Step>, i: nat, k: nat)
    requires IsRun(states, steps) && i < k < |steps| && steps[i] == HandlerReadsRc && steps[k] == AgentReadsReply
    requires states[k].polls == states[i].polls && states[i].writtenRc.Some?
    ensures var rc := states[i].writtenRc.value.0;
            states[k + 1].agent == Done(if rc == 0 then Installed else InstallFailed(rc))
  {
    var rc := states[i].writtenRc.value.0;
    SweepNeverInterferes(states, steps, i);
    assert Decided(states[i + 1], states[i].polls, rc);
    assert states[k].agent.Polling?;
    hide ReadRc;
    StaysDecided(states, steps, i + 1, k, rc);
    DecidedStep(states[k], steps[k], states[i].polls, rc);
  }

  /** A reply that the job is running, or a lost connection, means another poll five seconds later, and no verdict. */
  lemma PollsAgain(s: State, step: Step)
    requires Enabled(s, step)
    requires step == ConnectionLost || (step == AgentReadsReply && s.agent.handler == Replied(Running))
    ensures Apply(s, step).agent == Asleep(s.now + 5.0)
  {
  }

  /** The agent gives up only after half an hour of polling. */
  lemma {:induction false} TimedOutLate(states: seq<State>, steps: seq<Step>, k: nat)
    requires IsRun(states, steps) && k < |states| && states[k].agent == Done(TimedOut)
    ensures states[k].now >= states[k].loopStart + 1800.0
  {
    assert k > 0;
    if states[k - 1].agent == Done(TimedOut) {
      TimedOutLate(states, steps, k - 1);
    }
  }

  /** The sweep does remove a file once it is an hour old. */
  lemma SweptAfterAnHour(s: State)
    requires s.rcFile != Absent && s.now > s.rcFile.mtime + 3600.0
    ensures Apply(s, CollectGarbage).rcFile == Absent
  {
  }

  /** And a run that succeeds. */
  lemma InstalledRun() returns (states: seq<State>, steps: seq<Step>)
    ensures IsRun(states, steps) && states[|steps|].agent == Done(Installed) && states[|steps|].aptExit == Some(0)
  {
    hide IsRun;
    states, steps := CodeWritten();
    states, steps := Extend(states, steps, PollStarts);
    states, steps := Extend(states, steps, HandlerReadsRc);
    states, steps := Extend(states, steps, AgentReadsReply);
  }

  // ----- "failed" does not mean that apt-get failed

  /** Appending an enabled step to a run gives a run. */
  lemma Extend(states: seq<State>, steps: seq<Step>, step: Step) returns (states': seq<State>, steps': seq<Step>)
    requires IsRun(states, steps) && Enabled(states[|steps|], step)
    ensures IsRun(states', steps') && steps' == steps + [step] && |states'| == |states| + 1
    ensures states'[|steps'|] == Apply(states[|steps|], step)
  {
    hide Enabled, Apply;
    states', steps' := states + [Apply(states[|steps|], step)], steps + [step];
  }

  /** The handler reads the file and asks systemd in two steps. A code written in between is missed. */
  lemma FailedDespiteZero() returns (states: seq<State>, steps: seq<Step>)
    ensures IsRun(states, steps)
    ensures var last := states[|steps|]; last.agent == Done(InstallFailed(-1)) && last.aptExit == Some(0)
  {
    hide IsRun;
    states, steps := RaceBegins();
    states, steps := Extend(states, steps, AptExits(0));
    states, steps := Extend(states, steps, CreateRc);
    states, steps := Extend(states, steps, WriteRc);
    states, steps := Extend(states, steps, UnitEnds);
    states, steps := Extend(states, steps, HandlerAsksUnit);
    states, steps := Extend(states, steps, AgentReadsReply);
  }

  /** The job is queued, the agent about to poll. */
  lemma Begins() returns (states: seq<State>, steps: seq<Step>)
    ensures IsRun(states, steps) && |states| == |steps| + 1
    ensures states[|steps|] == State(0.0, 0.0, 0.0, 0, 0.0, Asleep(0.0), Queued, None, Absent, None)
  {
    states, steps := [State(0.0, 0.0, 0.0, 0, 0.0, Posting, NotLaunched, None, Absent, None)], [];
    assert IsRun(states, steps);
    hide IsRun;
    states, steps := Extend(states, steps, Launch);
    states, steps := Extend(states, steps, PostAnswered);
  }

  lemma RaceBegins() returns (states: seq<State>, steps: seq<Step>)
    ensures IsRun(states, steps) && |states| == |steps| + 1
    ensures var last := states[|steps|]; last.agent.Polling? && last.agent.handler == NoCode && last.shell == Installing
  {
    hide IsRun;
    states, steps := Begins();
    states, steps := Extend(states, steps, UnitStarts);
    states, steps := Extend(states, steps, PollStarts);
    states, steps := Extend(states, steps, HandlerReadsRc);
  }

  predicate WithoutCode(s: State)
  {
    s.agent.Polling? && s.agent.handler == NoCode
  }

  lemma WithoutCodeStep(s: State, step: Step)
    requires Enabled(s, step) && WithoutCode(Apply(s, step))
    ensures Apply(s, step).polls == s.polls && s.agent.Polling?
    ensures step == HandlerReadsRc || WithoutCode(s)
    ensures step == HandlerReadsRc ==> ReadRc(s) == NoCode
  {
  }

  lemma {:induction false} CodeWasMissing(states: seq<State>, steps: seq<Step>, k: nat) returns (j: nat)
    requires IsRun(states, steps) && k < |states| && WithoutCode(states[k])
    ensures j < k && steps[j] == HandlerReadsRc && states[j].writtenRc == None && states[j].polls == states[k].polls
  {
    assert k > 0;
    hide Apply, Enabled, ReadRc;
    WithoutCodeStep(states[k - 1], steps[k - 1]);
    if steps[k - 1] == HandlerReadsRc {
      j := k - 1;
      if states[j].writtenRc.Some? {
        SweepNeverInterferes(states, steps, j);
      }
    } else {
      j := CodeWasMissing(states, steps, k - 1);
    }
  }

  lemma {:induction false} WrittenBetween(states: seq<State>, steps: seq<Step>, j: nat, k: nat) returns (w: nat)
    requires IsRun(states, steps) && j <= k < |states| && states[j].writtenRc == None && states[k].writtenRc.Some?
    ensures j <= w < k && steps[w] == WriteRc
    decreases k
  {
    if states[k - 1].writtenRc == None {
      w := k - 1;
    } else {
      w := WrittenBetween(states, steps, j, k - 1);
    }
  }

  /** The exact condition: the reply "ended without writing rc" is false of the job if and only if the code
      was written between the handler's two reads. */
  lemma MissedCodeIsARace(states: seq<State>, steps: seq<Step>, k: nat)
    requires IsRun(states, steps) && k < |steps| && steps[k] == HandlerAsksUnit && !UnitActive(states[k])
    ensures states[k].writtenRc.Some? <==>
            exists j, w :: 0 <= j <= w < k && steps[j] == HandlerReadsRc && states[j].polls == states[k].polls
                           && states[j].writtenRc == None && steps[w] == WriteRc
  {
    var j := CodeWasMissing(states, steps, k);
    if states[k].writtenRc.Some? {
      var w := WrittenBetween(states, steps, j, k);
    }
    if i, w :| 0 <= i <= w < k && steps[i] == HandlerReadsRc && states[i].polls == states[k].polls
               && states[i].writtenRc == None && steps[w] == WriteRc {
      WrittenOnce(states, steps, w + 1, k);
    }
  }

  // ----- an install reported as failed although apt-get succeeded

  lemma {:induction false} AptExitStays(states: seq<State>, steps: seq<Step>, j: nat, k: nat)
    requires IsRun(states, steps) && j <= k < |states| && states[j].aptExit.Some?
    ensures states[k].aptExit == states[j].aptExit
    decreases k
  {
    if j < k {
      AptExitStays(states, steps, j, k - 1);
      RunInv(states, steps, k - 1);
    }
  }

  lemma {:induction false} AptExited(states: seq<State>, steps: seq<Step>, k: nat) returns (a: nat)
    requires IsRun(states, steps) && k < |states| && states[k].aptExit.Some?
    ensures a < k && steps[a] == AptExits(states[k].aptExit.value)
  {
    if states[k - 1].aptExit.Some? {
      AptExitStays(states, steps, k - 1, k);
      a := AptExited(states, steps, k - 1);
    } else {
      a := k - 1;
    }
  }

  /** The reply "failed, -1" is under way or has been read. */
  predicate ToldMinusOne(s: State)
  {
    s.agent == Done(InstallFailed(-1)) || (s.agent.Polling? && s.agent.handler == Replied(Failed(-1)))
  }

  /** Step `q` is the unit query of the poll that state `s` is in or ended with, and it found the unit inactive. */
  predicate IsQuery(states: seq<State>, steps: seq<Step>, q: nat, s: State)
  {
    q < |steps| && q < |states| && steps[q] == HandlerAsksUnit && !UnitActive(states[q]) && states[q].polls == s.polls
  }

  lemma {:induction false} QueryBehind(states: seq<State>, steps: seq<Step>, k: nat) returns (q: nat)
    requires IsRun(states, steps) && k < |states| && ToldMinusOne(states[k])
    ensures q < k && IsQuery(states, steps, q, states[k])
  {
    if ToldMinusOne(states[k - 1]) {
      q := QueryBehind(states, steps, k - 1);
    } else {
      q := k - 1;
    }
  }

  lemma EndedStep(s: State, step: Step)
    requires FilesHonest(s) && Enabled(s, step) && Apply(s, step).shell == Ended && Apply(s, step).writtenRc == None
    ensures Apply(s, step).aptExit == s.aptExit && s.writtenRc == None
    ensures s.shell == Ended || step == UnitKilled
  {
  }

  lemma {:induction false} KilledUnwritten(states: seq<State>, steps: seq<Step>, q: nat) returns (u: nat)
    requires IsRun(states, steps) && q < |states| && states[q].shell == Ended && states[q].writtenRc == None
    ensures u < q && steps[u] == UnitKilled && states[u].aptExit == states[q].aptExit
  {
    assert q > 0;
    RunInv(states, steps, q - 1);
    hide Apply, Enabled, FilesHonest, AgentHonest, Paced;
    EndedStep(states[q - 1], steps[q - 1]);
    if states[q - 1].shell == Ended {
      u := KilledUnwritten(states, steps, q - 1);
    } else {
      u := q - 1;
    }
  }

  lemma NeverWritten(states: seq<State>, steps: seq<Step>, q: nat, w: nat)
    requires IsRun(states, steps) && w < q < |states| && states[q].writtenRc == None
    ensures steps[w] != WriteRc
  {
    if steps[w] == WriteRc {
      WrittenOnce(states, steps, w + 1, q);
    }
  }

  lemma {:induction false} LaunchedByPolling(states: seq<State>, steps: seq<Step>, k: nat)
    requires IsRun(states, steps) && k < |states| && (states[k].agent.Polling? || states[k].agent.Asleep?)
    ensures states[k].shell != NotLaunched
  {
    if states[k - 1].agent.Polling? || states[k - 1].agent.Asleep? {
      LaunchedByPolling(states, steps, k - 1);
    }
  }

  /** The code was written between the two reads of the poll that asks at step `q`. */
  ghost predicate WrittenInBetween(states: seq<State>, steps: seq<Step>, q: nat)
    requires q < |states| && q < |steps|
  {
    exists j, w :: 0 <= j <= w < q && j < |states| && steps[j] == HandlerReadsRc && states[j].polls == states[q].polls
                   && steps[w] == WriteRc
  }

  /** The unit was killed after apt-get exited at step `a`, before it could write the code. */
  ghost predicate KilledBeforeWriting(steps: seq<Step>, a: nat, q: nat)
    requires q < |steps|
  {
    (exists u :: a < u < q && steps[u] == UnitKilled) && forall w :: 0 <= w < q ==> steps[w] != WriteRc
  }

  /** The unit had not started yet. */
  predicate AskedTooEarly(states: seq<State>, q: nat)
    requires q < |states|
  {
    states[q].shell == Queued
  }

  /** Why a successful install was taken for a failed one. */
  ghost predicate Misjudged(states: seq<State>, steps: seq<Step>, a: nat, q: nat)
    requires q < |states| && q < |steps|
  {
    WrittenInBetween(states, steps, q) || KilledBeforeWriting(steps, a, q) || AskedTooEarly(states, q)
  }

  lemma WhyMisjudged(states: seq<State>, steps: seq<Step>, k: nat) returns (a: nat, q: nat)
    requires IsRun(states, steps) && k < |states| && ToldMinusOne(states[k]) && states[k].aptExit == Some(0)
    ensures a < k && steps[a] == AptExits(0)
    ensures q < k && IsQuery(states, steps, q, states[k]) && Misjudged(states, steps, a, q)
  {
    a := AptExited(states, steps, k);
    q := QueryBehind(states, steps, k);
    LaunchedByPolling(states, steps, q);
    if states[q].writtenRc.Some? {
      MissedCodeIsARace(states, steps, q);
      assert WrittenInBetween(states, steps, q);
    } else if states[q].shell == Ended {
      a := KilledCase(states, steps, k, q);
    }
  }

  lemma {:induction false} EndedStays(states: seq<State>, steps: seq<Step>, j: nat, k: nat)
    requires IsRun(states, steps) && j <= k < |states| && states[j].shell == Ended
    ensures states[k].shell == Ended && states[k].aptExit == states[j].aptExit
    decreases k
  {
    if j < k {
      EndedStays(states, steps, j, k - 1);
    }
  }

  lemma KilledCase(states: seq<State>, steps: seq<Step>, k: nat, q: nat) returns (a: nat)
    requires IsRun(states, steps) && q < k < |states| && states[k].aptExit == Some(0)
    requires states[q].shell == Ended && states[q].writtenRc == None
    ensures a < k && steps[a] == AptExits(0) && KilledBeforeWriting(steps, a, q)
  {
    EndedStays(states, steps, q, k);
    var u := KilledUnwritten(states, steps, q);
    a := AptExited(states, steps, u);
    forall w | 0 <= w < q
      ensures steps[w] != WriteRc
    {
      NeverWritten(states, steps, q, w);
    }
  }

  /**
   * An install reported as failed with code `rc` had succeeded if and only if the code is -1 and, apt-get having
   * exited zero, the unit query behind the verdict missed a code written since that poll's first read, or followed
   * a kill before the code was written, or came before the unit had started. A code of its own is never wrong.
   */
  lemma FailedThoughInstalledIff(states: seq<State>, steps: seq<Step>, k: nat, rc: int)
    requires IsRun(states, steps) && k < |states| && states[k].agent == Done(InstallFailed(rc))
    ensures states[k].aptExit == Some(0) <==>
            && rc == -1
            && exists a, q :: 0 <= a < k && 0 <= q < k && steps[a] == AptExits(0)
                              && IsQuery(states, steps, q, states[k]) && Misjudged(states, steps, a, q)
    ensures rc >= 0 ==> states[k].aptExit != Some(0)
  {
    RunInv(states, steps, k);
    FailureCodes(states, steps, k);
    hide IsQuery, Misjudged;
    if states[k].aptExit == Some(0) {
      var a, q := WhyMisjudged(states, steps, k);
    } else if a :| 0 <= a < k && steps[a] == AptExits(0) {
      AptExitStays(states, steps, a + 1, k);
    }
  }

  lemma {:induction false} FailureCodes(states: seq<State>, steps: seq<Step>, k: nat)
    requires IsRun(states, steps) && k < |states|
    ensures states[k].agent.Polling? && states[k].agent.handler.Replied? && states[k].agent.handler.reply.Failed?
            ==> states[k].agent.handler.reply.returncode >= -1
    ensures states[k].agent.Done? && states[k].agent.verdict.InstallFailed? ==> states[k].agent.verdict.returncode >= -1
  {
    if k > 0 {
      FailureCodes(states, steps, k - 1);
    }
  }

  // ----- what makes a unit query answer "inactive"

  ghost predicate KilledBefore(steps: seq<Step>, q: nat)
    requires q <= |steps|
  {
    exists u :: 0 <= u < q && steps[u] == UnitKilled
  }

  /** Since the first read of the poll that asks at step `q`, the code was written and the unit ended. */
  ghost predicate EndedInBetween(states: seq<State>, steps: seq<Step>, q: nat)
    requires q < |states| && q < |steps|
  {
    exists j, w, e :: 0 <= j <= w < e < q && j < |states| && steps[j] == HandlerReadsRc
                      && states[j].polls == states[q].polls && steps[w] == WriteRc && steps[e] == UnitEnds
  }

  predicate Ends(step: Step)
  {
    step == UnitEnds || step == UnitKilled
  }

  lemma EndingStep(s: State, step: Step)
    requires Enabled(s, step)
    ensures Apply(s, step).shell == Ended <==> s.shell == Ended || Ends(step)
    ensures step == UnitEnds ==> s.shell == Written
  {
  }

  lemma {:induction false} EndedBy(states: seq<State>, steps: seq<Step>, q: nat) returns (e: nat)
    requires IsRun(states, steps) && q < |states| && states[q].shell == Ended
    ensures e < q && Ends(steps[e])
  {
    assert q > 0;
    hide Apply, Enabled;
    EndingStep(states[q - 1], steps[q - 1]);
    if states[q - 1].shell == Ended {
      e := EndedBy(states, steps, q - 1);
    } else {
      e := q - 1;
    }
  }

  lemma WrittenSinceRead(states: seq<State>, steps: seq<Step>, q: nat, e: nat)
    requires IsRun(states, steps) && e < q < |steps| && steps[q] == HandlerAsksUnit && steps[e] == UnitEnds
    ensures EndedInBetween(states, steps, q)
  {
    var j := CodeWasMissing(states, steps, q);
    RunInv(states, steps, e);
    assert states[e].writtenRc.Some?;
    if e < j {
      WrittenOnce(states, steps, e, j);
    }
    var w := WrittenBetween(states, steps, j, e);
    assert 0 <= j <= w < e < q;
  }

  /**
   * In any run, whatever apt-get did: a unit query finds the unit inactive if and only if the unit is still queued, was
   * killed before, or wrote its code and ended since the same poll's first read.
   */
  lemma InactiveIff(states: seq<State>, steps: seq<Step>, q: nat)
    requires IsRun(states, steps) && q < |steps| && steps[q] == HandlerAsksUnit
    ensures !UnitActive(states[q]) <==>
            AskedTooEarly(states, q) || KilledBefore(steps, q) || EndedInBetween(states, steps, q)
  {
    LaunchedByPolling(states, steps, q);
    if states[q].shell == Ended {
      var e := EndedBy(states, steps, q);
      hide Apply, Enabled;
      if steps[e] == UnitEnds {
        WrittenSinceRead(states, steps, q, e);
      }
    } else {
      hide Apply, Enabled;
      NotEnded(states, steps, q);
    }
  }

  lemma NotEnded(states: seq<State>, steps: seq<Step>, q: nat)
    requires IsRun(states, steps) && q < |states| && states[q].shell != Ended
    ensures forall e :: 0 <= e < q ==> !Ends(steps[e])
  {
    hide Apply, Enabled, Ends;
    forall e | 0 <= e < q
      ensures !Ends(steps[e])
    {
      EndingStep(states[e], steps[e]);
      if Ends(steps[e]) {
        EndedStays(states, steps, e + 1, q);
      }
    }
  }

  /** So behind every verdict -1 is a query that came too early, after a kill, or between a code and its reading. */
  lemma MinusOneCauses(states: seq<State>, steps: seq<Step>, k: nat) returns (q: nat)
    requires IsRun(states, steps) && k < |states| && ToldMinusOne(states[k])
    ensures q < k && IsQuery(states, steps, q, states[k])
    ensures AskedTooEarly(states, q) || KilledBefore(steps, q) || EndedInBetween(states, steps, q)
  {
    q := QueryBehind(states, steps, k);
    InactiveIff(states, steps, q);
  }

  /** A second way to fail: the unit is killed between apt-get's exit and the code. */
  lemma KilledAfterSuccess() returns (states: seq<State>, steps: seq<Step>)
    ensures IsRun(states, steps)
    ensures var last := states[|steps|]; last.agent == Done(InstallFailed(-1)) && last.aptExit == Some(0)
  {
    hide IsRun;
    states, steps := RaceBegins();
    states, steps := Extend(states, steps, AptExits(0));
    states, steps := Extend(states, steps, UnitKilled);
    states, steps := Extend(states, steps, HandlerAsksUnit);
    states, steps := Extend(states, steps, AgentReadsReply);
  }

  /** A third: the first poll asks before systemd has started the unit. */
  lemma AskedBeforeStart() returns (states: seq<State>, steps: seq<Step>)
    ensures IsRun(states, steps)
    ensures var last := states[|steps|]; last.agent == Done(InstallFailed(-1)) && last.aptExit == Some(0)
  {
    hide IsRun;
    states, steps := EarlyQuestion();
    states, steps := Extend(states, steps, HandlerAsksUnit);
    states, steps := Extend(states, steps, AgentReadsReply);
    states, steps := Extend(states, steps, UnitStarts);
    states, steps := Extend(states, steps, AptExits(0));
  }

  lemma EarlyQuestion() returns (states: seq<State>, steps: seq<Step>)
    ensures IsRun(states, steps) && |states| == |steps| + 1
    ensures var last := states[|steps|]; last.agent.Polling? && last.agent.handler == NoCode && last.shell == Queued
  {
    hide IsRun;
    states, steps := Begins();
    states, steps := Extend(states, steps, PollStarts);
    states, steps := Extend(states, steps, HandlerReadsRc);
  }

  // ----- a timeout, reported as failed too

  lemma {:induction false} DoneStays(states: seq<State>, steps: seq<Step>, j: nat, k: nat)
    requires IsRun(states, steps) && j <= k < |states| && states[j].agent.Done?
    ensures states[k].agent == states[j].agent
    decreases k
  {
    if j < k {
      DoneStays(states, steps, j, k - 1);
    }
  }

  /** The handler has not answered yet, or with a final state. */
  predicate NotRunning(h: Handler)
  {
    h == Waiting || (h.Replied? && h.reply != Running)
  }

  lemma {:induction false} PollWasLost(states: seq<State>, steps: seq<Step>, m: nat, k: nat) returns (l: nat)
    requires IsRun(states, steps) && m <= k < |states| && states[k].agent == Done(TimedOut)
    requires states[m].agent.Polling? && NotRunning(states[m].agent.handler) && states[m].writtenRc.Some?
    ensures m <= l < k && steps[l] == ConnectionLost && states[l].polls == states[m].polls
    decreases k - m
  {
    if states[m + 1].agent.Done? {
      DoneStays(states, steps, m + 1, k);
      assert false;
    } else if steps[m] == ConnectionLost {
      l := m;
    } else {
      SweepNeverInterferes(states, steps, m);
      WrittenOnce(states, steps, m, m + 1);
      l := PollWasLost(states, steps, m + 1, k);
    }
  }

  /**
   * If the agent timed out, every poll that began after the code was written lost its connection: any answer would
   * have ended the wait.
   */
  lemma TimedOutUnheard(states: seq<State>, steps: seq<Step>, i: nat, k: nat) returns (l: nat)
    requires IsRun(states, steps) && i < k < |states| && states[k].agent == Done(TimedOut)
    requires steps[i] == PollStarts && states[i].writtenRc.Some?
    ensures i < l < k && steps[l] == ConnectionLost && states[l].polls == states[i + 1].polls
  {
    WrittenOnce(states, steps, i, i + 1);
    l := PollWasLost(states, steps, i + 1, k);
  }

  /** So a timeout says nothing about apt-get: here it had exited zero before the only poll. */
  lemma TimedOutDespiteZero() returns (states: seq<State>, steps: seq<Step>)
    ensures IsRun(states, steps)
    ensures var last := states[|steps|]; last.agent == Done(TimedOut) && last.aptExit == Some(0) && last.writtenRc.Some?
  {
    hide IsRun;
    states, steps := CodeWritten();
    states, steps := Extend(states, steps, PollStarts);
    states, steps := Extend(states, steps, ConnectionLost);
    states, steps := Extend(states, steps, Tick(1800.0));
    states, steps := Extend(states, steps, DeadlinePassed);
  }

  lemma CodeWritten() returns (states: seq<State>, steps: seq<Step>)
    ensures IsRun(states, steps) && |states| == |steps| + 1
    ensures var last := states[|steps|];
            && last.agent == Asleep(0.0) && last.now == 0.0 == last.loopStart
            && last.aptExit == Some(0) && last.writtenRc == Some((0, 0.0)) && last.rcFile == Content(0, 0.0)
  {
    hide IsRun;
    states, steps := Begins();
    states, steps := Extend(states, steps, UnitStarts);
    states, steps := Extend(states, steps, AptExits(0));
    states, steps := Extend(states, steps, CreateRc);
    states, steps := Extend(states, steps, WriteRc);
  }
}
