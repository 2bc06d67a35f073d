/**
 * One run of a terminal command (`src/bb/terminal-command.ts`) as the events it waits for: session
 * creation, replies, the deadline and the abort signal, in any order, the late ones included.
 */
module Terminal {
  import opened Prelude

  datatype CommandResult = Exited(exitCode: int, output: string, outputTruncated: bool) | TimedOut | Aborted

  datatype Exit = Exit(exitCode: int, output: string)

  /** What a run is given; `exitOf` and `readyRest` stand for the searches for the two markers in the output. */
  datatype Config = Config(
    hasStdin: bool, maximumBytes: nat, exitOf: string -> Option<Exit>, readyRest: string -> Option<string>)

  /** The operation a bounded wait is waiting for. A wait is unsettled as long as the run is in it. */
  datatype Wait = Creating | ReadyOutput | ReadyStatus | ReadyDelay | Sending | StatusWait | OutputWait | DelayWait

  datatype Phase = Waiting(wait: Wait) | Returned(result: CommandResult) | Threw

  datatype State = State(
    phase: Phase, creationPending: bool, terminalId: Option<string>, closed: bool,
    output: string, nextSeq: int, truncated: bool,
    sessions: seq<string>, closes: seq<string>, streamed: string)

  /** The signal and the deadline as one check of the code finds them. */
  datatype Clock = Clock(aborted: bool, expired: bool)

  /** Everything outside that one synchronous stretch of code meets: the observer, and the clock at its checks. */
  datatype Stretch = Stretch(observerThrows: bool, head: Clock, call: Clock)

  datatype Reply =
    | StatusReply(exited: bool, exitCode: Option<int>)
    | Chunk(text: string, nextSeq: Option<int>, truncated: bool)
    | Done

  datatype Event =
    | DeadlinePasses
    | SignalAborts
    | SessionCreated(id: string, stretch: Stretch)
    | SessionRefused
    | Resolved(reply: Reply, stretch: Stretch)
    | Rejected

  // ----- output

  function Suffix(s: string, n: nat): string { if |s| <= n then s else s[|s| - n..] }

  /** `appendBounded` on text of one byte a character. */
  function AppendBounded(current: string, next: string, maximumBytes: nat): (string, bool) {
    (Suffix(current + next, maximumBytes), |current + next| > maximumBytes)
  }

  lemma AppendKeepsSuffix(all: string, next: string, n: nat)
    ensures AppendBounded(Suffix(all, n), next, n).0 == Suffix(all + next, n)
    ensures AppendBounded(Suffix(all, n), next, n).1 || |all| > n <==> |all + next| > n
  {
    if |all| > n {
      assert Suffix(all, n) + next == (all + next)[|all| - n..];
    }
  }

  // ----- closing and returning

  /** `closeOnce`: an empty id counts as none. */
  function CloseOnce(s: State): State {
    if s.terminalId.None? || s.terminalId.value == "" || s.closed then s
    else s.(closed := true, closes := s.closes + [s.terminalId.value])
  }

  function Return(s: State, r: CommandResult): State { CloseOnce(s).(phase := Returned(r)) }

  /** Entering a bounded wait: an aborted signal or a past deadline settles it on the spot. */
  function Enter(s: State, wait: Wait, clock: Clock): State {
    if clock.aborted then Return(s, Aborted)
    else if clock.expired then Return(s, TimedOut)
    else s.(phase := Waiting(wait))
  }

  /** `completedResult`, then what comes after it. */
  function CompleteOr(c: Config, s: State, stretch: Stretch, next: Wait): State {
    match c.exitOf(s.output)
    case Some(exit) =>
      if stretch.observerThrows then s.(phase := Threw)
      else Return(s, Exited(exit.exitCode, exit.output, s.truncated))
    case None => Enter(s, next, stretch.call)
  }

  /** The head of the loop in `waitForExit`. */
  function ExitLoop(c: Config, s: State, stretch: Stretch): State {
    if stretch.head.aborted then Return(s, Aborted)
    else if stretch.head.expired then Return(s, TimedOut)
    else CompleteOr(c, s, stretch, StatusWait)
  }

  /** The head of the loop in `waitForStdinReady`. */
  function ReadyLoop(s: State, stretch: Stretch): State {
    if stretch.head.aborted then Return(s, Aborted)
    else if stretch.head.expired then Return(s, TimedOut)
    else Enter(s, ReadyOutput, stretch.call)
  }

  function Append(c: Config, s: State, chunk: Reply): State
    requires chunk.Chunk?
  {
    var (output, cut) := AppendBounded(s.output, chunk.text, c.maximumBytes);
    s.(output := output, truncated := s.truncated || chunk.truncated || cut, streamed := s.streamed + chunk.text,
      nextSeq := if chunk.nextSeq.Some? then chunk.nextSeq.value else s.nextSeq)
  }

  // ----- the run

  const IDLE := State(Threw, false, None, false, "", 0, false, [], [], "")

  /** `run` up to its first wait, with the signal and the deadline as its two checks find them. */
  function Start(before: Clock, atCall: Clock): State {
    if before.aborted then IDLE.(phase := Returned(Aborted))
    else if atCall.aborted then IDLE.(phase := Returned(Aborted))
    else if atCall.expired then IDLE.(phase := Returned(TimedOut))
    else IDLE.(phase := Waiting(Creating), creationPending := true)
  }

  function Created(c: Config, s: State, id: string, stretch: Stretch): State {
    var s1 := s.(creationPending := false, terminalId := Some(id), sessions := s.sessions + [id]);
    if s.phase != Waiting(Creating) then CloseOnce(s1)
    else if stretch.observerThrows then s1.(phase := Threw)
    else if c.hasStdin then ReadyLoop(s1, stretch)
    else ExitLoop(c, s1, stretch)
  }

  /** The reply a wait is waiting for. */
  predicate Answers(wait: Wait, reply: Reply) {
    match wait
    case Creating => false
    case ReadyOutput => reply.Chunk?
    case OutputWait => reply.Chunk?
    case ReadyStatus => reply.StatusReply?
    case StatusWait => reply.StatusReply?
    case _ => reply.Done?
  }

  function Continue(c: Config, s: State, reply: Reply, stretch: Stretch): State
    requires s.phase.Waiting? && Answers(s.phase.wait, reply)
  {
    match s.phase.wait
    case ReadyOutput =>
      var s1 := Append(c, s, reply);
      (match c.readyRest(s1.output)
       case Some(rest) => Enter(s1.(output := rest, streamed := rest), Sending, stretch.call)
       case None => Enter(s1, ReadyStatus, stretch.call))
    case ReadyStatus => if reply.exited then CloseOnce(s).(phase := Threw) else Enter(s, ReadyDelay, stretch.call)
    case ReadyDelay => ReadyLoop(s, stretch)
    case Sending => ExitLoop(c, s, stretch)
    case StatusWait =>
      if stretch.observerThrows then s.(phase := Threw)
      else if reply.exited
        then Return(s, Exited(if reply.exitCode.Some? then reply.exitCode.value else 1, s.output, s.truncated))
      else Enter(s, OutputWait, stretch.call)
    case OutputWait => CompleteOr(c, Append(c, s, reply), stretch, DelayWait)
    case DelayWait => ExitLoop(c, s, stretch)
  }

  /**
   * One event. Whatever arrives after a wait has settled changes nothing, except a session that was still being
   * created.
   */
  function Step(c: Config, s: State, e: Event): State {
    match e
    case DeadlinePasses => if s.phase.Waiting? then Return(s, TimedOut) else s
    case SignalAborts => if s.phase.Waiting? then Return(s, Aborted) else s
    case SessionCreated(id, stretch) => if s.creationPending then Created(c, s, id, stretch) else s
    case SessionRefused =>
      if !s.creationPending then s
      else s.(creationPending := false, phase := if s.phase == Waiting(Creating) then Threw else s.phase)
    case Resolved(reply, stretch) =>
      if s.phase.Waiting? && Answers(s.phase.wait, reply) then Continue(c, s, reply, stretch) else s
    case Rejected =>
      if !s.phase.Waiting? || s.phase.wait == Creating then s
      else if s.phase.wait == DelayWait then Return(s, Aborted)
      else s.(phase := Threw)
  }

  function Run(c: Config, before: Clock, atCall: Clock, events: seq<Event>): State
    decreases |events|
  {
    if events == [] then Start(before, atCall)
    else Step(c, Run(c, before, atCall, events[..|events| - 1]), events[|events| - 1])
  }

  // ----- invariants

  /** The markers are found in the output, so what they leave of it is no longer than it. */
  ghost predicate Searches(c: Config) {
    forall s: string :: c.readyRest(s).Some? ==> |c.readyRest(s).value| <= |s|
  }

  /** What is known of the session, and that nothing is closed that was not opened, nor closed twice. */
  ghost predicate Coherent(s: State) {
    && s.sessions == (if s.terminalId.Some? then [s.terminalId.value] else [])
    && s.closes == (if s.closed then s.sessions else [])
    && (s.closed ==> s.terminalId.Some? && s.terminalId.value != "")
    && (s.creationPending ==> s.terminalId.None? && !s.phase.Threw?)
    && (s.phase == Waiting(Creating) ==> s.creationPending)
    && (s.phase.Waiting? && s.phase.wait != Creating ==> s.terminalId.Some? && !s.closed)
    && (s.phase.Returned? && s.terminalId.Some? && s.terminalId.value != "" ==> s.closed)
  }

  ghost predicate Buffered(c: Config, s: State) {
    s.output == Suffix(s.streamed, c.maximumBytes) && (|s.streamed| > c.maximumBytes ==> s.truncated)
  }

  ghost predicate Inv(c: Config, s: State) { Coherent(s) && Buffered(c, s) }

  /** In the middle of a stretch of code: a session, not yet closed. */
  ghost predicate Open(s: State) {
    && s.terminalId.Some? && !s.closed && !s.creationPending
    && s.sessions == [s.terminalId.value] && s.closes == []
  }

  lemma ReturnCloses(s: State, r: CommandResult)
    requires Open(s)
    ensures Coherent(Return(s, r))
  {
  }

  lemma {:induction false} StretchesCohere(c: Config, s: State, stretch: Stretch, wait: Wait)
    requires Open(s) && wait != Creating
    ensures Coherent(Enter(s, wait, stretch.call)) && Coherent(CompleteOr(c, s, stretch, wait))
    ensures Coherent(ExitLoop(c, s, stretch)) && Coherent(ReadyLoop(s, stretch))
  {
    hide CloseOnce;
    ReturnCloses(s, Aborted);
    ReturnCloses(s, TimedOut);
    if c.exitOf(s.output).Some? {
      var exit := c.exitOf(s.output).value;
      ReturnCloses(s, Exited(exit.exitCode, exit.output, s.truncated));
    }
    hide Return;
  }

  lemma CreatedCoheres(c: Config, s: State, id: string, stretch: Stretch)
    requires Coherent(s) && s.creationPending
    ensures Coherent(Created(c, s, id, stretch))
  {
    hide ExitLoop, ReadyLoop;
    var s1 := s.(creationPending := false, terminalId := Some(id), sessions := s.sessions + [id]);
    if s.phase == Waiting(Creating) {
      StretchesCohere(c, s1, stretch, StatusWait);
    }
  }

  lemma {:induction false} ContinueCoheres(c: Config, s: State, reply: Reply, stretch: Stretch)
    requires Coherent(s) && s.phase.Waiting? && Answers(s.phase.wait, reply)
    ensures Coherent(Continue(c, s, reply, stretch))
  {
    hide ExitLoop, ReadyLoop, CompleteOr, Enter, AppendBounded, Return;
    var s1 := if reply.Chunk? then Append(c, s, reply) else s;
    match s.phase.wait
    case ReadyOutput =>
      StretchesCohere(c, s1, stretch, ReadyStatus);
      if c.readyRest(s1.output).Some? {
        StretchesCohere(c, s1.(output := c.readyRest(s1.output).value, streamed := c.readyRest(s1.output).value),
                        stretch, Sending);
      }
    case ReadyStatus => StretchesCohere(c, s, stretch, ReadyDelay);
    case StatusWait =>
      StretchesCohere(c, s, stretch, OutputWait);
      ReturnCloses(s, Exited(if reply.exitCode.Some? then reply.exitCode.value else 1, s.output, s.truncated));
    case OutputWait => StretchesCohere(c, s1, stretch, DelayWait);
    case _ => StretchesCohere(c, s, stretch, StatusWait);
  }

  lemma {:induction false} StepCoheres(c: Config, s: State, e: Event)
    requires Coherent(s)
    ensures Coherent(Step(c, s, e))
  {
    hide Created, Continue, Answers;
    match e
    case SessionCreated(id, stretch) => if s.creationPending { CreatedCoheres(c, s, id, stretch); }
    case Resolved(reply, stretch) =>
      if s.phase.Waiting? && Answers(s.phase.wait, reply) { ContinueCoheres(c, s, reply, stretch); }
    case _ =>
  }

  // ----- the buffer

  predicate SameBuffer(s: State, s': State) {
    s'.output == s.output && s'.streamed == s.streamed && s'.truncated == s.truncated
  }

  lemma StretchesKeepBuffer(c: Config, s: State, stretch: Stretch, wait: Wait)
    ensures SameBuffer(s, Enter(s, wait, stretch.call)) && SameBuffer(s, CompleteOr(c, s, stretch, wait))
    ensures SameBuffer(s, ExitLoop(c, s, stretch)) && SameBuffer(s, ReadyLoop(s, stretch))
  {
    forall r: CommandResult ensures SameBuffer(s, Return(s, r)) {
      hide Enter, CompleteOr, ExitLoop, ReadyLoop;
    }
    hide Return;
  }

  lemma AppendKeepsBuffer(c: Config, s: State, chunk: Reply)
    requires chunk.Chunk? && Buffered(c, s)
    ensures Buffered(c, Append(c, s, chunk))
  {
    AppendKeepsSuffix(s.streamed, chunk.text, c.maximumBytes);
  }

  lemma {:induction false} StepKeepsBuffer(c: Config, s: State, e: Event)
    requires Buffered(c, s) && Searches(c)
    ensures Buffered(c, Step(c, s, e))
  {
    hide Answers, Suffix, AppendBounded, ExitLoop, ReadyLoop, CompleteOr, Enter;
    match e
    case SessionCreated(id, stretch) =>
      var s1 := s.(creationPending := false, terminalId := Some(id), sessions := s.sessions + [id]);
      StretchesKeepBuffer(c, s1, stretch, StatusWait);
    case Resolved(reply, stretch) =>
      if s.phase.Waiting? && Answers(s.phase.wait, reply) { ContinueKeepsBuffer(c, s, reply, stretch); }
    case _ =>
  }

  lemma {:induction false} ContinueKeepsBuffer(c: Config, s: State, reply: Reply, stretch: Stretch)
    requires Buffered(c, s) && Searches(c) && s.phase.Waiting? && Answers(s.phase.wait, reply)
    ensures Buffered(c, Continue(c, s, reply, stretch))
  {
    hide AppendBounded, ExitLoop, ReadyLoop, CompleteOr, Enter, Append;
    var s1 := if reply.Chunk? then Append(c, s, reply) else s;
    if reply.Chunk? {
      AppendKeepsBuffer(c, s, reply);
    }
    match s.phase.wait
    case ReadyOutput =>
      StretchesKeepBuffer(c, s1, stretch, ReadyStatus);
      if c.readyRest(s1.output).Some? {
        StretchesKeepBuffer(c, s1.(output := c.readyRest(s1.output).value, streamed := c.readyRest(s1.output).value),
                            stretch, Sending);
      }
    case ReadyStatus => StretchesKeepBuffer(c, s, stretch, ReadyDelay);
    case StatusWait => StretchesKeepBuffer(c, s, stretch, OutputWait);
    case OutputWait => StretchesKeepBuffer(c, s1, stretch, DelayWait);
    case _ => StretchesKeepBuffer(c, s, stretch, StatusWait);
  }

  // ----- whole runs

  lemma {:induction false} RunKeepsInv(c: Config, before: Clock, atCall: Clock, events: seq<Event>)
    ensures Coherent(Run(c, before, atCall, events))
    ensures Searches(c) ==> Buffered(c, Run(c, before, atCall, events))
    decreases |events|
  {
    hide Step, Coherent, Buffered, Searches;
    if events == [] {
      StartIsCoherent(c, before, atCall);
    } else {
      var s := Run(c, before, atCall, events[..|events| - 1]);
      RunKeepsInv(c, before, atCall, events[..|events| - 1]);
      StepCoheres(c, s, events[|events| - 1]);
      if Searches(c) {
        StepKeepsBuffer(c, s, events[|events| - 1]);
      }
    }
  }

  lemma StartIsCoherent(c: Config, before: Clock, atCall: Clock)
    ensures Coherent(Start(before, atCall)) && Buffered(c, Start(before, atCall))
  {
  }

  /** In every ordering of events at most one session is opened, and it is closed at most once. */
  lemma {:induction false} ClosedAtMostOnce(c: Config, before: Clock, atCall: Clock, events: seq<Event>)
    ensures var s := Run(c, before, atCall, events);
            |s.sessions| <= 1 && |s.closes| <= 1 && (s.closes != [] ==> s.closes == s.sessions)
  {
    hide Run;
    RunKeepsInv(c, before, atCall, events);
  }

  /**
   * Once `run` has returned a result, whatever session it opened has been closed exactly once, one that arrived after
   * the caller was told included; exactly when the session has a usable id.
   */
  lemma {:induction false} ReturnedMeansClosed(c: Config, before: Clock, atCall: Clock, events: seq<Event>)
    requires Run(c, before, atCall, events).phase.Returned?
    ensures var s := Run(c, before, atCall, events); s.closes == s.sessions <==> "" !in s.sessions
  {
    hide Run;
    RunKeepsInv(c, before, atCall, events);
  }

  /** A late session changes nothing for the caller, and is closed the moment it arrives. */
  lemma LateSessionIsClosed(c: Config, before: Clock, atCall: Clock, events: seq<Event>, id: string, stretch: Stretch)
    requires Run(c, before, atCall, events).phase.Returned? && Run(c, before, atCall, events).creationPending
             && id != ""
    ensures var s := Run(c, before, atCall, events);
            var s' := Run(c, before, atCall, events + [SessionCreated(id, stretch)]);
            s'.phase == s.phase && s'.sessions == [id] && s'.closes == [id]
  {
    hide Run;
    RunKeepsInv(c, before, atCall, events);
    OneMoreEvent(c, before, atCall, events, SessionCreated(id, stretch));
  }

  lemma OneMoreEvent(c: Config, before: Clock, atCall: Clock, events: seq<Event>, e: Event)
    ensures Run(c, before, atCall, events + [e]) == Step(c, Run(c, before, atCall, events), e)
  {
    hide Step;
    assert (events + [e])[..|events|] == events;
  }

  /** The result a caller was given never changes. */
  lemma {:induction false} ResultIsFinal(c: Config, before: Clock, atCall: Clock, events: seq<Event>, more: seq<Event>)
    requires Run(c, before, atCall, events).phase.Returned?
    ensures Run(c, before, atCall, events + more).phase == Run(c, before, atCall, events).phase
    decreases |more|
  {
    hide Run;
    if more == [] {
      assert events + more == events;
    } else {
      var init, last := more[..|more| - 1], more[|more| - 1];
      ResultIsFinal(c, before, atCall, events, init);
      assert events + more == events + init + [last];
      OneMoreEvent(c, before, atCall, events + init, last);
    }
  }

  /** The output kept is always the last bytes of what was streamed, and it says when something was cut off. */
  lemma {:induction false} OutputIsSuffix(c: Config, before: Clock, atCall: Clock, events: seq<Event>)
    requires Searches(c)
    ensures var s := Run(c, before, atCall, events);
            s.output == Suffix(s.streamed, c.maximumBytes) && (|s.streamed| > c.maximumBytes ==> s.truncated)
  {
    hide Run, Suffix;
    RunKeepsInv(c, before, atCall, events);
  }

  // ----- the script

  /**
   * What the code does between two waits: whether it checks the signal and the deadline first, whether it looks for the
   * exit marker, and what it waits for next.
   */
  datatype Script = Script(checksHead: bool, looksForExit: bool, next: Wait)

  /** The script that follows each wait. `ready` says whether the ready marker has just been found. */
  function ScriptAfter(wait: Wait, hasStdin: bool, ready: bool): Script {
    match wait
    case Creating => if hasStdin then Script(true, false, ReadyOutput) else Script(true, true, StatusWait)
    case ReadyOutput => Script(false, false, if ready then Sending else ReadyStatus)
    case ReadyStatus => Script(false, false, ReadyDelay)
    case ReadyDelay => Script(true, false, ReadyOutput)
    case Sending => Script(true, true, StatusWait)
    case StatusWait => Script(false, false, OutputWait)
    case OutputWait => Script(false, true, DelayWait)
    case DelayWait => Script(true, true, StatusWait)
  }

  /** Where a script leads, given what its checks find; an exit is looked for between the two of them. */
  function Leads(script: Script, exit: Option<Exit>, truncated: bool, stretch: Stretch): Phase {
    if script.checksHead && stretch.head.aborted then Returned(Aborted)
    else if script.checksHead && stretch.head.expired then Returned(TimedOut)
    else if script.looksForExit && exit.Some? && stretch.observerThrows then Threw
    else if script.looksForExit && exit.Some? then Returned(Exited(exit.value.exitCode, exit.value.output, truncated))
    else if stretch.call.aborted then Returned(Aborted)
    else if stretch.call.expired then Returned(TimedOut)
    else Waiting(script.next)
  }

  /** The output a reply leaves to look in, with what precedes the ready marker dropped once that is found. */
  function Buffer(c: Config, s: State, reply: Reply): string {
    if !reply.Chunk? then s.output
    else if |s.output + reply.text| <= c.maximumBytes then s.output + reply.text
    else (s.output + reply.text)[|s.output + reply.text| - c.maximumBytes..]
  }

  /** Whether anything has been cut off by then, by the terminal or by the limit on the output. */
  predicate Cut(c: Config, s: State, reply: Reply) {
    s.truncated || (reply.Chunk? && (reply.truncated || |s.output + reply.text| > c.maximumBytes))
  }

  /** Where a waiting run is after an event. */
  function PhaseAfter(c: Config, s: State, e: Event): Phase
    requires s.phase.Waiting?
  {
    var wait := s.phase.wait;
    match e
    case DeadlinePasses => Returned(TimedOut)
    case SignalAborts => Returned(Aborted)
    case SessionRefused => if wait == Creating then Threw else s.phase
    case Rejected => if wait == Creating then s.phase else if wait == DelayWait then Returned(Aborted) else Threw
    case SessionCreated(_, stretch) =>
      if wait != Creating then s.phase
      else if stretch.observerThrows then Threw
      else Leads(ScriptAfter(Creating, c.hasStdin, false), c.exitOf(s.output), s.truncated, stretch)
    case Resolved(reply, stretch) =>
      if !Answers(wait, reply) then s.phase
      else if wait == ReadyStatus && reply.exited then Threw
      else if wait == StatusWait && stretch.observerThrows then Threw
      else if wait == StatusWait && reply.exited
      then Returned(Exited(if reply.exitCode.Some? then reply.exitCode.value else 1, s.output, s.truncated))
      else
        var buffer := Buffer(c, s, reply);
        Leads(ScriptAfter(wait, c.hasStdin, c.readyRest(buffer).Some?), c.exitOf(buffer), Cut(c, s, reply), stretch)
  }

  /** Output, truncation and place are as in `s`, and the phase is this one. */
  predicate Reaches(s: State, s': State, phase: Phase) {
    s'.phase == phase && s'.output == s.output && s'.truncated == s.truncated && s'.nextSeq == s.nextSeq
  }

  lemma StretchesLead(c: Config, s: State, stretch: Stretch, wait: Wait)
    ensures forall exit ::
              Reaches(s, Enter(s, wait, stretch.call), Leads(Script(false, false, wait), exit, s.truncated, stretch))
    ensures forall exit ::
              Reaches(s, ReadyLoop(s, stretch), Leads(Script(true, false, ReadyOutput), exit, s.truncated, stretch))
    ensures Reaches(s, CompleteOr(c, s, stretch, wait),
                    Leads(Script(false, true, wait), c.exitOf(s.output), s.truncated, stretch))
    ensures Reaches(s, ExitLoop(c, s, stretch),
                    Leads(Script(true, true, StatusWait), c.exitOf(s.output), s.truncated, stretch))
  {
    ReturnReaches(s);
    hide Return, CloseOnce, Reaches;
    EnterLeads(s, stretch, wait);
    EnterLeads(s, stretch, ReadyOutput);
    CompleteLeads(c, s, stretch, wait);
    CompleteLeads(c, s, stretch, StatusWait);
    hide Enter, CompleteOr;
    forall exit
      ensures Reaches(s, ReadyLoop(s, stretch), Leads(Script(true, false, ReadyOutput), exit, s.truncated, stretch))
    {
      assert Reaches(s, Enter(s, ReadyOutput, stretch.call),
                     Leads(Script(false, false, ReadyOutput), exit, s.truncated, stretch));
    }
  }

  lemma ReturnReaches(s: State)
    ensures forall r :: Reaches(s, Return(s, r), Returned(r))
  {
  }

  lemma EnterLeads(s: State, stretch: Stretch, wait: Wait)
    ensures forall exit ::
              Reaches(s, Enter(s, wait, stretch.call), Leads(Script(false, false, wait), exit, s.truncated, stretch))
  {
  }

  lemma CompleteLeads(c: Config, s: State, stretch: Stretch, wait: Wait)
    ensures Reaches(s, CompleteOr(c, s, stretch, wait),
                    Leads(Script(false, true, wait), c.exitOf(s.output), s.truncated, stretch))
  {
  }

  lemma AppendExactly(c: Config, s: State, chunk: Reply)
    requires chunk.Chunk?
    ensures var s1 := Append(c, s, chunk);
            && s1.output == Buffer(c, s, chunk) && s1.truncated == Cut(c, s, chunk) && s1.phase == s.phase
            && s1.nextSeq == if chunk.nextSeq.Some? then chunk.nextSeq.value else s.nextSeq
  {
  }

  /** What a chunk leaves behind, and the place to read on from; other events leave all three as they were. */
  predicate KeepsOutput(c: Config, s: State, e: Event, s': State) {
    if s.phase.Waiting? && e.Resolved? && Answers(s.phase.wait, e.reply) && e.reply.Chunk? then
      var buffer := Buffer(c, s, e.reply);
      && s'.output
         == (if s.phase.wait == ReadyOutput && c.readyRest(buffer).Some? then c.readyRest(buffer).value else buffer)
      && s'.truncated == Cut(c, s, e.reply)
      && s'.nextSeq == if e.reply.nextSeq.Some? then e.reply.nextSeq.value else s.nextSeq
    else s'.output == s.output && s'.truncated == s.truncated && s'.nextSeq == s.nextSeq
  }

  /** Every event takes a waiting run where its script leads, and every run keeps the output its chunks bring. */
  lemma {:induction false} StepFollowsScript(c: Config, s: State, e: Event)
    requires s.phase.Waiting? && (s.creationPending <==> s.phase.wait == Creating)
    ensures Step(c, s, e).phase == PhaseAfter(c, s, e) && KeepsOutput(c, s, e, Step(c, s, e))
  {
    hide AppendBounded, ExitLoop, ReadyLoop, CompleteOr, Enter, Leads, Append, Buffer, Cut;
    match e
    case SessionCreated(id, stretch) =>
      StretchesLead(c, s.(creationPending := false, terminalId := Some(id), sessions := s.sessions + [id]), stretch,
                    StatusWait);
    case Resolved(reply, stretch) => if Answers(s.phase.wait, reply) { ContinueFollowsScript(c, s, reply, stretch); }
    case _ =>
  }

  lemma {:induction false} ContinueFollowsScript(c: Config, s: State, reply: Reply, stretch: Stretch)
    requires s.phase.Waiting? && s.phase.wait != Creating && Answers(s.phase.wait, reply)
    ensures Continue(c, s, reply, stretch).phase == PhaseAfter(c, s, Resolved(reply, stretch))
    ensures KeepsOutput(c, s, Resolved(reply, stretch), Continue(c, s, reply, stretch))
  {
    hide AppendBounded, ExitLoop, ReadyLoop, CompleteOr, Enter, Leads, Append, Buffer, Cut;
    var s1 := if reply.Chunk? then Append(c, s, reply) else s;
    if reply.Chunk? {
      AppendExactly(c, s, reply);
    } else {
      NotAChunk(c, s, reply);
    }
    match s.phase.wait
    case ReadyOutput =>
      StretchesLead(c, s1, stretch, ReadyStatus);
      if c.readyRest(s1.output).Some? {
        StretchesLead(c, s1.(output := c.readyRest(s1.output).value, streamed := c.readyRest(s1.output).value),
                      stretch, Sending);
      }
    case OutputWait => StretchesLead(c, s1, stretch, DelayWait);
    case ReadyStatus => StretchesLead(c, s, stretch, ReadyDelay);
    case ReadyDelay => StretchesLead(c, s, stretch, ReadyOutput);
    case StatusWait => StretchesLead(c, s, stretch, OutputWait);
    case Sending => StretchesLead(c, s, stretch, StatusWait);
    case DelayWait => StretchesLead(c, s, stretch, StatusWait);
    case Creating =>
  }

  lemma NotAChunk(c: Config, s: State, reply: Reply)
    requires !reply.Chunk?
    ensures Buffer(c, s, reply) == s.output && Cut(c, s, reply) == s.truncated
  {
  }

  /** Before anything is waited for, only the signal and the deadline decide. */
  lemma StartByCause(before: Clock, atCall: Clock)
    ensures Start(before, atCall).phase
            == if before.aborted || atCall.aborted then Returned(Aborted)
               else if atCall.expired then Returned(TimedOut)
               else Waiting(Creating)
    ensures var s := Start(before, atCall);
            s.output == "" && s.nextSeq == 0 && !s.truncated && s.sessions == [] && s.closes == []
            && (s.creationPending <==> s.phase.Waiting?)
  {
  }

  // ----- throwing

  /** The command was found to have exited before it took its input. */
  predicate ExitBeforeStdin(s: State, e: Event) {
    s.phase == Waiting(ReadyStatus) && e.Resolved? && e.reply.StatusReply? && e.reply.exited
  }

  /**
   * What makes a run throw: a session that is refused, a call that is, an observer that throws, or an exit before
   * stdin.
   */
  predicate ThrowCause(s: State, e: Event) {
    || (s.phase == Waiting(Creating) && e.SessionRefused?)
    || (s.phase.Waiting? && s.phase.wait != Creating && s.phase.wait != DelayWait && e.Rejected?)
    || ((e.SessionCreated? || e.Resolved?) && e.stretch.observerThrows)
    || ExitBeforeStdin(s, e)
  }

  /**
   * How a throw leaves the session: there is none after a refusal, and only an exit before stdin closes the one there
   * is.
   */
  ghost predicate ThrowLeaves(s: State, e: Event, s': State) {
    && (s'.sessions == [] <==> e.SessionRefused?) && |s'.sessions| <= 1
    && s'.closes == if ExitBeforeStdin(s, e) && "" !in s'.sessions then s'.sessions else []
  }

  /** A stretch of code between two waits throws only when the observer does, and leaves the session as it was. */
  lemma StretchThrows(c: Config, s: State, stretch: Stretch, wait: Wait)
    ensures !Enter(s, wait, stretch.call).phase.Threw? && !ReadyLoop(s, stretch).phase.Threw?
    ensures ThrownBy(s, stretch, CompleteOr(c, s, stretch, wait)) && ThrownBy(s, stretch, ExitLoop(c, s, stretch))
  {
    hide CloseOnce;
  }

  predicate ThrownBy(s: State, stretch: Stretch, s': State) {
    s'.phase.Threw? ==> stretch.observerThrows && s' == s.(phase := Threw)
  }

  lemma {:induction false} ThrowIsCaused(c: Config, s: State, e: Event)
    requires Coherent(s) && !s.phase.Threw? && Step(c, s, e).phase.Threw?
    ensures s.phase.Waiting? && ThrowCause(s, e) && ThrowLeaves(s, e, Step(c, s, e))
  {
    hide AppendBounded, ExitLoop, ReadyLoop, CompleteOr, Enter;
    match e
    case SessionCreated(id, stretch) =>
      StretchThrows(c, s.(creationPending := false, terminalId := Some(id), sessions := s.sessions + [id]), stretch,
                    StatusWait);
    case Resolved(reply, stretch) =>
      var s1 := if reply.Chunk? then Append(c, s, reply) else s;
      StretchThrows(c, s1, stretch, if s.phase == Waiting(ReadyOutput) then ReadyStatus else DelayWait);
      StretchThrows(c, s, stretch, if s.phase == Waiting(ReadyStatus) then ReadyDelay else OutputWait);
      if s.phase == Waiting(ReadyOutput) && c.readyRest(s1.output).Some? {
        StretchThrows(c, s1.(output := c.readyRest(s1.output).value, streamed := c.readyRest(s1.output).value),
                      stretch, Sending);
      }
    case _ =>
  }

  /**
   * A run that throws does so at one event, and stays as that event left it. It has closed its session exactly when the
   * command had exited before its input could be sent and the session has a usable id. After an observer throw or a
   * refused call the session stays open; after a refused creation there is none.
   */
  lemma {:induction false} ThrowIsExact(c: Config, before: Clock, atCall: Clock, events: seq<Event>) returns (i: nat)
    requires Run(c, before, atCall, events).phase.Threw?
    ensures i < |events|
    ensures var s := Run(c, before, atCall, events[..i]);
            && s.phase.Waiting? && ThrowCause(s, events[i])
            && ThrowLeaves(s, events[i], Run(c, before, atCall, events))
    decreases |events|
  {
    hide Step, Coherent, ThrowCause, ThrowLeaves;
    StartDoesNotThrow(before, atCall);
    var init, last := events[..|events| - 1], events[|events| - 1];
    RunKeepsInv(c, before, atCall, init);
    if Run(c, before, atCall, init).phase.Threw? {
      ThrownIsFinal(c, Run(c, before, atCall, init), last);
      i := ThrowIsExact(c, before, atCall, init);
      assert init[..i] == events[..i];
    } else {
      i := |events| - 1;
      ThrowIsCaused(c, Run(c, before, atCall, init), last);
    }
  }

  lemma StartDoesNotThrow(before: Clock, atCall: Clock)
    ensures !Start(before, atCall).phase.Threw?
  {
  }

  lemma ThrownIsFinal(c: Config, s: State, e: Event)
    requires Coherent(s) && s.phase.Threw?
    ensures Step(c, s, e) == s
  {
  }

  // ----- returning

  /** The run with the chunk, if one arrives. */
  function Received(c: Config, s: State, e: Event): State {
    if e.Resolved? && e.reply.Chunk? then Append(c, s, e.reply) else s
  }

  /**
   * Why a result is what it is: the deadline, the signal, or an exit that was read, in the run's own output or its
   * status.
   */
  ghost predicate HasCause(c: Config, s: State, e: Event, r: CommandResult) {
    match r
    case TimedOut =>
      e.DeadlinePasses? || ((e.SessionCreated? || e.Resolved?) && (e.stretch.head.expired || e.stretch.call.expired))
    case Aborted =>
      || e.SignalAborts? || ((e.SessionCreated? || e.Resolved?) && (e.stretch.head.aborted || e.stretch.call.aborted))
      || (e.Rejected? && s.phase == Waiting(DelayWait))
    case Exited(code, output, truncated) =>
      && truncated == Received(c, s, e).truncated
      && (|| c.exitOf(Received(c, s, e).output) == Some(Exit(code, output))
          || (e.Resolved? && e.reply.StatusReply? && e.reply.exited && output == s.output
              && code == if e.reply.exitCode.Some? then e.reply.exitCode.value else 1))
  }

  lemma {:induction false} ResultHasCause(c: Config, s: State, e: Event)
    requires s.phase.Waiting? && Step(c, s, e).phase.Returned?
    ensures HasCause(c, s, e, Step(c, s, e).phase.result)
  {
    hide AppendBounded, Append;
    match e
    case SessionCreated(id, stretch) =>
      var s1 := s.(creationPending := false, terminalId := Some(id), sessions := s.sessions + [id]);
      StretchResult(c, s1, stretch, StatusWait);
      EnterResult(c, s1, s1, stretch, ReadyOutput);
    case Resolved(reply, stretch) =>
      if Answers(s.phase.wait, reply) && s.phase.wait != StatusWait {
        ContinueResult(c, s, reply, stretch);
      }
    case _ =>
  }

  /** The results a stretch of code between two waits can come to, with the output it finds. */
  ghost predicate StretchCause(c: Config, found: State, stretch: Stretch, r: CommandResult) {
    match r
    case TimedOut => stretch.head.expired || stretch.call.expired
    case Aborted => stretch.head.aborted || stretch.call.aborted
    case Exited(code, output, truncated) =>
      c.exitOf(found.output) == Some(Exit(code, output)) && truncated == found.truncated
  }

  lemma {:induction false} StretchResult(c: Config, s: State, stretch: Stretch, wait: Wait)
    requires !s.phase.Returned?
    ensures CausedBy(c, s, stretch, CompleteOr(c, s, stretch, wait)) && CausedBy(c, s, stretch, ExitLoop(c, s, stretch))
  {
    hide CloseOnce, Enter;
    EnterResult(c, s, s, stretch, wait);
    EnterResult(c, s, s, stretch, StatusWait);
  }

  lemma EnterResult(c: Config, found: State, s: State, stretch: Stretch, wait: Wait)
    requires !s.phase.Returned?
    ensures CausedBy(c, found, stretch, Enter(s, wait, stretch.call))
            && CausedBy(c, found, stretch, ReadyLoop(s, stretch))
  {
    hide CloseOnce;
  }

  ghost predicate CausedBy(c: Config, found: State, stretch: Stretch, s: State) {
    s.phase.Returned? ==> StretchCause(c, found, stretch, s.phase.result)
  }

  lemma {:induction false} ContinueResult(c: Config, s: State, reply: Reply, stretch: Stretch)
    requires s.phase.Waiting? && s.phase.wait != StatusWait && Answers(s.phase.wait, reply)
    ensures CausedBy(c, if reply.Chunk? then Append(c, s, reply) else s, stretch, Continue(c, s, reply, stretch))
  {
    hide AppendBounded, ExitLoop, ReadyLoop, CompleteOr, Enter, CloseOnce, StretchCause;
    var s1 := if reply.Chunk? then Append(c, s, reply) else s;
    match s.phase.wait
    case ReadyOutput =>
      EnterResult(c, s1, s1, stretch, ReadyStatus);
      if c.readyRest(s1.output).Some? {
        EnterResult(c, s1, s1.(output := c.readyRest(s1.output).value, streamed := c.readyRest(s1.output).value),
                    stretch, Sending);
      }
    case ReadyStatus => EnterResult(c, s, s, stretch, ReadyDelay);
    case ReadyDelay => EnterResult(c, s, s, stretch, ReadyOutput);
    case OutputWait => StretchResult(c, s1, stretch, DelayWait);
    case _ => StretchResult(c, s, stretch, StatusWait);
  }
}
