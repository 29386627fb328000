// One debug session as the editors and panels share it. Requests are answered
// in any order, between any events and commands; each stretch of code between
// two waits is one step. A generation counter drops answers about an older pause.
module DapSessions {
  import opened Sequences

  datatype Status = Idle | Starting | Running | Paused | Over

  datatype DebugStop = DebugStop(reason: string, threadId: int)

  datatype DebugFrame = DebugFrame(id: int, name: string, path: Option<string>, line: int)

  datatype DebugScope = DebugScope(name: string, variablesReference: int, expensive: bool)

  datatype DebugVariable = DebugVariable(name: string, value: string, variablesReference: int)

  datatype DebugState = DebugState(
    status: Status,
    breakpoints: map<string, set<int>>,
    stop: Option<DebugStop>,
    frames: seq<DebugFrame>,
    selectedFrameId: Option<int>,
    scopes: seq<DebugScope>,
    variables: map<int, seq<DebugVariable>>,
    output: seq<string>,
    exitCode: Option<int>)

  const OUTPUT_LIMIT := 2000

  function InitialState(breakpoints: map<string, set<int>>): DebugState {
    DebugState(Idle, breakpoints, None, [], None, [], map[], [], None)
  }

  // What a paused program shows is shown no more.
  function RunningState(debug: DebugState): DebugState {
    debug.(status := Running, stop := None, frames := [], selectedFrameId := None, scopes := [], variables := map[])
  }

  function LastLines(lines: seq<string>): seq<string> {
    if |lines| > OUTPUT_LIMIT then lines[|lines| - OUTPUT_LIMIT..] else lines
  }

  // -- The session -------------------------------------------------------------------

  // What the code does once a request is answered.
  datatype Ask =
    | ForThreads(generation: nat, reason: string)
    | ForStack(generation: nat, threadId: int)
    | ForScopes(generation: nat, frameId: int)
    | ForVariables(generation: nat, reference: int)
    | ForLaunch
    | ForEnding(output: seq<string>, exitCode: Option<int>)

  datatype Session = Session(
    debug: DebugState,
    generation: nat,
    connected: bool,
    asks: map<nat, Ask>,   // requests not answered yet
    nextAsk: nat
  ) {
    function Asked(ask: Ask): Session {
      this.(asks := asks[nextAsk := ask], nextAsk := nextAsk + 1)
    }

    function Settled(t: nat): Session {
      this.(asks := asks - {t})
    }

    function Bumped(): Session {
      this.(generation := generation + 1)
    }

    function Showing(debug: DebugState): Session {
      this.(debug := debug)
    }
  }

  const NEW_SESSION := Session(InitialState(map[]), 0, false, map[], 0)

  predicate MayStart(s: Session) {
    s.debug.status == Idle || s.debug.status == Over
  }

  function Started(s: Session): Session {
    if !MayStart(s) then s
    else s.Showing(InitialState(s.debug.breakpoints).(status := Starting)).Asked(ForLaunch)
  }

  function Stopped(s: Session): Session {
    s.Bumped().(connected := false).Showing(InitialState(s.debug.breakpoints))
  }

  // Continue and the steps.
  function Controlled(s: Session): Session {
    if s.debug.status != Paused || s.debug.stop.None? then s
    else s.Bumped().Showing(RunningState(s.debug))
  }

  function FrameSelected(s: Session, frameId: int): Session {
    s.Showing(s.debug.(selectedFrameId := Some(frameId), scopes := [], variables := map[]))
     .Asked(ForScopes(s.generation, frameId))
  }

  function VariablesLoaded(s: Session, reference: int): Session {
    if reference in s.debug.variables then s else s.Asked(ForVariables(s.generation, reference))
  }

  function PausedAt(s: Session, reason: string, threadId: int): Session {
    s.Showing(s.debug.(status := Paused, stop := Some(DebugStop(reason, threadId))))
     .Asked(ForStack(s.generation, threadId))
  }

  function ProgramPaused(s: Session, threadId: Option<int>, reason: string): Session {
    var bumped := s.Bumped();
    match threadId
    case Some(id) => PausedAt(bumped, reason, id)
    case None => bumped.Asked(ForThreads(bumped.generation, reason))
  }

  function ThreadsAnswered(s: Session, ask: Ask, first: Option<int>): Session
    requires ask.ForThreads?
  {
    if first.None? || ask.generation != s.generation then s else PausedAt(s, ask.reason, first.value)
  }

  function StackAnswered(s: Session, ask: Ask, frames: seq<DebugFrame>): Session
    requires ask.ForStack?
  {
    if ask.generation != s.generation then s
    else
      var shown := s.Showing(s.debug.(frames := frames,
                                      selectedFrameId := if frames == [] then None else Some(frames[0].id)));
      if frames == [] then shown else FrameSelected(shown, frames[0].id)
  }

  // The first scope that is not expensive.
  function FirstCheap(scopes: seq<DebugScope>): (first: Option<DebugScope>)
    ensures first.None? ==> forall i :: 0 <= i < |scopes| ==> scopes[i].expensive
    ensures first.Some? ==> exists i ::
              && 0 <= i < |scopes| && scopes[i] == first.value && !scopes[i].expensive
              && forall k :: 0 <= k < i ==> scopes[k].expensive
  {
    if scopes == [] then None else if !scopes[0].expensive then Some(scopes[0]) else FirstCheap(scopes[1..])
  }

  function ScopesAnswered(s: Session, ask: Ask, scopes: seq<DebugScope>): Session
    requires ask.ForScopes?
  {
    if ask.generation != s.generation then s
    else
      var shown := s.Showing(s.debug.(scopes := scopes));
      var first := FirstCheap(scopes);
      if first.None? then shown else VariablesLoaded(shown, first.value.variablesReference)
  }

  function VariablesAnswered(s: Session, ask: Ask, variables: seq<DebugVariable>): Session
    requires ask.ForVariables?
  {
    if ask.generation != s.generation then s
    else s.Showing(s.debug.(variables := s.debug.variables[ask.reference := variables]))
  }

  function LaunchAnswered(s: Session, succeeded: bool): Session {
    if !succeeded then Stopped(s)
    else if s.debug.status == Starting then s.(connected := true).Showing(s.debug.(status := Running))
    else s.(connected := true)
  }

  function LinesAt(breakpoints: map<string, set<int>>, path: string): set<int> {
    if path in breakpoints then breakpoints[path] else {}
  }

  // The breakpoint on a line set, or cleared if it was; a file without any is not listed.
  function BreakpointToggled(s: Session, path: string, line: int): Session {
    var lines := LinesAt(s.debug.breakpoints, path);
    var toggled := if line in lines then lines - {line} else lines + {line};
    s.Showing(s.debug.(breakpoints :=
      if toggled == {} then s.debug.breakpoints - {path} else s.debug.breakpoints[path := toggled]))
  }

  function ProgramContinued(s: Session): Session {
    s.Bumped().Showing(RunningState(s.debug))
  }

  function ProgramEnded(s: Session): Session {
    Stopped(s).Asked(ForEnding(s.debug.output, s.debug.exitCode))
  }

  // -- Runs ------------------------------------------------------------------------------

  datatype Step =
    | Start
    | Stop
    | Control
    | SelectFrame(frameId: int)
    | LoadVariables(reference: int)
    | ToggleBreakpoint(path: string, line: int)
    | ProgramStops(threadId: Option<int>, reason: string)
    | ProgramContinues
    | ProgramWrites(text: string)
    | ProgramExits(code: int)
    | ProgramEnds
    | Launched(t: nat, succeeded: bool)
    | ThreadsAre(t: nat, first: Option<int>)
    | StackIs(t: nat, frames: seq<DebugFrame>)
    | ScopesAre(t: nat, scopes: seq<DebugScope>)
    | VariablesAre(t: nat, variables: seq<DebugVariable>)
    | Ended(t: nat)
    | Refused(t: nat)

  // What a step settles, if it is an answer.
  function Settles(step: Step): Option<nat> {
    match step
    case Launched(t, _) => Some(t)
    case ThreadsAre(t, _) => Some(t)
    case StackIs(t, _) => Some(t)
    case ScopesAre(t, _) => Some(t)
    case VariablesAre(t, _) => Some(t)
    case Ended(t) => Some(t)
    case Refused(t) => Some(t)
    case _ => None
  }

  predicate Enabled(s: Session, step: Step) {
    match step
    case Launched(t, _) => t in s.asks && s.asks[t].ForLaunch?
    case ThreadsAre(t, _) => t in s.asks && s.asks[t].ForThreads?
    case StackIs(t, _) => t in s.asks && s.asks[t].ForStack?
    case ScopesAre(t, _) => t in s.asks && s.asks[t].ForScopes?
    case VariablesAre(t, _) => t in s.asks && s.asks[t].ForVariables?
    case Ended(t) => t in s.asks && s.asks[t].ForEnding?
    case Refused(t) => t in s.asks && !s.asks[t].ForLaunch? && !s.asks[t].ForEnding?
    case _ => true
  }

  function Next(s: Session, step: Step): Session
    requires Enabled(s, step)
  {
    match step
    case Start => Started(s)
    case Stop => Stopped(s)
    case Control => Controlled(s)
    case SelectFrame(frameId) => FrameSelected(s, frameId)
    case LoadVariables(reference) => VariablesLoaded(s, reference)
    case ToggleBreakpoint(path, line) => BreakpointToggled(s, path, line)
    case ProgramStops(threadId, reason) => ProgramPaused(s, threadId, reason)
    case ProgramContinues => ProgramContinued(s)
    case ProgramWrites(text) => s.Showing(s.debug.(output := LastLines(s.debug.output + [text])))
    case ProgramExits(code) => s.Showing(s.debug.(exitCode := Some(code)))
    case ProgramEnds => ProgramEnded(s)
    case Launched(t, succeeded) => LaunchAnswered(s.Settled(t), succeeded)
    case ThreadsAre(t, first) => ThreadsAnswered(s.Settled(t), s.asks[t], first)
    case StackIs(t, frames) => StackAnswered(s.Settled(t), s.asks[t], frames)
    case ScopesAre(t, scopes) => ScopesAnswered(s.Settled(t), s.asks[t], scopes)
    case VariablesAre(t, variables) => VariablesAnswered(s.Settled(t), s.asks[t], variables)
    case Ended(t) =>
      s.Settled(t).Showing(s.debug.(status := Over, output := s.asks[t].output, exitCode := s.asks[t].exitCode))
    case Refused(t) => s.Settled(t)
  }

  // The session after some events, passing over what can't come next.
  function After(events: seq<Step>): Session {
    if events == [] then NEW_SESSION
    else
      var before, last := After(events[..|events| - 1]), events[|events| - 1];
      if Enabled(before, last) then Next(before, last) else before
  }

  // The program runs on, pauses anew, or the session ends.
  predicate RunsOn(s: Session, step: Step) {
    match step
    case Stop => true
    case Control => s.debug.status == Paused && s.debug.stop.Some?
    case ProgramStops(_, _) => true
    case ProgramContinues => true
    case ProgramEnds => true
    case Launched(_, succeeded) => !succeeded
    case _ => false
  }

  ghost predicate IsRun(states: seq<Session>, steps: seq<Step>) {
    && |states| == |steps| + 1
    && states[0] == NEW_SESSION
    && forall i: nat :: i < |steps| ==> Goes(states, steps, i)
  }

  ghost predicate Goes(states: seq<Session>, steps: seq<Step>, i: nat)
    requires |states| > |steps| > i
  {
    Enabled(states[i], steps[i]) && states[i + 1] == Next(states[i], steps[i])
  }

  // Such a session is the last of a run.
  lemma {:induction false} AfterIsRun(events: seq<Step>) returns (states: seq<Session>, steps: seq<Step>)
    ensures IsRun(states, steps) && states[|steps|] == After(events)
  {
    if events == [] {
      states, steps := [NEW_SESSION], [];
    } else {
      var last := events[|events| - 1];
      states, steps := AfterIsRun(events[..|events| - 1]);
      if Enabled(states[|steps|], last) {
        RunSnoc(states, steps, last);
        states, steps := states + [Next(states[|steps|], last)], steps + [last];
      }
    }
  }

  lemma RunSnoc(states: seq<Session>, steps: seq<Step>, step: Step)
    requires IsRun(states, steps) && Enabled(states[|steps|], step)
    ensures IsRun(states + [Next(states[|steps|], step)], steps + [step])
  {
    var longer, more := states + [Next(states[|steps|], step)], steps + [step];
    forall i: nat | i < |more|
      ensures Goes(longer, more, i)
    {
      if i < |steps| {
        assert Goes(states, steps, i);
      }
    }
  }

  function GenerationOf(ask: Ask): Option<nat> {
    match ask
    case ForThreads(generation, _) => Some(generation)
    case ForStack(generation, _) => Some(generation)
    case ForScopes(generation, _) => Some(generation)
    case ForVariables(generation, _) => Some(generation)
    case _ => None
  }

  // It has a number given out before, and no generation to come.
  predicate AskIsOld(s: Session, t: nat)
    requires t in s.asks
  {
    t < s.nextAsk && (GenerationOf(s.asks[t]).Some? ==> GenerationOf(s.asks[t]).value <= s.generation)
  }

  ghost predicate Inv(s: Session) {
    forall t :: t in s.asks ==> AskIsOld(s, t)
  }

  // The counter moves exactly when the program runs on.
  lemma StepCounts(s: Session, step: Step)
    requires Enabled(s, step)
    ensures Next(s, step).generation == s.generation + if RunsOn(s, step) then 1 else 0
  {
  }

  // A request keeps its question until it is answered; a new one carries the
  // current generation.
  lemma StepKeepsAsks(s: Session, step: Step, t: nat)
    requires Enabled(s, step) && t in Next(s, step).asks
    requires s.nextAsk !in s.asks
    ensures t in s.asks ==> Next(s, step).asks[t] == s.asks[t]
    ensures t !in s.asks ==> t == s.nextAsk < Next(s, step).nextAsk
    ensures t !in s.asks && GenerationOf(Next(s, step).asks[t]).Some? ==>
              GenerationOf(Next(s, step).asks[t]) == Some(Next(s, step).generation)
  {
  }

  lemma NextIsFresh(s: Session)
    requires Inv(s)
    ensures s.nextAsk !in s.asks
  {
    forall t | t in s.asks
      ensures t != s.nextAsk
    {
      assert AskIsOld(s, t);
    }
  }

  lemma StepKeepsNumbers(s: Session, step: Step)
    requires Enabled(s, step)
    ensures s.nextAsk <= Next(s, step).nextAsk
  {
  }

  lemma StepKeepsInv(s: Session, step: Step)
    requires Inv(s) && Enabled(s, step)
    ensures Inv(Next(s, step))
  {
    StepKeepsNumbers(s, step);
    StepCounts(s, step);
    NextIsFresh(s);
    forall t | t in Next(s, step).asks
      ensures AskIsOld(Next(s, step), t)
    {
      assert t in s.asks ==> AskIsOld(s, t);
      StepKeepsAsks(s, step, t);
    }
  }

  // A request asked before is still open only if it was open.
  lemma OpenBefore(s: Session, step: Step, t: nat)
    requires Inv(s) && Enabled(s, step) && t in Next(s, step).asks && t < s.nextAsk
    ensures t in s.asks && Next(s, step).asks[t] == s.asks[t]
  {
    NextIsFresh(s);
    StepKeepsAsks(s, step, t);
  }

  lemma {:induction false} RunKeepsInv(states: seq<Session>, steps: seq<Step>, i: nat)
    requires IsRun(states, steps) && i <= |steps|
    ensures Inv(states[i])
  {
    if i > 0 {
      RunKeepsInv(states, steps, i - 1);
      assert Goes(states, steps, i - 1);
      StepKeepsInv(states[i - 1], steps[i - 1]);
    }
  }

  // A run in which request `t` was asked by step `i` and is still open at `j`.
  ghost predicate AskedAt(states: seq<Session>, steps: seq<Step>, t: nat, i: nat, j: nat) {
    && IsRun(states, steps) && i < j <= |steps|
    && t !in states[i].asks && t in states[i + 1].asks && t in states[j].asks
  }

  // Numbers are not given twice: an open request was open all along.
  lemma AskWasOpen(states: seq<Session>, steps: seq<Step>, t: nat, i: nat, j: nat)
    requires AskedAt(states, steps, t, i, j) && i + 1 < j
    ensures t in states[j - 1].asks && states[j].asks[t] == states[j - 1].asks[t]
  {
    assert t < states[i + 1].nextAsk by {
      RunKeepsInv(states, steps, i + 1);
      assert AskIsOld(states[i + 1], t);
    }
    RunKeepsInv(states, steps, j - 1);
    NextAskGrows(states, steps, i + 1, j - 1);
    assert Goes(states, steps, j - 1);
    OpenBefore(states[j - 1], steps[j - 1], t);
  }

  lemma {:induction false} AskStays(states: seq<Session>, steps: seq<Step>, t: nat, i: nat, j: nat)
    requires AskedAt(states, steps, t, i, j)
    ensures states[j].asks[t] == states[i + 1].asks[t]
    decreases j
  {
    if i + 1 < j {
      AskWasOpen(states, steps, t, i, j);
      AskStays(states, steps, t, i, j - 1);
    }
  }

  lemma {:induction false} NextAskGrows(states: seq<Session>, steps: seq<Step>, i: nat, j: nat)
    requires IsRun(states, steps) && i <= j <= |steps|
    ensures states[i].nextAsk <= states[j].nextAsk
    decreases j
  {
    if i < j {
      NextAskGrows(states, steps, i, j - 1);
      assert Goes(states, steps, j - 1);
      StepKeepsNumbers(states[j - 1], steps[j - 1]);
    }
  }

  ghost predicate RanOn(states: seq<Session>, steps: seq<Step>, i: nat, j: nat)
    requires |states| > |steps| >= j
  {
    exists k :: i <= k < j && RunsOn(states[k], steps[k])
  }

  lemma {:induction false} GenerationTells(states: seq<Session>, steps: seq<Step>, i: nat, j: nat)
    requires IsRun(states, steps) && i <= j <= |steps|
    ensures states[i].generation <= states[j].generation
    ensures states[i].generation == states[j].generation <==> !RanOn(states, steps, i, j)
    decreases j
  {
    if i < j {
      GenerationTells(states, steps, i, j - 1);
      assert Goes(states, steps, j - 1);
      StepCounts(states[j - 1], steps[j - 1]);
      if RanOn(states, steps, i, j - 1) {
        var k :| i <= k < j - 1 && RunsOn(states[k], steps[k]);
        assert RanOn(states, steps, i, j);
      }
      if RunsOn(states[j - 1], steps[j - 1]) {
        assert RanOn(states, steps, i, j);
      }
    }
  }

  // Whether an answer is about an older pause is told exactly: its request's
  // generation is the session's if and only if the program has not run on, paused
  // anew or ended since it was asked.
  lemma AnswerIsCurrentIff(states: seq<Session>, steps: seq<Step>, t: nat, i: nat, j: nat)
    requires AskedAt(states, steps, t, i, j) && GenerationOf(states[j].asks[t]).Some?
    ensures GenerationOf(states[j].asks[t]) == Some(states[j].generation) <==> !RanOn(states, steps, i + 1, j)
  {
    AskStays(states, steps, t, i, j);
    RunKeepsInv(states, steps, i);
    assert Goes(states, steps, i);
    NextIsFresh(states[i]);
    StepKeepsAsks(states[i], steps[i], t);
    GenerationTells(states, steps, i + 1, j);
  }

  predicate IsAnswer(step: Step) {
    || step.Launched? || step.ThreadsAre? || step.StackIs? || step.ScopesAre? || step.VariablesAre?
    || step.Ended? || step.Refused?
  }

  // A request is answered once, and nothing else is answered for it.
  lemma {:induction false} AnsweredOnce(states: seq<Session>, steps: seq<Step>, t: nat, i: nat, j: nat)
    requires IsRun(states, steps) && i < j <= |steps| && IsAnswer(steps[i]) && steps[i].t == t
    ensures t in states[i].asks && t !in states[j].asks
    decreases j
  {
    RunKeepsInv(states, steps, i);
    RunKeepsInv(states, steps, j - 1);
    NextAskGrows(states, steps, i, j - 1);
    assert Goes(states, steps, i) && Goes(states, steps, j - 1);
    assert AskIsOld(states[i], t);
    NextIsFresh(states[j - 1]);
    if i + 1 < j {
      AnsweredOnce(states, steps, t, i, j - 1);
      if t in states[j].asks {
        StepKeepsAsks(states[j - 1], steps[j - 1], t);
      }
    } else {
      AnswerSettles(states[i], steps[i]);
    }
  }

  lemma AnswerSettles(s: Session, step: Step)
    requires Inv(s) && Enabled(s, step) && IsAnswer(step)
    ensures step.t !in Next(s, step).asks
  {
    NextIsFresh(s);
    assert AskIsOld(s, step.t);
  }

  // An answer to `threads`, `stackTrace`, `scopes` or `variables` changes what is
  // shown only if no continue, step, new pause or stop happened since it was
  // asked; a stale one asks nothing further either.
  lemma StaleAnswersChangeNothing(states: seq<Session>, steps: seq<Step>, t: nat, i: nat, j: nat)
    requires AskedAt(states, steps, t, i, j) && GenerationOf(states[j].asks[t]).Some?
    requires j < |steps| && IsAnswer(steps[j]) && steps[j].t == t
    requires RanOn(states, steps, i + 1, j)
    ensures states[j + 1] == states[j].Settled(t)
  {
    AnswerIsCurrentIff(states, steps, t, i, j);
    assert Goes(states, steps, j);
  }

  // -- What an answer that is current shows ---------------------------------------------------

  // The request a step makes, of those that carry a generation.
  ghost predicate Asks(s: Session, step: Step, ask: Ask) {
    match step
    case SelectFrame(frameId) => ask == ForScopes(s.generation, frameId)
    case LoadVariables(reference) => ask == ForVariables(s.generation, reference)
    case ProgramStops(threadId, reason) =>
      (match threadId
       case Some(id) => ask == ForStack(s.generation + 1, id)
       case None => ask == ForThreads(s.generation + 1, reason))
    case ThreadsAre(_, first) => first.Some? && ask == ForStack(s.generation, first.value)
    case StackIs(_, frames) => frames != [] && ask == ForScopes(s.generation, frames[0].id)
    case ScopesAre(_, scopes) =>
      exists i ::
        && 0 <= i < |scopes| && !scopes[i].expensive && (forall k :: 0 <= k < i ==> scopes[k].expensive)
        && ask == ForVariables(s.generation, scopes[i].variablesReference)
    case _ => false
  }

  // A request is about what the step that made it was about.
  lemma AskIsAboutItsStep(states: seq<Session>, steps: seq<Step>, t: nat, i: nat, j: nat)
    requires AskedAt(states, steps, t, i, j) && GenerationOf(states[j].asks[t]).Some?
    ensures Asks(states[i], steps[i], states[j].asks[t])
  {
    AskStays(states, steps, t, i, j);
    RunKeepsInv(states, steps, i);
    assert Goes(states, steps, i);
    NextIsFresh(states[i]);
    StepKeepsAsks(states[i], steps[i], t);
  }

  // `ask` is the one request made between the two.
  predicate MakesAsk(before: Session, s: Session, ask: Ask) {
    s.nextAsk == before.nextAsk + 1 && before.nextAsk in s.asks && s.asks[before.nextAsk] == ask
  }

  // A frame selected has its scopes asked for, and none of the last one's are shown.
  lemma SelectionAsks(s: Session, frameId: int)
    ensures var next := Next(s, SelectFrame(frameId));
            && next.debug == s.debug.(selectedFrameId := Some(frameId), scopes := [], variables := map[])
            && next.generation == s.generation && MakesAsk(s, next, ForScopes(s.generation, frameId))
  {
  }

  // Variables that are there are not asked for again; others are, under the current
  // generation.
  lemma LoadsOnce(s: Session, reference: int)
    ensures var next := Next(s, LoadVariables(reference));
            && next.debug == s.debug
            && (reference in s.debug.variables ==> next == s)
            && (reference !in s.debug.variables ==> MakesAsk(s, next, ForVariables(s.generation, reference)))
  {
  }

  // A session starts when it is idle or over, and asks for the launch; else nothing
  // happens.
  lemma StartsIff(s: Session)
    ensures var next := Next(s, Start);
            if s.debug.status == Idle || s.debug.status == Over
            then next.debug.status == Starting && MakesAsk(s, next, ForLaunch)
            else next == s
  {
  }

  // Scopes that arrive while their pause goes on are shown, and the variables of the
  // first that is not expensive asked for.
  lemma ScopesAreShown(states: seq<Session>, steps: seq<Step>, t: nat, i: nat, j: nat, k: nat)
    requires AskedAt(states, steps, t, i, j) && j < |steps|
    requires steps[j].ScopesAre? && steps[j].t == t && !RanOn(states, steps, i + 1, j)
    requires k < |steps[j].scopes| && !steps[j].scopes[k].expensive
    requires forall m :: 0 <= m < k ==> steps[j].scopes[m].expensive
    ensures states[j + 1].debug == states[j].debug.(scopes := steps[j].scopes)
    ensures var reference := steps[j].scopes[k].variablesReference;
            reference !in states[j].debug.variables ==>
              MakesAsk(states[j], states[j + 1], ForVariables(states[j].generation, reference))
  {
    assert Goes(states, steps, j);
    AnswerIsCurrentIff(states, steps, t, i, j);
    assert FirstCheap(steps[j].scopes) == Some(steps[j].scopes[k]);
  }

  // Frames that arrive while the pause they were asked in goes on are shown, with the
  // first one selected.
  lemma FramesAreShown(states: seq<Session>, steps: seq<Step>, t: nat, i: nat, j: nat)
    requires AskedAt(states, steps, t, i, j) && j < |steps|
    requires steps[j].StackIs? && steps[j].t == t && !RanOn(states, steps, i + 1, j)
    ensures var debug, frames := states[j + 1].debug, steps[j].frames;
            && debug.frames == frames && debug.status == states[j].debug.status
            && debug.selectedFrameId == (if frames == [] then None else Some(frames[0].id))
            && (frames != [] ==> MakesAsk(states[j], states[j + 1], ForScopes(states[j].generation, frames[0].id)))
  {
    assert Goes(states, steps, j);
    AnswerIsCurrentIff(states, steps, t, i, j);
  }

  // The first of the threads that arrive is the one that paused, for the reason told.
  lemma ThreadPauses(states: seq<Session>, steps: seq<Step>, t: nat, i: nat, j: nat)
    requires AskedAt(states, steps, t, i, j) && j < |steps|
    requires steps[j].ThreadsAre? && steps[j].t == t && !RanOn(states, steps, i + 1, j)
    ensures steps[i].ProgramStops? && steps[i].threadId == None
    ensures steps[j].first.None? ==> states[j + 1] == states[j].Settled(t)
    ensures steps[j].first.Some? ==>
              && states[j + 1].debug.status == Paused
              && states[j + 1].debug.stop == Some(DebugStop(steps[i].reason, steps[j].first.value))
  {
    assert Goes(states, steps, j);
    AnswerIsCurrentIff(states, steps, t, i, j);
    AskIsAboutItsStep(states, steps, t, i, j);
  }

  // Variables that arrive stand under the reference they were asked for; the others
  // stay.
  lemma VariablesAreShown(states: seq<Session>, steps: seq<Step>, t: nat, i: nat, j: nat)
    requires AskedAt(states, steps, t, i, j) && j < |steps|
    requires steps[j].VariablesAre? && steps[j].t == t && Enabled(states[j], steps[j])
    requires !RanOn(states, steps, i + 1, j)
    ensures states[j + 1].debug == states[j].debug.(
              variables := states[j].debug.variables[states[j].asks[t].reference := steps[j].variables])
    ensures steps[i].LoadVariables? ==> states[j].asks[t].reference == steps[i].reference
  {
    assert Goes(states, steps, j);
    AnswerIsCurrentIff(states, steps, t, i, j);
    AskIsAboutItsStep(states, steps, t, i, j);
  }

  // A pause whose thread is told is of that thread, for the reason told.
  lemma PauseIsShown(states: seq<Session>, steps: seq<Step>, i: nat)
    requires IsRun(states, steps) && i < |steps| && steps[i].ProgramStops? && steps[i].threadId.Some?
    ensures states[i + 1].debug.status == Paused
    ensures states[i + 1].debug.stop == Some(DebugStop(steps[i].reason, steps[i].threadId.value))
    ensures var next := states[i + 1];
            && states[i].nextAsk in next.asks
            && next.asks[states[i].nextAsk] == ForStack(next.generation, steps[i].threadId.value)
  {
    assert Goes(states, steps, i);
  }

  // A step that lists other frames, or none.
  predicate ReplacesFrames(s: Session, step: Step) {
    || (RunsOn(s, step) && !step.ProgramStops?)
    || (step.Start? && MayStart(s))
    || (step.StackIs? && step.t in s.asks && GenerationOf(s.asks[step.t]) == Some(s.generation))
  }

  // Until then the frames stay; a pause anew leaves them till its own arrive.
  lemma {:induction false} FramesStay(states: seq<Session>, steps: seq<Step>, i: nat, j: nat)
    requires IsRun(states, steps) && i <= j <= |steps|
    requires forall m :: i <= m < j ==> !ReplacesFrames(states[m], steps[m])
    ensures states[j].debug.frames == states[i].debug.frames
    decreases j
  {
    if i < j {
      FramesStay(states, steps, i, j - 1);
      assert Goes(states, steps, j - 1);
    }
  }

  // `frame` is listed at `i`, none of its id before.
  ghost predicate IsFirstFrame(frames: seq<DebugFrame>, frame: DebugFrame, i: nat) {
    i < |frames| && frames[i] == frame && forall k :: 0 <= k < i ==> frames[k].id != frame.id
  }

  // The frame whose line is marked: the first listed with the selected id, else the
  // innermost one.
  ghost predicate IsMarked(debug: DebugState, frame: DebugFrame) {
    || (debug.selectedFrameId == Some(frame.id) && exists i: nat :: IsFirstFrame(debug.frames, frame, i))
    || (&& debug.frames != [] && frame == debug.frames[0]
        && forall k :: 0 <= k < |debug.frames| ==> Some(debug.frames[k].id) != debug.selectedFrameId)
  }

  // A line is marked in a file exactly when the program is paused and the marked
  // frame is in that file, on that line.
  lemma PausedLineIff(debug: DebugState, path: string, line: int)
    ensures PausedLine(debug, path) == Some(line) <==>
            && debug.status == Paused
            && exists frame :: IsMarked(debug, frame) && frame.path == Some(path) && frame.line == line
  {
    MarkedIsSelected(debug);
    if debug.frames != [] {
      var frame := SelectedFrame(debug).value;
      assert IsMarked(debug, frame);
    }
  }

  lemma MarkedIsSelected(debug: DebugState)
    ensures forall frame :: IsMarked(debug, frame) <==> SelectedFrame(debug) == Some(frame)
  {
    FindsFrame(debug.frames, debug.selectedFrameId);
  }

  lemma {:induction false} FindsFrame(frames: seq<DebugFrame>, id: Option<int>)
    ensures FindFrame(frames, id).None? <==> forall k :: 0 <= k < |frames| ==> Some(frames[k].id) != id
    ensures forall frame :: FindFrame(frames, id) == Some(frame) <==>
              id == Some(frame.id) && exists i: nat :: IsFirstFrame(frames, frame, i)
  {
    if frames != [] {
      var rest := frames[1..];
      FindsFrame(rest, id);
      assert forall k :: 1 <= k < |frames| ==> frames[k] == rest[k - 1];
      forall frame: DebugFrame | id == Some(frame.id)
        ensures FindFrame(frames, id) == Some(frame) <==> exists i: nat :: IsFirstFrame(frames, frame, i)
      {
        FirstFrameMoves(frames, frame);
      }
    }
  }

  lemma FirstFrameMoves(frames: seq<DebugFrame>, frame: DebugFrame)
    requires frames != []
    ensures (exists i: nat :: IsFirstFrame(frames, frame, i)) <==>
            if frames[0].id == frame.id then frames[0] == frame
            else exists i: nat :: IsFirstFrame(frames[1..], frame, i)
  {
    var rest := frames[1..];
    if frames[0] == frame {
      assert IsFirstFrame(frames, frame, 0);
    }
    if i: nat :| IsFirstFrame(frames, frame, i) {
      assert i > 0 ==> IsFirstFrame(rest, frame, i - 1);
    }
    if i: nat :| frames[0].id != frame.id && IsFirstFrame(rest, frame, i) {
      assert forall k :: 1 <= k < i + 1 ==> frames[k] == rest[k - 1];
      assert IsFirstFrame(frames, frame, i + 1);
    }
  }

  // -- Scopes and the selected frame -------------------------------------------------------

  // The frame selected last by the steps from `i` on, before `j`; the one selected
  // at `i` if none is.
  function SelectedLast(states: seq<Session>, steps: seq<Step>, i: nat, j: nat): Option<int>
    requires |states| > |steps| >= j >= i
    decreases j
  {
    if i == j then states[i].debug.selectedFrameId
    else match steps[j - 1]
      case SelectFrame(frameId) => Some(frameId)
      case Start => if MayStart(states[j - 1]) then None else SelectedLast(states, steps, i, j - 1)
      case StackIs(t, frames) =>
        if t in states[j - 1].asks && GenerationOf(states[j - 1].asks[t]) == Some(states[j - 1].generation)
        then (if frames == [] then None else Some(frames[0].id))
        else SelectedLast(states, steps, i, j - 1)
      case _ => SelectedLast(states, steps, i, j - 1)
  }

  lemma {:induction false} SelectionStays(states: seq<Session>, steps: seq<Step>, i: nat, j: nat)
    requires IsRun(states, steps) && i <= j <= |steps|
    requires !RanOn(states, steps, i, j)
    ensures states[j].debug.selectedFrameId == SelectedLast(states, steps, i, j)
    decreases j
  {
    if i < j {
      assert !RunsOn(states[j - 1], steps[j - 1]);
      assert !RanOn(states, steps, i, j - 1) by {
        if k :| i <= k < j - 1 && RunsOn(states[k], steps[k]) {
          assert RanOn(states, steps, i, j);
        }
      }
      SelectionStays(states, steps, i, j - 1);
      assert Goes(states, steps, j - 1);
    }
  }

  // The generation does not tell frames apart: scopes that arrive are shown, and
  // they are the selected frame's exactly when no other frame was selected last
  // since they were asked.
  lemma ScopesAreOfSelectedIff(states: seq<Session>, steps: seq<Step>, t: nat, i: nat, j: nat)
    requires AskedAt(states, steps, t, i, j) && j < |steps|
    requires steps[j].ScopesAre? && steps[j].t == t && Enabled(states[j], steps[j])
    requires !RanOn(states, steps, i + 1, j)
    ensures states[j + 1].debug.scopes == steps[j].scopes
    ensures states[j + 1].debug.selectedFrameId == Some(states[j].asks[t].frameId) <==>
            SelectedLast(states, steps, i + 1, j) == Some(states[j].asks[t].frameId)
  {
    AnswerIsCurrentIff(states, steps, t, i, j);
    SelectionStays(states, steps, i + 1, j);
    assert Goes(states, steps, j);
  }

  // Two frames selected, one after the other; then the scopes of the first arrive
  // and are shown with the second, whatever the session.
  lemma ScopesOfAnotherFrame(s: Session, first: int, second: int, scopes: seq<DebugScope>)
    requires s.nextAsk !in s.asks
    ensures var selected := Next(Next(s, SelectFrame(first)), SelectFrame(second));
            && Enabled(selected, ScopesAre(s.nextAsk, scopes))
            && selected.asks[s.nextAsk] == ForScopes(s.generation, first)
            && var shown := Next(selected, ScopesAre(s.nextAsk, scopes)).debug;
               shown.scopes == scopes && shown.selectedFrameId == Some(second)
  {
  }

  // The end of a program is noted after the adapter was let go: a session
  // started meanwhile is noted as over, whatever it was before.
  lemma EndingOverwritesANewStart(s: Session)
    ensures var restarted := Next(Next(s, ProgramEnds), Start);
            && restarted.debug.status == Starting
            && Enabled(restarted, Ended(s.nextAsk))
            && Next(restarted, Ended(s.nextAsk)).debug.status == Over
  {
    var ended := Next(s, ProgramEnds);
    assert ended.asks[s.nextAsk].ForEnding? && ended.debug.status == Idle;
    assert Next(ended, Start).asks[s.nextAsk].ForEnding?;
  }

  // A step that resets the session.
  predicate MakesIdle(step: Step) {
    step.Stop? || step.ProgramEnds? || (step.Launched? && !step.succeeded)
  }

  // A step that shows an idle session as another one.
  predicate LeavesIdle(s: Session, step: Step) {
    match step
    case Start => true
    case ProgramContinues => true
    case ProgramStops(threadId, _) => threadId.Some?
    case ThreadsAre(t, first) => t in s.asks && GenerationOf(s.asks[t]) == Some(s.generation) && first.Some?
    case Ended(_) => true
    case _ => false
  }

  lemma StepIsIdleIff(s: Session, step: Step)
    requires Enabled(s, step)
    ensures Next(s, step).debug.status == Idle <==>
            MakesIdle(step) || (s.debug.status == Idle && !LeavesIdle(s, step))
  {
  }

  // The end of a program is noted on the session it left exactly when the program
  // did not run on, pause or end once more and no step showed another session: the
  // generation has to be the same, not the status alone.
  lemma {:induction false} EndingIsNotedOnItsOwn(states: seq<Session>, steps: seq<Step>, i: nat, j: nat)
    requires IsRun(states, steps) && i < j <= |steps| && steps[i] == ProgramEnds
    ensures states[j].debug.status == Idle && states[j].generation == states[i + 1].generation <==>
            !RanOn(states, steps, i + 1, j) && forall m :: i < m < j ==> !LeavesIdle(states[m], steps[m])
    decreases j
  {
    assert Goes(states, steps, j - 1);
    GenerationTells(states, steps, i + 1, j);
    if i + 1 < j {
      EndingIsNotedOnItsOwn(states, steps, i, j - 1);
      GenerationTells(states, steps, i + 1, j - 1);
      StepIsIdleIff(states[j - 1], steps[j - 1]);
      StepCounts(states[j - 1], steps[j - 1]);
    }
  }

  // An idle session need not be that one: started and stopped since, it is noted
  // as over too, with the output of the program before, whatever session it was.
  lemma EndingOverwritesAnIdleSession(s: Session)
    ensures var again := Next(Next(Next(s, ProgramEnds), Start), Stop);
            && again.debug.status == Idle && again.generation > Next(s, ProgramEnds).generation
            && Enabled(again, Ended(s.nextAsk))
            && var noted := Next(again, Ended(s.nextAsk)).debug;
               noted.status == Over && noted.output == s.debug.output && noted.exitCode == s.debug.exitCode
  {
    var ended := Next(s, ProgramEnds);
    assert ended.asks[s.nextAsk] == ForEnding(s.debug.output, s.debug.exitCode) && ended.debug.status == Idle;
    assert Next(ended, Start).asks[s.nextAsk] == ended.asks[s.nextAsk];
  }

  // -- Launches ----------------------------------------------------------------------------

  // A start that is not passed over.
  predicate IsStart(s: Session, step: Step) {
    step.Start? && MayStart(s)
  }

  // The step that started the session shown at `j`; none when it was reset since.
  function StartOf(states: seq<Session>, steps: seq<Step>, j: nat): (start: Option<nat>)
    requires |states| > |steps| >= j
    ensures start.Some? ==> start.value < j
    decreases j
  {
    if j == 0 then None
    else if IsStart(states[j - 1], steps[j - 1]) then Some(j - 1)
    else if MakesIdle(steps[j - 1]) then None
    else StartOf(states, steps, j - 1)
  }

  lemma {:induction false} StartOfIff(states: seq<Session>, steps: seq<Step>, i: nat, j: nat)
    requires |states| > |steps| >= j > i && IsStart(states[i], steps[i])
    ensures StartOf(states, steps, j) == Some(i) <==>
            forall m :: i < m < j ==> !MakesIdle(steps[m]) && !IsStart(states[m], steps[m])
    decreases j
  {
    if i + 1 < j {
      StartOfIff(states, steps, i, j - 1);
    }
  }

  // Only a session that a start began, and that was not reset, is starting.
  lemma {:induction false} StartingHasAStart(states: seq<Session>, steps: seq<Step>, j: nat)
    requires IsRun(states, steps) && j <= |steps| && states[j].debug.status == Starting
    ensures StartOf(states, steps, j).Some?
  {
    if j > 0 {
      assert Goes(states, steps, j - 1);
      if !IsStart(states[j - 1], steps[j - 1]) {
        StartingHasAStart(states, steps, j - 1);
      }
    }
  }

  // The outcome of a launch asked at `i` is of the session it was asked for if and
  // only if that was neither reset nor started anew since. Whichever session it
  // meets, a refusal resets that one, and a success has it running if it was starting.
  lemma LaunchIsOfItsSessionIff(states: seq<Session>, steps: seq<Step>, t: nat, i: nat, j: nat)
    requires AskedAt(states, steps, t, i, j) && states[j].asks[t].ForLaunch?
    requires j < |steps| && steps[j].Launched? && steps[j].t == t
    ensures IsStart(states[i], steps[i])
    ensures StartOf(states, steps, j) == Some(i) <==>
            forall m :: i < m < j ==> !MakesIdle(steps[m]) && !IsStart(states[m], steps[m])
    ensures !steps[j].succeeded ==>
              states[j + 1].debug.status == Idle && StartOf(states, steps, j + 1) == None
    ensures steps[j].succeeded && states[j].debug.status == Starting ==>
              && states[j + 1].debug.status == Running
              && StartOf(states, steps, j).Some? && StartOf(states, steps, j + 1) == StartOf(states, steps, j)
  {
    AskStays(states, steps, t, i, j);
    assert Goes(states, steps, i) && Goes(states, steps, j);
    StartOfIff(states, steps, i, j);
    if states[j].debug.status == Starting {
      StartingHasAStart(states, steps, j);
    }
  }

  // From every session that may start: started, stopped and started again, it is
  // reset by the first launch's refusal, and has the second one running by its success.
  lemma LateLaunchMeetsANewStart(s: Session)
    requires MayStart(s) && s.nextAsk !in s.asks
    ensures var again := Next(Next(Next(s, Start), Stop), Start);
            && again.debug.status == Starting
            && Enabled(again, Launched(s.nextAsk, false)) && Enabled(again, Launched(s.nextAsk, true))
            && Next(again, Launched(s.nextAsk, false)).debug.status == Idle
            && Next(again, Launched(s.nextAsk, true)).debug.status == Running
  {
    var stopped := Next(Next(s, Start), Stop);
    assert stopped.asks[s.nextAsk] == ForLaunch;
    assert Next(stopped, Start).asks[s.nextAsk] == ForLaunch;
  }

  // Stopped and not started again, it is taken for connected while nothing runs.
  lemma LateLaunchConnectsNone(s: Session)
    requires MayStart(s) && s.nextAsk !in s.asks
    ensures var stopped := Next(Next(s, Start), Stop);
            && Enabled(stopped, Launched(s.nextAsk, true))
            && var late := Next(stopped, Launched(s.nextAsk, true));
               late.connected && late.debug.status == Idle
  {
  }

  // -- What a session keeps ------------------------------------------------------------------

  // A reset or a start that is taken forgets all but the breakpoints.
  lemma ResetForgets(s: Session, step: Step)
    requires Enabled(s, step) && (MakesIdle(step) || IsStart(s, step))
    ensures Next(s, step).debug ==
            DebugState(if step.Start? then Starting else Idle, s.debug.breakpoints, None, [], None, [], map[], [], None)
    ensures Next(s, step).connected ==> step.Start? && s.connected
  {
  }

  // Whether a line was toggled an odd number of times by the steps before `j`.
  predicate IsToggled(steps: seq<Step>, j: nat, path: string, line: int)
    requires j <= |steps|
  {
    j > 0 && (IsToggled(steps, j - 1, path, line) <==> steps[j - 1] != ToggleBreakpoint(path, line))
  }

  // A line has a breakpoint exactly when it was toggled so, whatever else happened; a
  // file without any is not listed.
  lemma {:induction false} BreakpointIffToggled(states: seq<Session>, steps: seq<Step>, j: nat, path: string, line: int)
    requires IsRun(states, steps) && j <= |steps|
    ensures line in LinesAt(states[j].debug.breakpoints, path) <==> IsToggled(steps, j, path, line)
  {
    if j > 0 {
      BreakpointIffToggled(states, steps, j - 1, path, line);
      assert Goes(states, steps, j - 1);
    }
  }

  lemma {:induction false} ListedHasBreakpoints(states: seq<Session>, steps: seq<Step>, j: nat, path: string)
    requires IsRun(states, steps) && j <= |steps| && path in states[j].debug.breakpoints
    ensures states[j].debug.breakpoints[path] != {}
  {
    if j > 0 {
      assert Goes(states, steps, j - 1);
      if path in states[j - 1].debug.breakpoints {
        ListedHasBreakpoints(states, steps, j - 1, path);
      }
    }
  }

  // The adapter is taken for connected exactly when a launch succeeded and nothing was
  // reset since.
  lemma {:induction false} ConnectedIff(states: seq<Session>, steps: seq<Step>, j: nat)
    requires IsRun(states, steps) && j <= |steps|
    ensures states[j].connected <==> exists k: nat :: k < j && LaunchStands(steps, k, j)
  {
    if j > 0 {
      var last := j - 1;
      ConnectedIff(states, steps, last);
      assert Goes(states, steps, last);
      if k: nat :| k < last && LaunchStands(steps, k, last) {
        assert !MakesIdle(steps[last]) ==> LaunchStands(steps, k, j);
      }
      if k: nat :| k < j && LaunchStands(steps, k, j) {
        assert k < last ==> LaunchStands(steps, k, last);
      }
      assert steps[last].Launched? && steps[last].succeeded ==> LaunchStands(steps, last, j);
    }
  }

  ghost predicate LaunchStands(steps: seq<Step>, k: nat, j: nat)
    requires k < j <= |steps|
  {
    steps[k].Launched? && steps[k].succeeded && forall m :: k < m < j ==> !MakesIdle(steps[m])
  }

  // The lines written by the steps from `i` on, before `j`.
  function Written(steps: seq<Step>, i: nat, j: nat): seq<string>
    requires i <= j <= |steps|
    decreases j
  {
    if i == j then []
    else Written(steps, i, j - 1) + if steps[j - 1].ProgramWrites? then [steps[j - 1].text] else []
  }

  // The last lines, up to two thousand.
  predicate AreLast(lines: seq<string>, all: seq<string>) {
    && |lines| == (if |all| < 2000 then |all| else 2000)
    && lines == all[|all| - |lines|..]
  }

  lemma StepWrites(states: seq<Session>, steps: seq<Step>, j: nat)
    requires IsRun(states, steps) && j < |steps|
    requires !MakesIdle(steps[j]) && !IsStart(states[j], steps[j]) && !steps[j].Ended?
    ensures states[j + 1].debug.output ==
            if steps[j].ProgramWrites? then LastLines(states[j].debug.output + [steps[j].text])
            else states[j].debug.output
  {
    assert Goes(states, steps, j);
  }

  lemma StartWritesNothing(states: seq<Session>, steps: seq<Step>, j: nat)
    requires IsRun(states, steps) && j < |steps| && IsStart(states[j], steps[j])
    ensures states[j + 1].debug.output == []
  {
    assert Goes(states, steps, j);
  }

  // The output is the last lines of what the program wrote since it was started.
  lemma {:induction false} OutputIsWritten(states: seq<Session>, steps: seq<Step>, i: nat, j: nat)
    requires IsRun(states, steps) && i < j <= |steps| && IsStart(states[i], steps[i])
    requires forall m :: i < m < j ==> !MakesIdle(steps[m]) && !IsStart(states[m], steps[m]) && !steps[m].Ended?
    ensures AreLast(states[j].debug.output, Written(steps, i + 1, j))
    decreases j
  {
    if i + 1 < j {
      OutputIsWritten(states, steps, i, j - 1);
      StepWrites(states, steps, j - 1);
      OutputGrows(states[j - 1].debug.output, Written(steps, i + 1, j - 1), steps[j - 1], states[j].debug.output);
    } else {
      StartWritesNothing(states, steps, i);
    }
  }

  lemma OutputGrows(before: seq<string>, all: seq<string>, step: Step, output: seq<string>)
    requires AreLast(before, all)
    requires output == if step.ProgramWrites? then LastLines(before + [step.text]) else before
    ensures AreLast(output, all + if step.ProgramWrites? then [step.text] else [])
  {
    if step.ProgramWrites? {
      LastSnoc(before, all, step.text);
    } else {
      assert all + [] == all;
    }
  }

  lemma LastSnoc(lines: seq<string>, all: seq<string>, line: string)
    requires AreLast(lines, all)
    ensures AreLast(LastLines(lines + [line]), all + [line])
  {
    assert lines + [line] == (all + [line])[|all| - |lines|..];
  }

  lemma ExitIsShown(s: Session, code: int)
    ensures Next(s, ProgramExits(code)) == s.(debug := s.debug.(exitCode := Some(code)))
  {
  }

  // What is noted of a program's end is its output and exit code as they were then.
  lemma EndIsNoted(states: seq<Session>, steps: seq<Step>, t: nat, i: nat, j: nat)
    requires AskedAt(states, steps, t, i, j) && j < |steps| && steps[i] == ProgramEnds && steps[j] == Ended(t)
    ensures var debug := states[j + 1].debug;
            && debug.status == Over && debug.output == states[i].debug.output
            && debug.exitCode == states[i].debug.exitCode
  {
    AskStays(states, steps, t, i, j);
    RunKeepsInv(states, steps, i);
    assert Goes(states, steps, i) && Goes(states, steps, j);
    NextIsFresh(states[i]);
    StepKeepsAsks(states[i], steps[i], t);
  }

  // -- The object whose methods these are ------------------------------------------------

  class DapSession {
    var debug: DebugState
    var generation: nat
    var connected: bool
    var asks: map<nat, Ask>
    var nextAsk: nat

    function Snapshot(): Session
      reads this
    {
      Session(debug, generation, connected, asks, nextAsk)
    }

    constructor ()
      ensures Snapshot() == NEW_SESSION
    {
      debug, generation, connected, asks, nextAsk := InitialState(map[]), 0, false, map[], 0;
    }

    method Request(ask: Ask)
      modifies this
      ensures Snapshot() == old(Snapshot()).Asked(ask)
    {
      asks := asks[nextAsk := ask];
      nextAsk := nextAsk + 1;
    }

    method Stop()
      modifies this
      ensures Snapshot() == Stopped(old(Snapshot()))
    {
      generation := generation + 1;
      connected := false;
      debug := InitialState(debug.breakpoints);
    }

    method Control()
      modifies this
      ensures Snapshot() == Controlled(old(Snapshot()))
    {
      if debug.status != Paused || debug.stop.None? {
        return;
      }
      generation := generation + 1;
      debug := RunningState(debug);
    }

    method SelectFrame(frameId: int)
      modifies this
      ensures Snapshot() == FrameSelected(old(Snapshot()), frameId)
    {
      debug := debug.(selectedFrameId := Some(frameId), scopes := [], variables := map[]);
      Request(ForScopes(generation, frameId));
    }

    method LoadVariables(reference: int)
      modifies this
      ensures Snapshot() == VariablesLoaded(old(Snapshot()), reference)
    {
      if reference in debug.variables {
        return;
      }
      Request(ForVariables(generation, reference));
    }

    method HearStopped(threadId: Option<int>, reason: string)
      modifies this
      ensures Snapshot() == ProgramPaused(old(Snapshot()), threadId, reason)
    {
      generation := generation + 1;
      match threadId
      case Some(id) =>
        debug := debug.(status := Paused, stop := Some(DebugStop(reason, id)));
        Request(ForStack(generation, id));
      case None => Request(ForThreads(generation, reason));
    }

    method Start()
      modifies this
      ensures Snapshot() == Started(old(Snapshot()))
    {
      if debug.status != Idle && debug.status != Over {
        return;
      }
      debug := InitialState(debug.breakpoints).(status := Starting);
      Request(ForLaunch);
    }

    // The launch was answered: a refusal ends the session.
    method HearLaunched(succeeded: bool)
      modifies this
      ensures Snapshot() == LaunchAnswered(old(Snapshot()), succeeded)
    {
      if !succeeded {
        Stop();
        return;
      }
      connected := true;
      if debug.status == Starting {
        debug := debug.(status := Running);
      }
    }

    method ToggleBreakpoint(path: string, line: int)
      modifies this
      ensures Snapshot() == BreakpointToggled(old(Snapshot()), path, line)
    {
      var breakpoints, lines := debug.breakpoints, LinesAt(debug.breakpoints, path);
      if line in lines {
        lines := lines - {line};
      } else {
        lines := lines + {line};
      }
      if lines != {} {
        breakpoints := breakpoints[path := lines];
      } else {
        breakpoints := breakpoints - {path};
      }
      debug := debug.(breakpoints := breakpoints);
    }

    method HearContinued()
      modifies this
      ensures Snapshot() == ProgramContinued(old(Snapshot()))
    {
      generation := generation + 1;
      debug := RunningState(debug);
    }

    method HearTerminated()
      modifies this
      ensures Snapshot() == ProgramEnded(old(Snapshot()))
    {
      var output, exitCode := debug.output, debug.exitCode;
      Stop();
      Request(ForEnding(output, exitCode));
    }

    method HearThreads(ask: Ask, first: Option<int>)
      requires ask.ForThreads?
      modifies this
      ensures Snapshot() == ThreadsAnswered(old(Snapshot()), ask, first)
    {
      if first.None? || ask.generation != generation {
        return;
      }
      debug := debug.(status := Paused, stop := Some(DebugStop(ask.reason, first.value)));
      Request(ForStack(generation, first.value));
    }

    method HearVariables(ask: Ask, variables: seq<DebugVariable>)
      requires ask.ForVariables?
      modifies this
      ensures Snapshot() == VariablesAnswered(old(Snapshot()), ask, variables)
    {
      if ask.generation == generation {
        debug := debug.(variables := debug.variables[ask.reference := variables]);
      }
    }

    method HearFrames(ask: Ask, frames: seq<DebugFrame>)
      requires ask.ForStack?
      modifies this
      ensures Snapshot() == StackAnswered(old(Snapshot()), ask, frames)
    {
      if ask.generation != generation {
        return;
      }
      debug := debug.(frames := frames, selectedFrameId := if frames == [] then None else Some(frames[0].id));
      if frames != [] {
        SelectFrame(frames[0].id);
      }
    }

    method HearScopes(ask: Ask, scopes: seq<DebugScope>)
      requires ask.ForScopes?
      modifies this
      ensures Snapshot() == ScopesAnswered(old(Snapshot()), ask, scopes)
    {
      if ask.generation != generation {
        return;
      }
      debug := debug.(scopes := scopes);
      var first := FirstCheap(scopes);
      if first.Some? {
        LoadVariables(first.value.variablesReference);
      }
    }

    // The request `t` is answered, and so no longer open.
    method Close(t: nat) returns (ask: Ask)
      requires t in asks
      modifies this`asks
      ensures ask == old(asks)[t] && Snapshot() == old(Snapshot()).Settled(t)
    {
      ask := asks[t];
      asks := asks - {t};
    }

    // One stretch of code between two waits.
    method Take(step: Step)
      requires Enabled(Snapshot(), step)
      modifies this
      ensures Snapshot() == Next(old(Snapshot()), step)
    {
      match step
      case Start => Start();
      case Stop => Stop();
      case Control => Control();
      case SelectFrame(frameId) => SelectFrame(frameId);
      case LoadVariables(reference) => LoadVariables(reference);
      case ToggleBreakpoint(path, line) => ToggleBreakpoint(path, line);
      case ProgramStops(threadId, reason) => HearStopped(threadId, reason);
      case ProgramContinues => HearContinued();
      case ProgramWrites(text) => debug := debug.(output := LastLines(debug.output + [text]));
      case ProgramExits(code) => debug := debug.(exitCode := Some(code));
      case ProgramEnds => HearTerminated();
      case _ => TakeAnswer(step);
    }

    method TakeAnswer(step: Step)
      requires Enabled(Snapshot(), step) && Settles(step).Some?
      modifies this
      ensures Snapshot() == Next(old(Snapshot()), step)
    {
      var ask := Close(Settles(step).value);
      match step
      case Launched(_, succeeded) => HearLaunched(succeeded);
      case ThreadsAre(_, first) => HearThreads(ask, first);
      case StackIs(_, frames) => HearFrames(ask, frames);
      case ScopesAre(_, scopes) => HearScopes(ask, scopes);
      case VariablesAre(_, variables) => HearVariables(ask, variables);
      case Ended(_) =>
        debug := debug.(status := Over, output := ask.output, exitCode := ask.exitCode);
      case Refused(_) =>
    }
  }

  // Any calls, events and answers: what can't come next is passed over, and the rest
  // is a run that ends where the object does.
  method RunSession(events: seq<Step>)
    returns (session: DapSession, ghost states: seq<Session>, ghost steps: seq<Step>)
    ensures fresh(session) && session.Snapshot() == After(events)
    ensures IsRun(states, steps) && states[|steps|] == session.Snapshot()
  {
    session := new DapSession();
    for i := 0 to |events|
      invariant fresh(session) && session.Snapshot() == After(events[..i])
    {
      assert events[..i + 1][..i] == events[..i];
      if Enabled(session.Snapshot(), events[i]) {
        session.Take(events[i]);
      }
    }
    assert events[..|events|] == events;
    states, steps := AfterIsRun(events);
  }

  // -- What the panels read ------------------------------------------------------------------

  function FindFrame(frames: seq<DebugFrame>, id: Option<int>): Option<DebugFrame> {
    if frames == [] then None
    else if Some(frames[0].id) == id then Some(frames[0])
    else FindFrame(frames[1..], id)
  }

  // Whose line is marked: the frame that was selected, or the innermost when
  // nothing listed is.
  function SelectedFrame(debug: DebugState): Option<DebugFrame> {
    var found := FindFrame(debug.frames, debug.selectedFrameId);
    if found.Some? then found else if debug.frames != [] then Some(debug.frames[0]) else None
  }

  function PausedLine(debug: DebugState, path: string): Option<int> {
    var frame := SelectedFrame(debug);
    if debug.status == Paused && frame.Some? && frame.value.path == Some(path) then Some(frame.value.line) else None
  }

  // A step after which the program runs again leaves no line marked as the paused one
  // and nothing of the old pause to read.
  lemma RunningOnHidesThePause(s: Session, step: Step, path: string)
    requires Enabled(s, step) && RunsOn(s, step) && !step.ProgramStops?
    ensures var debug := Next(s, step).debug;
            && PausedLine(debug, path) == None && debug.stop == None
            && debug.scopes == [] && debug.variables == map[] && debug.frames == [] && debug.selectedFrameId == None
            && debug.breakpoints == s.debug.breakpoints
  {
  }
}
