// How a language server follows one open document: it is told the text when the
// editor shows it, told it anew when typing stops for a while or an answer is
// wanted, and told when the editor is gone. What runs between two waits is one
// step.
module DocumentSyncs {
  import opened Sequences

  // What the session is asked to tell the server.
  datatype Call =
    | DidOpen(version: nat, text: string)
    | DidChange(version: nat, text: string)

  datatype State = State(
    doc: string,            // the editor's text
    version: nat,
    timer: bool,            // armed
    queue: seq<Call>,       // notifications that wait for the ones before them
    calls: seq<Call>,       // made, in order; only the last may be unsettled
    outcomes: seq<bool>,    // how the settled calls went
    destroyed: bool,
    closed: bool            // `didClose` was called
  )

  function Opened(doc: string): State {
    State(doc, 1, false, [], [DidOpen(1, doc)], [], false, false)
  }

  // -- The steps ------------------------------------------------------------------

  function Edited(s: State, text: string): State {
    s.(doc := text, timer := true)
  }

  // A pending change is queued now.
  function Flushed(s: State): State {
    if s.timer
    then s.(timer := false, version := s.version + 1, queue := s.queue + [DidChange(s.version + 1, s.doc)])
    else s
  }

  function Destroyed(s: State): State {
    Flushed(s).(destroyed := true)
  }

  predicate InFlight(s: State) {
    |s.calls| > |s.outcomes|
  }

  datatype Step =
    | Edit(text: string)
    | Fire
    | Flush
    | Destroy
    | Settle(succeeded: bool)  // the call that was made last resolves or is refused
    | Start                    // the next notification is made
    | Close

  predicate Enabled(s: State, step: Step) {
    match step
    case Edit(_) => !s.destroyed
    case Fire => s.timer
    case Flush => !s.destroyed
    case Destroy => !s.destroyed
    case Settle(_) => InFlight(s)
    case Start => !InFlight(s) && s.queue != []
    case Close => s.destroyed && !s.closed && !InFlight(s) && s.queue == []
  }

  function Next(s: State, step: Step): State
    requires Enabled(s, step)
  {
    match step
    case Edit(text) => Edited(s, text)
    case Fire => Flushed(s)
    case Flush => Flushed(s)
    case Destroy => Destroyed(s)
    case Settle(succeeded) => s.(outcomes := s.outcomes + [succeeded])
    case Start => s.(calls := s.calls + [s.queue[0]], queue := s.queue[1..])
    case Close => s.(closed := true)
  }

  // -- Runs -------------------------------------------------------------------------

  ghost predicate IsRun(states: seq<State>, steps: seq<Step>) {
    && |states| == |steps| + 1
    && (exists doc :: states[0] == Opened(doc))
    && forall i: nat :: i < |steps| ==> Goes(states, steps, i)
  }

  ghost predicate Goes(states: seq<State>, steps: seq<Step>, i: nat)
    requires |states| > |steps| > i
  {
    Enabled(states[i], steps[i]) && states[i + 1] == Next(states[i], steps[i])
  }

  // The state after some events, passing over what can't come next.
  function After(doc: string, events: seq<Step>): State {
    if events == [] then Opened(doc)
    else
      var before, last := After(doc, events[..|events| - 1]), events[|events| - 1];
      if Enabled(before, last) then Next(before, last) else before
  }

  // Such a state is the last of a run.
  lemma {:induction false} AfterIsRun(doc: string, events: seq<Step>)
    returns (states: seq<State>, steps: seq<Step>)
    ensures IsRun(states, steps) && states[|steps|] == After(doc, events)
  {
    if events == [] {
      states, steps := [Opened(doc)], [];
    } else {
      var last := events[|events| - 1];
      states, steps := AfterIsRun(doc, events[..|events| - 1]);
      if Enabled(states[|steps|], last) {
        RunSnoc(states, steps, last);
        states, steps := states + [Next(states[|steps|], last)], steps + [last];
      }
    }
  }

  lemma RunSnoc(states: seq<State>, steps: seq<Step>, step: Step)
    requires IsRun(states, steps) && Enabled(states[|steps|], step)
    ensures IsRun(states + [Next(states[|steps|], step)], steps + [step])
  {
    var longer, more := states + [Next(states[|steps|], step)], steps + [step];
    assert longer[0] == states[0];
    forall i: nat | i < |more|
      ensures Goes(longer, more, i)
    {
      if i < |steps| {
        assert Goes(states, steps, i);
      }
    }
  }

  // Everything said or waiting to be said, in order.
  function Told(s: State): seq<Call> {
    s.calls + s.queue
  }

  ghost predicate InOrder(calls: seq<Call>) {
    && calls != [] && calls[0].DidOpen?
    && (forall i :: 0 <= i < |calls| ==> calls[i].version == i + 1)
    && (forall i :: 1 <= i < |calls| ==> calls[i].DidChange?)
  }

  ghost predicate Inv(s: State) {
    && InOrder(Told(s)) && |Told(s)| == s.version
    && s.calls != [] && |s.outcomes| <= |s.calls| <= |s.outcomes| + 1
    && (!s.timer ==> Told(s)[s.version - 1].text == s.doc)
    && (s.destroyed ==> !s.timer)
    && (s.closed ==> s.destroyed && s.queue == [] && !InFlight(s))
  }

  lemma StepKeepsInv(s: State, step: Step)
    requires Inv(s) && Enabled(s, step)
    ensures Inv(Next(s, step))
    ensures Told(s) <= Told(Next(s, step)) && s.outcomes <= Next(s, step).outcomes
  {
    var next := Next(s, step);
    if step.Start? {
      assert Told(next) == Told(s);
    } else if (step.Fire? || step.Flush? || step.Destroy?) && s.timer {
      assert Told(next) == Told(s) + [DidChange(s.version + 1, s.doc)];
    } else {
      assert Told(next) == Told(s);
    }
  }

  lemma {:induction false} RunKeepsInv(states: seq<State>, steps: seq<Step>, i: nat)
    requires IsRun(states, steps) && i <= |steps|
    ensures Inv(states[i])
  {
    if i > 0 {
      RunKeepsInv(states, steps, i - 1);
      assert Goes(states, steps, i - 1);
      StepKeepsInv(states[i - 1], steps[i - 1]);
    }
  }

  lemma {:induction false} RunExtends(states: seq<State>, steps: seq<Step>, i: nat, j: nat)
    requires IsRun(states, steps) && i <= j <= |steps|
    ensures Told(states[i]) <= Told(states[j]) && states[i].outcomes <= states[j].outcomes
    decreases j
  {
    if i < j {
      RunExtends(states, steps, i, j - 1);
      RunKeepsInv(states, steps, j - 1);
      assert Goes(states, steps, j - 1);
      StepKeepsInv(states[j - 1], steps[j - 1]);
    }
  }

  // -- What the server is told -------------------------------------------------------

  // Open first, then changes with strictly increasing versions; after the close
  // nothing more.
  lemma ToldInOrder(states: seq<State>, steps: seq<Step>, i: nat, j: nat)
    requires IsRun(states, steps) && i <= j <= |steps|
    ensures InOrder(states[i].calls)
    ensures states[i].closed ==> states[j].calls == states[i].calls && states[j].closed
  {
    RunKeepsInv(states, steps, i);
    assert forall k :: 0 <= k < |states[i].calls| ==> Told(states[i])[k] == states[i].calls[k];
    if states[i].closed {
      ClosedStays(states, steps, i, j);
    }
  }

  lemma {:induction false} ClosedStays(states: seq<State>, steps: seq<Step>, i: nat, j: nat)
    requires IsRun(states, steps) && i <= j <= |steps| && states[i].closed
    ensures states[j].calls == states[i].calls && states[j].closed
    decreases j
  {
    if i < j {
      assert Goes(states, steps, j - 1);
      ClosedStays(states, steps, i, j - 1);
      RunKeepsInv(states, steps, j - 1);
    }
  }

  // The editor is gone once it was destroyed, and the server told so once the close was
  // called; nothing else makes it so.
  lemma {:induction false} GoneIff(states: seq<State>, steps: seq<Step>, j: nat)
    requires IsRun(states, steps) && j <= |steps|
    ensures states[j].destroyed <==> Destroy in steps[..j]
    ensures states[j].closed <==> Close in steps[..j]
  {
    if j > 0 {
      GoneIff(states, steps, j - 1);
      assert Goes(states, steps, j - 1);
      assert steps[..j] == steps[..j - 1] + [steps[j - 1]];
    }
  }

  // From then on nothing is typed or flushed, and the close comes at most once, after
  // everything told was settled.
  lemma NothingAfterDestroy(states: seq<State>, steps: seq<Step>, i: nat, j: nat)
    requires IsRun(states, steps) && i < j < |steps| && steps[i] == Destroy
    ensures !steps[j].Edit? && steps[j] != Flush && steps[j] != Fire && steps[j] != Destroy
    ensures steps[j] == Close ==> Close !in steps[..j] && |states[j].outcomes| == states[j].version
  {
    GoneIff(states, steps, j);
    RunKeepsInv(states, steps, j);
    assert steps[..j][i] == Destroy;
    assert Goes(states, steps, j);
  }

  // An edit that is not queued yet has an armed timer.
  lemma EditsAreArmed(states: seq<State>, steps: seq<Step>, i: nat)
    requires IsRun(states, steps) && i <= |steps|
    requires Told(states[i]) == [] || Told(states[i])[|Told(states[i])| - 1].text != states[i].doc
    ensures states[i].timer && Enabled(states[i], Fire)
  {
    RunKeepsInv(states, steps, i);
  }

  // Once the editor is gone, the close is called after finitely many steps: one
  // is always possible, and every step brings it nearer.
  function StepsToClose(s: State): int {
    2 * |s.queue| + (|s.calls| - |s.outcomes|) + if s.closed then 0 else 1
  }

  lemma CloseComes(states: seq<State>, steps: seq<Step>, i: nat)
    requires IsRun(states, steps) && i <= |steps| && states[i].destroyed && !states[i].closed
    ensures Enabled(states[i], Settle(true)) || Enabled(states[i], Start) || Enabled(states[i], Close)
    ensures i < |steps| ==> StepsToClose(states[i + 1]) < StepsToClose(states[i])
  {
    RunKeepsInv(states, steps, i);
    if i < |steps| {
      assert Goes(states, steps, i);
    }
  }

  // How many calls made and settled version `version` still needs.
  function StepsToSettled(s: State, version: nat): nat {
    var open := if |s.calls| > |s.outcomes| then 1 else 0;
    if version <= |s.outcomes| then 0
    else if version <= |s.calls| then open
    else 2 * (version - |s.calls|) + open
  }

  // Of the steps from `i` on, before `j`, those that make or settle a call.
  function Turns(steps: seq<Step>, i: nat, j: nat): nat
    requires i <= j <= |steps|
    decreases j
  {
    if i == j then 0
    else Turns(steps, i, j - 1) + if steps[j - 1].Start? || steps[j - 1].Settle? then 1 else 0
  }

  // Until a version is settled a call can be made or settled, and each such step
  // brings it one nearer; nothing else moves it.
  lemma StepSettles(s: State, step: Step, version: nat)
    requires Inv(s) && Enabled(s, step) && version <= s.version
    ensures var left := StepsToSettled(s, version);
            && (left == 0 <==> version <= |s.outcomes|)
            && (left > 0 ==> Enabled(s, Settle(true)) || Enabled(s, Start))
            && StepsToSettled(Next(s, step), version) ==
               if left > 0 && (step.Start? || step.Settle?) then left - 1 else left
  {
  }

  function Less(left: nat, turns: nat): nat {
    if turns >= left then 0 else left - turns
  }

  lemma {:induction false} TurnsSettle(states: seq<State>, steps: seq<Step>, i: nat, j: nat, version: nat)
    requires IsRun(states, steps) && i <= j <= |steps| && version <= states[i].version
    ensures StepsToSettled(states[j], version) == Less(StepsToSettled(states[i], version), Turns(steps, i, j))
    ensures version <= states[j].version
    decreases j
  {
    if i < j {
      TurnsSettle(states, steps, i, j - 1, version);
      RunKeepsInv(states, steps, j - 1);
      assert Goes(states, steps, j - 1);
      StepSettles(states[j - 1], steps[j - 1], version);
    }
  }

  // What a flush waits for is settled exactly once so many calls were made or
  // settled as it needed then, whatever is edited in between; until then one more
  // can be.
  lemma FlushIsSettledIff(states: seq<State>, steps: seq<Step>, i: nat, j: nat, version: nat)
    requires IsRun(states, steps) && i <= j <= |steps| && version <= states[i].version
    ensures version <= |states[j].outcomes| <==> Turns(steps, i, j) >= StepsToSettled(states[i], version)
    ensures version > |states[j].outcomes| ==> Enabled(states[j], Settle(true)) || Enabled(states[j], Start)
  {
    TurnsSettle(states, steps, i, j, version);
    RunKeepsInv(states, steps, j);
  }

  // The last version the server took; 0 if none.
  function ServerVersion(outcomes: seq<bool>): (version: nat)
    ensures version <= |outcomes|
    ensures version > 0 ==> outcomes[version - 1]
    ensures forall k :: version <= k < |outcomes| ==> !outcomes[k]
  {
    if outcomes == [] then 0
    else if outcomes[|outcomes| - 1] then |outcomes|
    else ServerVersion(outcomes[..|outcomes| - 1])
  }

  // The server's text: that of the last call it took, of a document it was
  // given by the first one.
  function ServerText(s: State): Option<string> {
    var version := ServerVersion(s.outcomes);
    if 0 < version <= |s.calls| && s.outcomes[0] then Some(s.calls[version - 1].text) else None
  }

  // A flush at `i` resolves once everything queued then is settled. When its
  // call succeeded and no later change was sent, the server has the editor's text
  // at the flush if and only if it had taken the open; with a later change it has
  // that text or the text of such a change.
  lemma FlushReaches(states: seq<State>, steps: seq<Step>, i: nat, j: nat)
    requires IsRun(states, steps) && i < j <= |steps|
    requires steps[i].Flush? || steps[i].Fire? || steps[i].Destroy?
    requires 1 <= states[i + 1].version <= |states[j].outcomes|
    requires states[j].outcomes[states[i + 1].version - 1]
    ensures |states[j].calls| == states[i + 1].version ==>
              (ServerText(states[j]) == Some(states[i].doc) <==> states[j].outcomes[0])
    ensures ServerText(states[j]).Some? <==> states[j].outcomes[0]
    ensures |states[j].calls| >= states[i + 1].version
    ensures states[j].calls[states[i + 1].version - 1].text == states[i].doc
    ensures states[j].outcomes[0] ==>
              exists c :: states[i + 1].version - 1 <= c < |states[j].calls|
                          && ServerText(states[j]) == Some(states[j].calls[c].text)
  {
    var version := states[i + 1].version;
    assert Goes(states, steps, i);
    RunKeepsInv(states, steps, i);
    RunKeepsInv(states, steps, i + 1);
    RunKeepsInv(states, steps, j);
    RunExtends(states, steps, i + 1, j);
    assert !states[i + 1].timer && states[i + 1].doc == states[i].doc;
    assert Told(states[i + 1])[version - 1].text == states[i].doc;
    assert Told(states[j])[version - 1] == Told(states[i + 1])[version - 1];
    assert Told(states[j])[version - 1] == states[j].calls[version - 1];
    var c := ServerVersion(states[j].outcomes) - 1;
    assert states[j].outcomes[0] ==> ServerText(states[j]) == Some(states[j].calls[c].text);
  }

  // -- When the document cannot be opened ----------------------------------------------

  // A refused open is not made again: an editor that goes on typing then sends
  // changes of a document the server was never given, whatever is typed.
  lemma ChangesFollowARefusedOpen(doc: string, text: string)
    ensures var refused := Next(Opened(doc), Settle(false));
            var fired := Next(Next(refused, Edit(text)), Fire);
            && Enabled(fired, Start)
            && var sent := Next(fired, Start);
               && sent.calls == [DidOpen(1, doc), DidChange(2, text)] && sent.outcomes == [false]
               && Enabled(sent, Settle(true)) && ServerText(Next(sent, Settle(true))) == None
  {
    var fired := Next(Next(Next(Opened(doc), Settle(false)), Edit(text)), Fire);
    assert fired.queue == [DidChange(2, text)];
  }

  // The server was given the document by a taken open.
  ghost predicate IsOpen(s: State) {
    exists k :: 0 <= k < |s.outcomes| && k < |s.calls| && s.outcomes[k] && s.calls[k].DidOpen?
  }

  // The server was ever given the document exactly when the very first call was
  // taken: a later one never opens it. Only then has it any text.
  lemma OpenIffFirstTaken(states: seq<State>, steps: seq<Step>, i: nat)
    requires IsRun(states, steps) && i <= |steps|
    ensures IsOpen(states[i]) <==> states[i].outcomes != [] && states[i].outcomes[0]
    ensures ServerText(states[i]).Some? <==> IsOpen(states[i])
  {
    RunKeepsInv(states, steps, i);
    var s := states[i];
    assert forall k :: 0 <= k < |s.calls| ==> Told(s)[k] == s.calls[k];
  }

  // -- The plugin object ---------------------------------------------------------------

  // Its own fields, and with them the editor's text and what the session was
  // asked; each method is a stretch of code between two waits.
  class DocumentSync {
    var doc: string
    var version: nat
    var timer: bool
    var queue: seq<Call>
    var calls: seq<Call>
    var outcomes: seq<bool>
    var destroyed: bool
    var closed: bool

    function Snapshot(): State
      reads this
    {
      State(doc, version, timer, queue, calls, outcomes, destroyed, closed)
    }

    constructor (doc: string)
      ensures Snapshot() == Opened(doc)
    {
      this.doc, version, timer, queue := doc, 1, false, [];
      calls, outcomes, destroyed, closed := [DidOpen(1, doc)], [], false, false;
    }

    method Update(docChanged: bool, text: string)
      modifies this
      ensures Snapshot() == if docChanged then Edited(old(Snapshot()), text) else old(Snapshot())
    {
      if !docChanged {
        return;
      }
      doc := text;
      timer := true;
    }

    // Queues a pending change; the flush resolves once the version it returns
    // is settled.
    method Flush() returns (flushed: nat)
      modifies this
      ensures Snapshot() == Flushed(old(Snapshot())) && flushed == version
    {
      if timer {
        timer := false;
        version := version + 1;
        queue := queue + [DidChange(version, doc)];
      }
      flushed := version;
    }

    method Destroy()
      modifies this
      ensures Snapshot() == Destroyed(old(Snapshot()))
    {
      var flushed := Flush();
      destroyed := true;
    }

    // One stretch of code, of the plugin or of what its queue waits for.
    method Take(step: Step)
      requires Enabled(Snapshot(), step)
      modifies this
      ensures Snapshot() == Next(old(Snapshot()), step)
    {
      match step
      case Edit(text) => Update(true, text);
      case Fire => var flushed := Flush();
      case Flush => var flushed := Flush();
      case Destroy => Destroy();
      case Settle(succeeded) => outcomes := outcomes + [succeeded];
      case Start => calls, queue := calls + [queue[0]], queue[1..];
      case Close => closed := true;
    }
  }

  // Any edits, timers, flushes and answers: what can't come next is passed over, and
  // the rest is a run that ends where the plugin does.
  method RunSync(doc: string, events: seq<Step>)
    returns (sync: DocumentSync, ghost states: seq<State>, ghost steps: seq<Step>)
    ensures fresh(sync) && sync.Snapshot() == After(doc, events)
    ensures IsRun(states, steps) && states[|steps|] == sync.Snapshot()
  {
    sync := new DocumentSync(doc);
    for i := 0 to |events|
      invariant fresh(sync) && sync.Snapshot() == After(doc, events[..i])
    {
      assert events[..i + 1][..i] == events[..i];
      if Enabled(sync.Snapshot(), events[i]) {
        sync.Take(events[i]);
      }
    }
    assert events[..|events|] == events;
    states, steps := AfterIsRun(doc, events);
  }
}
