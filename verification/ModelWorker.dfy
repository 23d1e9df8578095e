/** The model worker: one thread decides on the newest submitted state, requests coalesce, and the
    trader acts on results through a freshness gate.  Each critical section is one atomic step and
    the steps interleave arbitrarily. */
module ModelWorkers {
  import opened Types

  /** The decision function either returns or throws. */
  datatype Verdict = Returned(decision: ModelDecision) | Threw(message: string)

  type DecisionFunction = ModelState -> Verdict

  /** A thrown decision becomes a hold on the same state. */
  function DecisionOn(decide: DecisionFunction, state: ModelState): ModelDecision {
    match decide(state)
    case Returned(decision) => decision
    case Threw(message) => ModelDecision(Hold, 0, 0, 1_000_000, state.sequence, message)
  }

  ghost predicate EchoesSequence(decide: DecisionFunction) {
    forall state :: decide(state).Returned? ==> decide(state).decision.stateSequence == state.sequence
  }

  /** What the mutex protects, and what the worker thread holds on its own. */
  datatype Worker = Worker(
    pending: Option<ModelState>,
    completed: Option<ModelDecision>,
    coalesced: nat,
    stopping: bool,
    running: Option<ModelState>,
    exited: bool)

  const IDLE: Worker := Worker(None, None, 0, false, None, false)

  function Submitted(w: Worker, state: ModelState): Worker {
    if w.stopping then w
    else w.(coalesced := if w.pending.Some? then w.coalesced + 1 else w.coalesced, pending := Some(state))
  }

  function Stopped(w: Worker): Worker {
    w.(stopping := true, pending := None)
  }

  /** The worker wakes up for a pending state or for the stop flag. */
  predicate CanWake(w: Worker) {
    !w.exited && w.running.None? && (w.stopping || w.pending.Some?)
  }

  function Woken(w: Worker): Worker {
    if w.stopping then w.(exited := true) else w.(running := w.pending, pending := None)
  }

  function Published(decide: DecisionFunction, w: Worker): Worker
    requires w.running.Some?
  {
    w.(completed := Some(DecisionOn(decide, w.running.value)), running := None)
  }

  // ----- the object -----

  class ModelWorker {
    const decide: DecisionFunction
    var pending: Option<ModelState>
    var completed: Option<ModelDecision>
    var coalesced: nat
    var stopping: bool
    var running: Option<ModelState>
    var exited: bool

    function View(): Worker
      reads this
    {
      Worker(pending, completed, coalesced, stopping, running, exited)
    }

    constructor (decide: DecisionFunction)
      ensures this.decide == decide && View() == IDLE
    {
      this.decide := decide;
      pending, completed, coalesced, stopping := None, None, 0, false;
      running, exited := None, false;
    }

    method Submit(state: ModelState)
      modifies this
      ensures View() == Submitted(old(View()), state)
    {
      if stopping {
        return;
      }
      if pending.Some? {
        coalesced := coalesced + 1;
      }
      pending := Some(state);
    }

    method TryTake() returns (result: Option<ModelDecision>)
      modifies this
      ensures result == old(completed) && View() == old(View()).(completed := None)
    {
      result := completed;
      completed := None;
    }

    method Stop()
      modifies this
      ensures View() == Stopped(old(View()))
    {
      stopping := true;
      pending := None;
    }

    /** The worker's first critical section, once its wait is over. */
    method Wake()
      requires CanWake(View())
      modifies this
      ensures View() == Woken(old(View()))
    {
      if stopping {
        exited := true;
        return;
      }
      running := pending;
      pending := None;
    }

    /** The worker's second critical section, after deciding outside the lock. */
    method Publish()
      requires running.Some?
      modifies this
      ensures View() == Published(decide, old(View()))
    {
      var decision: ModelDecision;
      match decide(running.value) {
        case Returned(returned) => decision := returned;
        case Threw(message) =>
          decision := ModelDecision(Hold, 0, 0, 1_000_000, running.value.sequence, message);
      }
      completed := Some(decision);
      running := None;
    }
  }

  // ----- the trader -----

  const MAX_AGE: nat := 2_500
  const SUBMIT_EVERY: nat := 1_000

  /** Where the feed callback is within one event. */
  datatype Stage = Waiting | Offering | Collecting | Gating

  datatype Trader = Trader(now: nat, stage: Stage, latest: Option<ModelDecision>, lastActed: nat)

  /** The gate of the callback: a result newer than the last one acted on, not from the future, and
      at most 2,500 sequence numbers old. */
  predicate Acts(t: Trader) {
    && t.latest.Some?
    && t.latest.value.stateSequence > t.lastActed
    && t.latest.value.stateSequence <= t.now
    && t.now - t.latest.value.stateSequence <= MAX_AGE
  }

  class TraderGate {
    var latest: Option<ModelDecision>
    var lastDecisionSequence: nat
    var decisions: nat

    method Gate(now: nat) returns (act: Option<ModelDecision>)
      modifies this
      ensures latest == old(latest)
      ensures var t := Trader(now, Gating, old(latest), old(lastDecisionSequence));
              if Acts(t) then act == latest && lastDecisionSequence == latest.value.stateSequence
                              && decisions == old(decisions) + 1
              else act == None && lastDecisionSequence == old(lastDecisionSequence) && decisions == old(decisions)
    {
      if latest.None? || latest.value.stateSequence <= lastDecisionSequence || latest.value.stateSequence > now ||
         now - latest.value.stateSequence > MAX_AGE {
        return None;
      }
      decisions := decisions + 1;
      lastDecisionSequence := latest.value.stateSequence;
      act := latest;
    }
  }

  // ----- interleavings -----

  /** What has happened: states submitted while the worker was open, states the worker picked up,
      results taken, and results acted on with the event they were acted on. */
  datatype Log = Log(
    submitted: seq<ModelState>,
    picked: seq<ModelState>,
    taken: seq<ModelDecision>,
    acted: seq<(ModelDecision, nat)>)

  datatype System = System(worker: Worker, trader: Trader, log: Log)

  const START: System := System(IDLE, Trader(0, Waiting, None, 0), Log([], [], [], []))

  datatype Move =
    | Arrive(sequence: nat)
    | Offer(state: ModelState)
    | Collect
    | GateDecision
    | WorkerWakes
    | WorkerPublishes
    | Shutdown

  /** A move is possible when the thread that makes it is at that point. */
  ghost predicate Enabled(s: System, move: Move) {
    match move
    case Arrive(sequence) => s.trader.stage == Waiting && sequence > s.trader.now
    case Offer(state) => s.trader.stage == Offering && state.sequence == s.trader.now
    case Collect => s.trader.stage == Collecting
    case GateDecision => s.trader.stage == Gating
    case WorkerWakes => CanWake(s.worker)
    case WorkerPublishes => s.worker.running.Some?
    case Shutdown => s.trader.stage == Waiting
  }

  function Next(decide: DecisionFunction, s: System, move: Move): System
    requires move.WorkerPublishes? ==> s.worker.running.Some?
  {
    match move
    case Arrive(sequence) => s.(trader := s.trader.(now := sequence, stage := Offering))
    case Offer(state) =>
      var t := s.trader.(stage := Collecting);
      if state.sequence % SUBMIT_EVERY != 0 then s.(trader := t)
      else
        s.(trader := t, worker := Submitted(s.worker, state),
           log := if s.worker.stopping then s.log else s.log.(submitted := s.log.submitted + [state]))
    case Collect =>
      var t := s.trader.(stage := Gating);
      var done := s.worker.completed;
      if done.None? then s.(trader := t)
      else s.(trader := t.(latest := done), worker := s.worker.(completed := None),
              log := s.log.(taken := s.log.taken + [done.value]))
    case GateDecision =>
      var t := s.trader.(stage := Waiting);
      if !Acts(s.trader) then s.(trader := t)
      else s.(trader := t.(lastActed := s.trader.latest.value.stateSequence),
              log := s.log.(acted := s.log.acted + [(s.trader.latest.value, s.trader.now)]))
    case WorkerWakes =>
      s.(worker := Woken(s.worker),
         log := if s.worker.stopping || s.worker.pending.None? then s.log
                else s.log.(picked := s.log.picked + [s.worker.pending.value]))
    case WorkerPublishes => s.(worker := Published(decide, s.worker))
    case Shutdown => s.(worker := Stopped(s.worker))
  }

  /** An interleaving: every move is possible where it is made. */
  ghost predicate Possible(decide: DecisionFunction, s: System, moves: seq<Move>)
    decreases |moves|
  {
    moves == [] || (Enabled(s, moves[0]) && Possible(decide, Next(decide, s, moves[0]), moves[1..]))
  }

  ghost function After(decide: DecisionFunction, s: System, moves: seq<Move>): System
    requires Possible(decide, s, moves)
    decreases |moves|
  {
    if moves == [] then s else After(decide, Next(decide, s, moves[0]), moves[1..])
  }

  // ----- what every interleaving keeps -----

  function Count<T>(o: Option<T>): nat {
    if o.Some? then 1 else 0
  }

  /** Every submission is accounted for, and the newest one is never lost: it is pending, or it is the
      last one the worker picked up. */
  ghost predicate Accounted(s: System) {
    var w, l := s.worker, s.log;
    && (if w.stopping then w.pending.None? && |l.picked| + w.coalesced <= |l.submitted| <= |l.picked| + w.coalesced + 1
        else |l.submitted| == |l.picked| + w.coalesced + Count(w.pending))
    && (w.pending.Some? ==> l.submitted != [] && w.pending.value == l.submitted[|l.submitted| - 1])
    && (!w.stopping && w.pending.None? && l.submitted != [] ==>
          l.picked != [] && l.picked[|l.picked| - 1] == l.submitted[|l.submitted| - 1])
    && (w.running.Some? ==> l.picked != [] && w.running.value == l.picked[|l.picked| - 1])
  }

  ghost predicate IncreasingStates(states: seq<ModelState>) {
    forall i, j :: 0 <= i < j < |states| ==> states[i].sequence < states[j].sequence
  }

  ghost predicate IncreasingDecisions(decisions: seq<ModelDecision>) {
    forall i, j :: 0 <= i < j < |decisions| ==> decisions[i].stateSequence < decisions[j].stateSequence
  }

  ghost predicate FromPicked(decide: DecisionFunction, l: Log, d: ModelDecision) {
    exists i :: 0 <= i < |l.picked| && d == DecisionOn(decide, l.picked[i])
  }

  /** States are submitted and picked up in increasing order, and only submitted states are picked. */
  ghost predicate StatesOrdered(s: System) {
    var w, l, t := s.worker, s.log, s.trader;
    && IncreasingStates(l.submitted) && IncreasingStates(l.picked)
    && (forall i :: 0 <= i < |l.picked| ==> l.picked[i] in l.submitted)
    && (forall i :: 0 <= i < |l.submitted| ==> SubmittedBy(t, l.submitted[i]))
    && (w.pending.Some? ==> forall i :: 0 <= i < |l.picked| ==> l.picked[i].sequence < w.pending.value.sequence)
  }

  /** The trader submits at round sequence numbers only, and each event's state at most once. */
  ghost predicate SubmittedBy(t: Trader, state: ModelState) {
    && state.sequence % SUBMIT_EVERY == 0
    && (if t.stage == Offering then state.sequence < t.now else state.sequence <= t.now)
  }

  /** The newest sequence number the worker has picked up. */
  function NewestPicked(l: Log): int {
    if l.picked == [] then -1 else l.picked[|l.picked| - 1].sequence
  }

  /** Results are on picked states, taken in increasing order; one waiting to be taken is later than
      all taken, and the state being decided on is later still. */
  ghost predicate ResultsOrdered(decide: DecisionFunction, w: Worker, l: Log) {
    && IncreasingDecisions(l.taken)
    && (forall i :: 0 <= i < |l.taken| ==> FromPicked(decide, l, l.taken[i]))
    && (forall i :: 0 <= i < |l.taken| ==> l.taken[i].stateSequence <= NewestPicked(l))
    && (w.completed.Some? ==>
          && FromPicked(decide, l, w.completed.value)
          && w.completed.value.stateSequence <= NewestPicked(l)
          && forall i :: 0 <= i < |l.taken| ==> l.taken[i].stateSequence < w.completed.value.stateSequence)
    && (w.running.Some? ==>
          && w.running.value.sequence == NewestPicked(l)
          && (forall i :: 0 <= i < |l.taken| ==> l.taken[i].stateSequence < w.running.value.sequence)
          && (w.completed.Some? ==> w.completed.value.stateSequence < w.running.value.sequence))
  }

  /** The trader acts on each result at most once, in order, and never on one that is too old. */
  ghost predicate ActsWell(s: System) {
    var t, l := s.trader, s.log;
    && (t.latest.Some? ==> t.latest.value in l.taken)
    && (forall i :: 0 <= i < |l.acted| ==>
          l.acted[i].0 in l.taken && l.acted[i].0.stateSequence <= t.lastActed
          && l.acted[i].0.stateSequence <= l.acted[i].1 <= l.acted[i].0.stateSequence + MAX_AGE)
    && (forall i, j :: 0 <= i < j < |l.acted| ==> l.acted[i].0.stateSequence < l.acted[j].0.stateSequence)
  }

  lemma MoveKeepsAccounts(decide: DecisionFunction, s: System, move: Move)
    requires Enabled(s, move) && Accounted(s)
    ensures Accounted(Next(decide, s, move))
  {
  }

  lemma MoveKeepsActs(decide: DecisionFunction, s: System, move: Move)
    requires Enabled(s, move) && ActsWell(s)
    ensures ActsWell(Next(decide, s, move))
  {
  }

  lemma OfferingKeepsOrder(s: System, state: ModelState)
    requires StatesOrdered(s) && s.trader.stage == Offering && state.sequence == s.trader.now
    requires state.sequence % SUBMIT_EVERY == 0 && !s.worker.stopping
    ensures var t := s.trader.(stage := Collecting);
            StatesOrdered(s.(trader := t, worker := Submitted(s.worker, state),
                             log := s.log.(submitted := s.log.submitted + [state])))
  {
    var l := s.log;
    forall i | 0 <= i < |l.submitted|
      ensures l.submitted[i].sequence < state.sequence
      ensures SubmittedBy(s.trader.(stage := Collecting), l.submitted[i])
    {
      assert SubmittedBy(s.trader, l.submitted[i]);
    }
    forall i | 0 <= i < |l.picked|
      ensures l.picked[i].sequence < state.sequence
      ensures l.picked[i] in l.submitted + [state]
    {
      assert l.picked[i] in l.submitted;
    }
  }

  lemma WakingKeepsOrder(s: System)
    requires StatesOrdered(s) && Accounted(s) && s.worker.pending.Some? && !s.worker.stopping
    ensures StatesOrdered(s.(worker := Woken(s.worker), log := s.log.(picked := s.log.picked + [s.worker.pending.value])))
  {
    hide SubmittedBy;
  }

  lemma TraderKeepsOrder(s: System, t: Trader, w: Worker)
    requires StatesOrdered(s) && w.pending == s.worker.pending
    requires t.now >= s.trader.now && (t.stage == Offering ==> t.now > s.trader.now)
    ensures forall l: Log :: l.submitted == s.log.submitted && l.picked == s.log.picked ==> StatesOrdered(System(w, t, l))
  {
    forall i | 0 <= i < |s.log.submitted|
      ensures SubmittedBy(t, s.log.submitted[i])
    {
      assert SubmittedBy(s.trader, s.log.submitted[i]);
    }
  }

  lemma MoveKeepsStatesOrdered(decide: DecisionFunction, s: System, move: Move)
    requires Enabled(s, move) && Accounted(s) && StatesOrdered(s)
    ensures StatesOrdered(Next(decide, s, move))
  {
    var s' := Next(decide, s, move);
    match move {
      case Offer(state) =>
        if state.sequence % SUBMIT_EVERY == 0 && !s.worker.stopping {
          OfferingKeepsOrder(s, state);
        } else {
          hide StatesOrdered;
          TraderKeepsOrder(s, s'.trader, s'.worker);
        }
      case WorkerWakes =>
        if !s.worker.stopping {
          WakingKeepsOrder(s);
        } else {
          hide StatesOrdered;
          assert s'.worker.pending == s.worker.pending && s'.trader == s.trader && s'.log == s.log;
          SameOrder(s, s');
        }
      case WorkerPublishes =>
        hide StatesOrdered;
        SameOrder(s, s');
      case Shutdown =>
        hide SubmittedBy;
      case _ =>
        hide StatesOrdered;
        TraderKeepsOrder(s, s'.trader, s'.worker);
    }
  }

  lemma SameOrder(s: System, s': System)
    requires StatesOrdered(s) && s'.trader == s.trader && s'.log == s.log && s'.worker.pending == s.worker.pending
    ensures StatesOrdered(s')
  {
  }

  lemma StillFromPicked(decide: DecisionFunction, l: Log, l': Log, d: ModelDecision)
    requires FromPicked(decide, l, d) && l.picked <= l'.picked
    ensures FromPicked(decide, l', d)
  {
    var i :| 0 <= i < |l.picked| && d == DecisionOn(decide, l.picked[i]);
    assert l'.picked[i] == l.picked[i];
  }

  /** A picked-up state is newer than everything picked before. */
  lemma PickingKeepsResults(decide: DecisionFunction, s: System)
    requires s.worker.running.None? && s.worker.pending.Some? && !s.worker.stopping
    requires StatesOrdered(s) && ResultsOrdered(decide, s.worker, s.log)
    ensures ResultsOrdered(decide, Woken(s.worker), s.log.(picked := s.log.picked + [s.worker.pending.value]))
  {
    var l, state := s.log, s.worker.pending.value;
    var l' := l.(picked := l.picked + [state]);
    assert NewestPicked(l) < state.sequence == NewestPicked(l');
    forall d | FromPicked(decide, l, d)
      ensures FromPicked(decide, l', d)
    {
      StillFromPicked(decide, l, l', d);
    }
  }

  lemma PublishingKeepsResults(decide: DecisionFunction, w: Worker, l: Log)
    requires w.running.Some? && l.picked != [] && w.running.value == l.picked[|l.picked| - 1]
    requires EchoesSequence(decide) && ResultsOrdered(decide, w, l)
    ensures ResultsOrdered(decide, Published(decide, w), l)
  {
    var d := DecisionOn(decide, w.running.value);
    assert d == DecisionOn(decide, l.picked[|l.picked| - 1]);
    assert d.stateSequence == w.running.value.sequence;
  }

  lemma TakingKeepsResults(decide: DecisionFunction, w: Worker, l: Log)
    requires w.completed.Some? && ResultsOrdered(decide, w, l)
    ensures ResultsOrdered(decide, w.(completed := None), l.(taken := l.taken + [w.completed.value]))
  {
    var l' := l.(taken := l.taken + [w.completed.value]);
    forall d | FromPicked(decide, l, d)
      ensures FromPicked(decide, l', d)
    {
      StillFromPicked(decide, l, l', d);
    }
  }

  lemma MoveKeepsResults(decide: DecisionFunction, s: System, move: Move)
    requires Enabled(s, move) && Accounted(s) && StatesOrdered(s) && ResultsOrdered(decide, s.worker, s.log)
    requires EchoesSequence(decide)
    ensures ResultsOrdered(decide, Next(decide, s, move).worker, Next(decide, s, move).log)
  {
    match move
    case WorkerWakes =>
      if !s.worker.stopping {
        PickingKeepsResults(decide, s);
      }
    case WorkerPublishes => PublishingKeepsResults(decide, s.worker, s.log);
    case Collect =>
      if s.worker.completed.Some? {
        TakingKeepsResults(decide, s.worker, s.log);
      }
    case _ => SamePicksSameResults(decide, s.worker, Next(decide, s, move).worker, s.log, Next(decide, s, move).log);
  }

  lemma SamePicksSameResults(decide: DecisionFunction, w: Worker, w': Worker, l: Log, l': Log)
    requires ResultsOrdered(decide, w, l)
    requires l'.picked == l.picked && l'.taken == l.taken && w'.completed == w.completed && w'.running == w.running
    ensures ResultsOrdered(decide, w', l')
  {
    forall d | FromPicked(decide, l, d)
      ensures FromPicked(decide, l', d)
    {
      StillFromPicked(decide, l, l', d);
    }
  }

  ghost predicate SystemInv(decide: DecisionFunction, s: System) {
    Accounted(s) && StatesOrdered(s) && ResultsOrdered(decide, s.worker, s.log) && ActsWell(s)
  }

  lemma {:induction false} EveryInterleavingKeeps(decide: DecisionFunction, s: System, moves: seq<Move>)
    requires EchoesSequence(decide) && SystemInv(decide, s) && Possible(decide, s, moves)
    ensures SystemInv(decide, After(decide, s, moves))
    decreases |moves|
  {
    hide Accounted, StatesOrdered, ResultsOrdered, ActsWell, Next;
    if moves != [] {
      MoveKeepsAccounts(decide, s, moves[0]);
      MoveKeepsStatesOrdered(decide, s, moves[0]);
      MoveKeepsResults(decide, s, moves[0]);
      MoveKeepsActs(decide, s, moves[0]);
      EveryInterleavingKeeps(decide, Next(decide, s, moves[0]), moves[1..]);
    }
  }

  lemma StartIsGood(decide: DecisionFunction)
    ensures SystemInv(decide, START)
  {
  }

  // ----- the guarantees -----

  ghost function Reached(decide: DecisionFunction, moves: seq<Move>): System
    requires Possible(decide, START, moves)
  {
    After(decide, START, moves)
  }

  /** For any decision function, under every interleaving and before any stop: submissions are exactly
      the states picked up, the requests coalesced and the one pending, and the newest submission is
      pending or was the last one picked up. */
  lemma NoSubmissionIsLost(decide: DecisionFunction, moves: seq<Move>)
    requires Possible(decide, START, moves)
    ensures var s := Reached(decide, moves);
            var w, l := s.worker, s.log;
            !w.stopping ==>
              && |l.submitted| == |l.picked| + w.coalesced + Count(w.pending)
              && (l.submitted != [] ==>
                    var newest := l.submitted[|l.submitted| - 1];
                    w.pending == Some(newest)
                    || (w.pending.None? && l.picked != [] && l.picked[|l.picked| - 1] == newest))
  {
    EveryInterleavingAccounts(decide, START, moves);
  }

  lemma {:induction false} EveryInterleavingAccounts(decide: DecisionFunction, s: System, moves: seq<Move>)
    requires Accounted(s) && Possible(decide, s, moves)
    ensures Accounted(After(decide, s, moves))
    decreases |moves|
  {
    hide Accounted, Next;
    if moves != [] {
      MoveKeepsAccounts(decide, s, moves[0]);
      EveryInterleavingAccounts(decide, Next(decide, s, moves[0]), moves[1..]);
    }
  }

  /** The result is what the decision function says of some submitted state. */
  ghost predicate FromSubmitted(decide: DecisionFunction, l: Log, d: ModelDecision) {
    exists i :: 0 <= i < |l.submitted| && d == DecisionOn(decide, l.submitted[i])
  }

  /** Results are taken in strictly increasing sequence order, each on a state that was submitted. */
  lemma ResultsStrictlyIncrease(decide: DecisionFunction, moves: seq<Move>)
    requires EchoesSequence(decide) && Possible(decide, START, moves)
    ensures var l := Reached(decide, moves).log;
            && IncreasingDecisions(l.taken)
            && forall i :: 0 <= i < |l.taken| ==> FromSubmitted(decide, l, l.taken[i])
  {
    hide Accounted, ActsWell, After;
    StartIsGood(decide);
    EveryInterleavingKeeps(decide, START, moves);
    var l := Reached(decide, moves).log;
    forall i | 0 <= i < |l.taken|
      ensures FromSubmitted(decide, l, l.taken[i])
    {
      assert FromPicked(decide, l, l.taken[i]);
      var k :| 0 <= k < |l.picked| && l.taken[i] == DecisionOn(decide, l.picked[k]);
      assert l.picked[k] in l.submitted;
      var n :| 0 <= n < |l.submitted| && l.submitted[n] == l.picked[k];
      assert l.taken[i] == DecisionOn(decide, l.submitted[n]);
    }
  }

  /** For any decision function the trader acts on each result at most once and in order, on results it
      took, and never on one from the future or more than 2,500 sequence numbers old. */
  lemma ActsOnceAndFresh(decide: DecisionFunction, moves: seq<Move>)
    requires Possible(decide, START, moves)
    ensures var l := Reached(decide, moves).log;
            && (forall i, j :: 0 <= i < j < |l.acted| ==> l.acted[i].0.stateSequence < l.acted[j].0.stateSequence)
            && (forall i :: 0 <= i < |l.acted| ==>
                  l.acted[i].0 in l.taken
                  && l.acted[i].0.stateSequence <= l.acted[i].1 <= l.acted[i].0.stateSequence + MAX_AGE)
  {
    hide After;
    EveryInterleavingActsWell(decide, START, moves);
  }

  lemma {:induction false} EveryInterleavingActsWell(decide: DecisionFunction, s: System, moves: seq<Move>)
    requires ActsWell(s) && Possible(decide, s, moves)
    ensures ActsWell(After(decide, s, moves))
    decreases |moves|
  {
    hide ActsWell, Next;
    if moves != [] {
      MoveKeepsActs(decide, s, moves[0]);
      EveryInterleavingActsWell(decide, Next(decide, s, moves[0]), moves[1..]);
    }
  }

  /** The result is what the decision function returned on the state; or it is a hold on that state, all
      its probability on holding, with the message the function threw. */
  ghost predicate Answers(decide: DecisionFunction, state: ModelState, d: ModelDecision) {
    match decide(state)
    case Returned(decision) => d == decision
    case Threw(message) =>
      && d.action == Hold && d.longPpm == 0 && d.shortPpm == 0 && d.holdPpm == 1_000_000
      && d.stateSequence == state.sequence && d.error == message
  }

  ghost predicate AnswersSubmitted(decide: DecisionFunction, l: Log, d: ModelDecision) {
    exists i :: 0 <= i < |l.submitted| && Answers(decide, l.submitted[i], d)
  }

  /** The worker holds only submitted states, and every result is an answer to one. */
  ghost predicate AnswersOnly(decide: DecisionFunction, s: System) {
    var w, l := s.worker, s.log;
    && (w.pending.Some? ==> w.pending.value in l.submitted)
    && (w.running.Some? ==> w.running.value in l.submitted)
    && (w.completed.Some? ==> AnswersSubmitted(decide, l, w.completed.value))
    && (forall i :: 0 <= i < |l.taken| ==> AnswersSubmitted(decide, l, l.taken[i]))
  }

  lemma StillAnswers(decide: DecisionFunction, l: Log, l': Log, d: ModelDecision)
    requires AnswersSubmitted(decide, l, d) && l.submitted <= l'.submitted
    ensures AnswersSubmitted(decide, l', d)
  {
    var i :| 0 <= i < |l.submitted| && Answers(decide, l.submitted[i], d);
    assert l'.submitted[i] == l.submitted[i];
  }

  lemma PublishingAnswers(decide: DecisionFunction, s: System)
    requires s.worker.running.Some? && s.worker.running.value in s.log.submitted
    ensures AnswersSubmitted(decide, s.log, Published(decide, s.worker).completed.value)
  {
    var i :| 0 <= i < |s.log.submitted| && s.log.submitted[i] == s.worker.running.value;
    assert Answers(decide, s.log.submitted[i], Published(decide, s.worker).completed.value);
  }

  lemma MoveKeepsAnswers(decide: DecisionFunction, s: System, move: Move)
    requires Enabled(s, move) && AnswersOnly(decide, s)
    ensures AnswersOnly(decide, Next(decide, s, move))
  {
    hide AnswersSubmitted, DecisionOn;
    var s' := Next(decide, s, move);
    forall d | AnswersSubmitted(decide, s.log, d)
      ensures AnswersSubmitted(decide, s'.log, d)
    {
      StillAnswers(decide, s.log, s'.log, d);
    }
    if move.WorkerPublishes? {
      PublishingAnswers(decide, s);
    }
  }

  lemma {:induction false} EveryInterleavingAnswers(decide: DecisionFunction, s: System, moves: seq<Move>)
    requires AnswersOnly(decide, s) && Possible(decide, s, moves)
    ensures AnswersOnly(decide, After(decide, s, moves))
    decreases |moves|
  {
    hide AnswersOnly, Next;
    if moves != [] {
      MoveKeepsAnswers(decide, s, moves[0]);
      EveryInterleavingAnswers(decide, Next(decide, s, moves[0]), moves[1..]);
    }
  }

  /** Under every interleaving each result taken, and each result acted on, is what the decision function
      returned on a submitted state, or a hold on one on which it threw.  So a result that is not a hold
      was returned. */
  lemma ResultsAreAnswers(decide: DecisionFunction, moves: seq<Move>)
    requires Possible(decide, START, moves)
    ensures var l := Reached(decide, moves).log;
            && (forall i :: 0 <= i < |l.taken| ==> AnswersSubmitted(decide, l, l.taken[i]))
            && (forall i :: 0 <= i < |l.acted| ==> AnswersSubmitted(decide, l, l.acted[i].0))
            && (forall i :: 0 <= i < |l.taken| && l.taken[i].action != Hold ==>
                  exists state :: state in l.submitted && decide(state) == Returned(l.taken[i]))
  {
    hide After, Answers, AnswersSubmitted;
    EveryInterleavingAnswers(decide, START, moves);
    EveryInterleavingActsWell(decide, START, moves);
    var l := Reached(decide, moves).log;
    forall i | 0 <= i < |l.taken| && l.taken[i].action != Hold
      ensures exists state :: state in l.submitted && decide(state) == Returned(l.taken[i])
    {
      NotAHoldWasReturned(decide, l, l.taken[i]);
    }
  }

  lemma NotAHoldWasReturned(decide: DecisionFunction, l: Log, d: ModelDecision)
    requires AnswersSubmitted(decide, l, d) && d.action != Hold
    ensures exists state :: state in l.submitted && decide(state) == Returned(d)
  {
    var i :| 0 <= i < |l.submitted| && Answers(decide, l.submitted[i], d);
    assert l.submitted[i] in l.submitted && decide(l.submitted[i]) == Returned(d);
  }

  /** The gate acts exactly on a result newer than the last one acted on, not from the future and at most
      2,500 sequence numbers old; the trader submits a state exactly at multiples of 1,000, while the
      worker is not stopping; and it takes the completed result, if there is one, and keeps it. */
  lemma TraderStepsAreExact(decide: DecisionFunction, s: System, state: ModelState)
    ensures var l, t := s.log, s.trader;
            var gated, offered, collected := Next(decide, s, GateDecision), Next(decide, s, Offer(state)), Next(decide, s, Collect);
            && (if t.latest.Some? && t.lastActed < t.latest.value.stateSequence <= t.now <= t.latest.value.stateSequence + 2_500
                then gated.log == l.(acted := l.acted + [(t.latest.value, t.now)])
                     && gated.trader.lastActed == t.latest.value.stateSequence
                else gated.log == l && gated.trader.lastActed == t.lastActed)
            && (if state.sequence % 1_000 == 0 && !s.worker.stopping
                then offered.log == l.(submitted := l.submitted + [state]) && offered.worker.pending == Some(state)
                else offered.log == l && offered.worker == s.worker)
            && collected.worker.completed == None
            && (if s.worker.completed.Some?
                then collected.log == l.(taken := l.taken + [s.worker.completed.value])
                     && collected.trader.latest == s.worker.completed
                else collected.log == l && collected.trader.latest == t.latest)
  {
  }

  /** An idle worker wakes exactly for a pending state or for the stop: it leaves when it is stopping, and
      otherwise picks the state up; and a worker that has decided publishes the answer to its state. */
  lemma WorkerStepsAreExact(decide: DecisionFunction, s: System)
    ensures var w := s.worker;
            && (Enabled(s, WorkerWakes) <==> !w.exited && w.running == None && (w.stopping || w.pending != None))
            && (Enabled(s, WorkerWakes) ==>
                  var w' := Next(decide, s, WorkerWakes).worker;
                  if w.stopping then w'.exited && w'.running == None
                  else !w'.exited && w'.running == w.pending && w'.pending == None)
            && (w.running.Some? ==>
                  var w' := Next(decide, s, WorkerPublishes).worker;
                  w'.completed.Some? && Answers(decide, w.running.value, w'.completed.value) && w'.running == None)
  {
  }
}
