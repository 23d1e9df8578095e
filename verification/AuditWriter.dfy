/** The audit writer: a bounded queue filled by the trader and drained in batches by one thread. */
module AuditWriters {

  /** Where the writer thread is; a batch is what it swapped out of the queue and has not streamed yet. */
  datatype Stage = Opening | Idle | Writing(batch: seq<string>) | Exited

  /** `queue`, `dropped`, `stopping` and `healthy` are behind the mutex; the rest belongs to the
      thread: its stage, whether its output stream is still good, and the lines the stream took. */
  datatype Writer = Writer(
    queue: seq<string>,
    dropped: nat,
    stopping: bool,
    healthy: bool,
    stage: Stage,
    good: bool,
    written: seq<string>)

  const FRESH: Writer := Writer([], 0, false, true, Opening, true, [])

  predicate Accepts(capacity: nat, w: Writer) {
    !w.stopping && capacity != 0 && |w.queue| < capacity
  }

  function Appended(capacity: nat, w: Writer, line: string): Writer {
    if Accepts(capacity, w) then w.(queue := w.queue + [line]) else w.(dropped := w.dropped + 1)
  }

  function Opened(w: Writer, ok: bool): Writer {
    if ok then w.(stage := Idle) else w.(stage := Exited, healthy := false)
  }

  predicate CanGrab(w: Writer) {
    w.stage == Idle && (w.stopping || w.queue != [])
  }

  /** Swap the queue for an empty batch; leave when stopping with nothing left. */
  function Grabbed(w: Writer): Writer {
    w.(queue := [], stage := if w.stopping && w.queue == [] then Exited else Writing(w.queue))
  }

  /** Stream one line.  A stream that has failed takes no more. */
  function Streamed(w: Writer, ok: bool): Writer
    requires w.stage.Writing? && w.stage.batch != []
  {
    var line, good := w.stage.batch[0], w.good && ok;
    w.(stage := Writing(w.stage.batch[1..]), good := good, written := if good then w.written + [line] else w.written)
  }

  function Flushed(w: Writer, ok: bool): Writer {
    var good := w.good && ok;
    w.(stage := Idle, good := good, healthy := w.healthy && good)
  }

  // ----- the object -----

  class AuditWriter {
    const capacity: nat
    var queue: seq<string>
    var dropped: nat
    var stopping: bool
    var healthy: bool
    var stage: Stage
    var good: bool
    var written: seq<string>

    function View(): Writer
      reads this
    {
      Writer(queue, dropped, stopping, healthy, stage, good, written)
    }

    constructor (capacity: nat)
      ensures this.capacity == capacity && View() == FRESH
    {
      this.capacity := capacity;
      queue, dropped, stopping, healthy := [], 0, false, true;
      stage, good, written := Opening, true, [];
    }

    method Append(line: string)
      modifies this
      ensures View() == Appended(capacity, old(View()), line)
    {
      if stopping || capacity == 0 || |queue| >= capacity {
        dropped := dropped + 1;
        return;
      }
      queue := queue + [line];
    }

    method Stop()
      modifies this
      ensures View() == old(View()).(stopping := true)
    {
      stopping := true;
    }

    method Open(ok: bool)
      requires stage == Opening
      modifies this
      ensures View() == Opened(old(View()), ok)
    {
      if !ok {
        healthy := false;
        stage := Exited;
        return;
      }
      stage := Idle;
    }

    /** The thread's critical section, once its wait is over. */
    method Grab()
      requires CanGrab(View())
      modifies this
      ensures View() == Grabbed(old(View()))
    {
      var batch := queue;
      queue := [];
      if stopping && batch == [] {
        stage := Exited;
      } else {
        stage := Writing(batch);
      }
    }

    /** Stream a whole batch, line by line; `oks` says what the stream answers. */
    method WriteBatch(oks: seq<bool>, flushOk: bool)
      requires stage.Writing? && |oks| == |stage.batch|
      modifies this
      ensures View() == Flushed(AllStreamed(old(View()), oks), flushOk)
    {
      var i := 0;
      while i < |oks|
        invariant 0 <= i <= |oks| && stage.Writing? && |stage.batch| == |oks| - i
        invariant AllStreamed(View(), oks[i..]) == AllStreamed(old(View()), oks)
      {
        ghost var before := View();
        var line := stage.batch[0];
        good := good && oks[i];
        if good {
          written := written + [line];
        }
        stage := Writing(stage.batch[1..]);
        assert View() == Streamed(before, oks[i]);
        assert oks[i..][1..] == oks[i + 1..];
        i := i + 1;
      }
      assert oks[i..] == [];
      good := good && flushOk;
      if !good {
        healthy := false;
      }
      stage := Idle;
    }
  }

  function AllStreamed(w: Writer, oks: seq<bool>): (r: Writer)
    requires w.stage.Writing? && |oks| == |w.stage.batch|
    decreases |oks|
  {
    if oks == [] then w else AllStreamed(Streamed(w, oks[0]), oks[1..])
  }

  // ----- interleavings -----

  datatype Move =
    | Append(line: string)
    | Stop
    | Open(ok: bool)
    | Grab
    | Stream(ok: bool)
    | Flush(ok: bool)

  /** The writer, and what has happened: lines accepted, calls of append, lines given to the stream,
      and whether opening the file failed. */
  datatype Session = Session(writer: Writer, accepted: seq<string>, appends: nat, handled: seq<string>, openFailed: bool)

  const START: Session := Session(FRESH, [], 0, [], false)

  predicate Enabled(s: Session, move: Move) {
    match move
    case Append(_) => true
    case Stop => true
    case Open(_) => s.writer.stage == Opening
    case Grab => CanGrab(s.writer)
    case Stream(_) => s.writer.stage.Writing? && s.writer.stage.batch != []
    case Flush(_) => s.writer.stage == Writing([])
  }

  function Next(capacity: nat, s: Session, move: Move): Session
    requires Enabled(s, move)
  {
    var w := s.writer;
    match move
    case Append(line) =>
      s.(writer := Appended(capacity, w, line), appends := s.appends + 1,
         accepted := if Accepts(capacity, w) then s.accepted + [line] else s.accepted)
    case Stop => s.(writer := w.(stopping := true))
    case Open(ok) => s.(writer := Opened(w, ok), openFailed := !ok)
    case Grab => s.(writer := Grabbed(w))
    case Stream(ok) => s.(writer := Streamed(w, ok), handled := s.handled + [w.stage.batch[0]])
    case Flush(ok) => s.(writer := Flushed(w, ok))
  }

  predicate Possible(capacity: nat, s: Session, moves: seq<Move>)
    decreases |moves|
  {
    moves == [] || (Enabled(s, moves[0]) && Possible(capacity, Next(capacity, s, moves[0]), moves[1..]))
  }

  function After(capacity: nat, s: Session, moves: seq<Move>): Session
    requires Possible(capacity, s, moves)
    decreases |moves|
  {
    if moves == [] then s else After(capacity, Next(capacity, s, moves[0]), moves[1..])
  }

  function Batch(w: Writer): seq<string> {
    if w.stage.Writing? then w.stage.batch else []
  }

  ghost predicate SessionInv(capacity: nat, s: Session) {
    var w := s.writer;
    && s.accepted == s.handled + Batch(w) + w.queue
    && |w.queue| <= capacity
    && s.appends == |s.accepted| + w.dropped
    && w.written <= s.handled && (w.good ==> w.written == s.handled)
    && (s.openFailed ==> w.stage == Exited && !w.healthy && s.handled == [])
    && (w.stage == Opening ==> s.handled == [] && w.good)
    && (w.stage == Exited && !s.openFailed ==> w.stopping && w.queue == [])
    && (w.healthy && !w.stage.Writing? ==> w.good)
  }

  lemma MoveKeepsSession(capacity: nat, s: Session, move: Move)
    requires Enabled(s, move) && SessionInv(capacity, s)
    ensures SessionInv(capacity, Next(capacity, s, move))
  {
    var w := s.writer;
    if move.Stream? {
      assert s.handled + w.stage.batch == (s.handled + [w.stage.batch[0]]) + w.stage.batch[1..];
    }
  }

  lemma {:induction false} EveryInterleavingKeeps(capacity: nat, s: Session, moves: seq<Move>)
    requires SessionInv(capacity, s) && Possible(capacity, s, moves)
    ensures SessionInv(capacity, After(capacity, s, moves))
    decreases |moves|
  {
    hide SessionInv;
    if moves != [] {
      MoveKeepsSession(capacity, s, moves[0]);
      EveryInterleavingKeeps(capacity, Next(capacity, s, moves[0]), moves[1..]);
    }
  }

  /** Under every interleaving: the lines streamed, the batch in hand and the queue are exactly the
      accepted lines in order; the queue respects its capacity; every append was accepted or counted
      as dropped; and what the file holds is a prefix of what was streamed, all of it while the
      stream is good. */
  lemma LinesAreConserved(capacity: nat, moves: seq<Move>)
    requires Possible(capacity, START, moves)
    ensures var s := After(capacity, START, moves);
            var w := s.writer;
            && s.accepted == s.handled + Batch(w) + w.queue
            && |w.queue| <= capacity
            && s.appends == |s.accepted| + w.dropped
            && w.written <= s.handled
            && (w.good ==> s.accepted == w.written + Batch(w) + w.queue)
  {
    EveryInterleavingKeeps(capacity, START, moves);
  }

  /** Once the writer has exited, a healthy one has written every accepted line exactly once and in
      order; an unhealthy one has written a prefix; and one whose file never opened, nothing. */
  lemma ExitedWriterHasWrittenAll(capacity: nat, moves: seq<Move>)
    requires Possible(capacity, START, moves) && After(capacity, START, moves).writer.stage == Exited
    ensures var s := After(capacity, START, moves);
            && (s.writer.healthy ==> s.writer.written == s.accepted && s.writer.stopping)
            && s.writer.written <= s.accepted
            && (s.openFailed ==> s.writer.written == [] && !s.writer.healthy)
  {
    EveryInterleavingKeeps(capacity, START, moves);
  }

  /** A line is kept, at the end of the queue, exactly while the writer is open and the queue has room;
      otherwise it is counted as dropped. */
  lemma LinesAreKeptWhileThereIsRoom(capacity: nat, s: Session, line: string)
    ensures var s' := Next(capacity, s, Append(line));
            if !s.writer.stopping && |s.writer.queue| < capacity then
              && s'.accepted == s.accepted + [line]
              && s'.writer == s.writer.(queue := s.writer.queue + [line])
            else s'.accepted == s.accepted && s'.writer == s.writer.(dropped := s.writer.dropped + 1)
  {
  }

  /** An idle writer goes on exactly when it is stopping or has lines: it takes the whole queue as its
      batch, and leaves when it is stopping with nothing left. */
  lemma WriterStepsAreExact(capacity: nat, s: Session)
    ensures var w := s.writer;
            && (Enabled(s, Grab) <==> w.stage == Idle && (w.stopping || w.queue != []))
            && (Enabled(s, Grab) ==>
                  var w' := Next(capacity, s, Grab).writer;
                  && w'.queue == [] && w'.written == w.written
                  && w'.stage == (if w.stopping && w.queue == [] then Exited else Writing(w.queue)))
  {
  }

  predicate Succeeds(move: Move) {
    match move
    case Open(ok) => ok
    case Stream(ok) => ok
    case Flush(ok) => ok
    case _ => true
  }

  ghost predicate AllIsWell(s: Session) {
    s.writer.healthy && s.writer.good && !s.openFailed
  }

  lemma {:induction false} SuccessKeepsHealth(capacity: nat, s: Session, moves: seq<Move>)
    requires Possible(capacity, s, moves) && AllIsWell(s) && forall i :: 0 <= i < |moves| ==> Succeeds(moves[i])
    ensures AllIsWell(After(capacity, s, moves))
    decreases |moves|
  {
    if moves != [] {
      assert Succeeds(moves[0]);
      SuccessKeepsHealth(capacity, Next(capacity, s, moves[0]), moves[1..]);
    }
  }

  /** Under every interleaving in which no file operation fails, the writer stays healthy and the file
      holds every accepted line that is not in the batch or the queue. */
  lemma NothingFailsNothingIsLost(capacity: nat, moves: seq<Move>)
    requires Possible(capacity, START, moves) && forall i :: 0 <= i < |moves| ==> Succeeds(moves[i])
    ensures var s := After(capacity, START, moves);
            s.writer.healthy && s.accepted == s.writer.written + Batch(s.writer) + s.writer.queue
  {
    SuccessKeepsHealth(capacity, START, moves);
    LinesAreConserved(capacity, moves);
  }
}
