/**
 A reader, a writer and a closer share a bip buffer. Reading and writing hold the lock; looking at `closed`,
 waiting for an event and all of closing do not. Every access to a flag or an event is a step of its own.
 */
module BipThreads {
  import opened Numbers
  import opened Octets
  import opened BipBuffer

  /** Where a reader or writer stands in its call; from Testing to Leaving it holds the lock. */
  datatype Position =
    | Idle
    | Entering    // about to take the lock
    | Testing     // about to test its flag
    | Refusing    // found its flag clear, about to give the lock back
    | Refused     // about to look at `closed`
    | Waiting     // in WaitForSingleObject
    | Woken       // about to look at `closed` again
    | Copying     // about to move bytes
    | Clearing    // has left the queue empty or full, about to clear its flag
    | Resetting   // about to reset its event
    | Raising     // about to test and set the other's flag
    | Signalling  // about to set the other's event
    | Leaving     // about to give the lock back

  /** Where the closer stands in bip_buffer_close. */
  datatype Closing = NotYet | Marked | SignalRead | ReadDone | SignalWrite | AllDone

  datatype Lock = Free | ByReader | ByWriter

  datatype State = State(
    queue: Bytes, canRead: bool, canWrite: bool, evtRead: bool, evtWrite: bool, lock: Lock,
    reader: Position, writer: Position, closer: Closing,
    sent: Bytes, got: Bytes)

  const INITIAL := State([], false, true, false, true, Free, Idle, Idle, NotYet, [], [])

  predicate Closed(s: State) {
    s.closer != NotYet
  }

  datatype Step =
    | ReaderStep(len: nat)
    | WriterStep(src: Bytes)
    | CloserStep

  /** The steps of a call that touch neither bytes nor flags, the same for both ends. */
  function Onward(p: Position, flag: bool, closed: bool): Position {
    match p
    case Idle => Entering
    case Entering => Testing
    case Testing => if flag then Copying else Refusing
    case Refusing => Refused
    case Refused => if closed then Idle else Waiting
    case Waiting => Woken
    case Woken => if closed then Idle else Entering
    case Leaving => Idle
    case Copying | Clearing | Resetting | Raising | Signalling => p
  }

  /** Who holds the lock after a step of `me` from `p`. */
  function LockAfter(lock: Lock, me: Lock, p: Position): Lock {
    if p.Entering? then me else if p.Refusing? || p.Leaving? then Free else lock
  }

  /** bip_buffer_read asked for `len` bytes, one shared access at a time. */
  function Read(s: State, len: nat): State {
    match s.reader
    case Copying =>
      var n := Min(len, |s.queue|);
      s.(queue := s.queue[n..], got := s.got + s.queue[..n], reader := if n == |s.queue| then Clearing else Raising)
    case Clearing => s.(canRead := false, reader := Resetting)
    case Resetting => s.(evtRead := false, reader := Raising)
    case Raising => s.(canWrite := true, reader := if s.canWrite then Leaving else Signalling)
    case Signalling => s.(evtWrite := true, reader := Leaving)
    case p => s.(reader := Onward(p, s.canRead, Closed(s)), lock := LockAfter(s.lock, ByReader, p))
  }

  /** bip_buffer_write of `src`, one shared access at a time. */
  function Write(s: State, src: Bytes): State {
    match s.writer
    case Copying =>
      var n := if |s.queue| <= SIZE then Min(|src|, SIZE - |s.queue|) else 0;
      s.(queue := s.queue + src[..n], sent := s.sent + src[..n], writer := if |s.queue| + n == SIZE then Clearing else Raising)
    case Clearing => s.(canWrite := false, writer := Resetting)
    case Resetting => s.(evtWrite := false, writer := Raising)
    case Raising => s.(canRead := true, writer := if s.canRead then Leaving else Signalling)
    case Signalling => s.(evtRead := true, writer := Leaving)
    case p => s.(writer := Onward(p, s.canWrite, Closed(s)), lock := LockAfter(s.lock, ByWriter, p))
  }

  /** bip_buffer_close, one shared access at a time. */
  function Close(s: State): State {
    match s.closer
    case NotYet => s.(closer := Marked)
    case Marked => s.(closer := if s.canRead then ReadDone else SignalRead)
    case SignalRead => s.(closer := ReadDone, evtRead := true)
    case ReadDone => s.(closer := if s.canWrite then AllDone else SignalWrite)
    case SignalWrite => s.(closer := AllDone, evtWrite := true)
    case AllDone => s
  }

  predicate Enabled(s: State, step: Step) {
    match step
    case ReaderStep(len) => len > 0 && (s.reader.Waiting? ==> s.evtRead) && (s.reader.Entering? ==> s.lock.Free?)
    case WriterStep(src) => src != [] && (s.writer.Waiting? ==> s.evtWrite) && (s.writer.Entering? ==> s.lock.Free?)
    case CloserStep => !s.closer.AllDone?
  }

  function Apply(s: State, step: Step): State {
    match step
    case ReaderStep(len) => Read(s, len)
    case WriterStep(src) => Write(s, src)
    case CloserStep => Close(s)
  }

  predicate IsRun(run: seq<State>, steps: seq<Step>) {
    && |run| == |steps| + 1 && run[0] == INITIAL
    && forall k :: 0 <= k < |steps| ==> Enabled(run[k], steps[k]) && run[k + 1] == Apply(run[k], steps[k])
  }

  /** Parked: waiting for an event that is not set. */
  predicate ReaderParked(s: State) {
    s.reader.Waiting? && !s.evtRead
  }

  predicate WriterParked(s: State) {
    s.writer.Waiting? && !s.evtWrite
  }

  // ---- the invariant ----

  predicate HoldsLock(p: Position) {
    p.Testing? || p.Refusing? || p.Copying? || Moved(p) || p.Signalling? || p.Leaving?
  }

  /** Bytes have been moved and the other's flag has not been seen to yet. */
  predicate Moved(p: Position) {
    p.Clearing? || p.Resetting? || p.Raising?
  }

  predicate LockInv(lock: Lock, reader: Position, writer: Position) {
    && (lock.ByReader? <==> HoldsLock(reader))
    && (lock.ByWriter? <==> HoldsLock(writer))
  }

  predicate FifoInv(sent: Bytes, got: Bytes, queue: Bytes) {
    sent == got + queue && |queue| <= SIZE
  }

  /** With n bytes queued: a flag tells the truth but for its own clearing and the other's raising. */
  predicate FlagInv(n: nat, canRead: bool, canWrite: bool, reader: Position, writer: Position) {
    && (reader.Copying? ==> n > 0)
    && (writer.Copying? ==> n < SIZE)
    && (if reader.Clearing? || reader.Resetting? then n == 0 && (canRead <==> reader.Clearing?)
        else if Moved(writer) then n > 0
        else canRead <==> n > 0)
    && (if writer.Clearing? || writer.Resetting? then n == SIZE && (canWrite <==> writer.Clearing?)
        else if Moved(reader) then n < SIZE
        else canWrite <==> n < SIZE)
  }

  /** An event lags behind its flag only where it is about to be set. */
  predicate EventInv(s: State) {
    && (s.canRead && !s.evtRead ==> s.writer.Signalling?)
    && (s.canWrite && !s.evtWrite ==> s.reader.Signalling?)
  }

  predicate ParkInv(s: State) {
    && (ReaderParked(s) ==> s.closer.NotYet? || s.closer.Marked? || s.closer.SignalRead? || s.writer.Signalling?)
    && (WriterParked(s) ==> !s.closer.AllDone? || s.reader.Signalling?)
  }

  predicate Inv(s: State) {
    && LockInv(s.lock, s.reader, s.writer) && FifoInv(s.sent, s.got, s.queue)
    && FlagInv(|s.queue|, s.canRead, s.canWrite, s.reader, s.writer)
    && EventInv(s) && ParkInv(s)
  }

  lemma FifoTake(sent: Bytes, got: Bytes, queue: Bytes, n: nat)
    requires FifoInv(sent, got, queue) && n <= |queue|
    ensures FifoInv(sent, got + queue[..n], queue[n..])
  {
    assert queue == queue[..n] + queue[n..];
  }

  lemma FifoPut(sent: Bytes, got: Bytes, queue: Bytes, more: Bytes)
    requires FifoInv(sent, got, queue) && |queue| + |more| <= SIZE
    ensures FifoInv(sent + more, got, queue + more)
  {
  }

  lemma FifoSize(s: State)
    requires Inv(s)
    ensures |s.queue| <= SIZE
  {
  }

  lemma ReadKeepsInv(s: State, len: nat)
    requires Inv(s) && Enabled(s, ReaderStep(len))
    ensures Inv(Read(s, len))
  {
    FifoTake(s.sent, s.got, s.queue, Min(len, |s.queue|));
    FifoSize(s);
    hide FifoInv;
  }

  lemma WriteKeepsInv(s: State, src: Bytes)
    requires Inv(s) && Enabled(s, WriterStep(src))
    ensures Inv(Write(s, src))
  {
    FifoSize(s);
    FifoPut(s.sent, s.got, s.queue, src[..Min(|src|, SIZE - |s.queue|)]);
    hide FifoInv;
  }

  lemma CloseKeepsInv(s: State)
    requires Inv(s)
    ensures Inv(Close(s))
  {
    hide FifoInv, LockInv, FlagInv;
  }

  lemma StepKeepsInv(s: State, step: Step)
    requires Inv(s) && Enabled(s, step)
    ensures Inv(Apply(s, step))
  {
    hide Inv, Enabled, Read, Write, Close;
    match step
    case ReaderStep(len) => ReadKeepsInv(s, len);
    case WriterStep(src) => WriteKeepsInv(s, src);
    case CloserStep => CloseKeepsInv(s);
  }

  lemma {:induction false} RunInv(run: seq<State>, steps: seq<Step>, k: nat)
    requires IsRun(run, steps) && k < |run|
    ensures Inv(run[k])
  {
    if k > 0 {
      RunInv(run, steps, k - 1);
      StepKeepsInv(run[k - 1], steps[k - 1]);
    }
  }

  // ---- what holds in every run ----

  /** What is read is what was written, in order, and no more than the buffer's size is in between. */
  lemma QueueIsFifo(run: seq<State>, steps: seq<Step>, k: nat)
    requires IsRun(run, steps) && k < |run|
    ensures run[k].got <= run[k].sent && run[k].queue == run[k].sent[|run[k].got|..]
    ensures |run[k].sent| - |run[k].got| <= SIZE
  {
    RunInv(run, steps, k);
  }

  /**
   With the lock free, a parked reader has nothing to read and a parked writer no room. The two are never both parked.
   When closing is over, whoever is still parked is about to be woken: the other end stands right before its SetEvent.
   */
  lemma NoLostWakeup(run: seq<State>, steps: seq<Step>, k: nat)
    requires IsRun(run, steps) && k < |run|
    ensures run[k].lock.Free? && ReaderParked(run[k]) ==> run[k].queue == []
    ensures run[k].lock.Free? && WriterParked(run[k]) ==> |run[k].queue| == SIZE
    ensures !(ReaderParked(run[k]) && WriterParked(run[k]))
    ensures run[k].closer.AllDone? && ReaderParked(run[k]) ==> run[k].writer.Signalling?
    ensures run[k].closer.AllDone? && WriterParked(run[k]) ==> run[k].reader.Signalling?
  {
    RunInv(run, steps, k);
  }

  /** The step that ends the wait can be taken, and ends it. */
  lemma SignallingWakes(s: State, len: nat, src: Bytes)
    requires len > 0 && src != []
    ensures s.writer.Signalling? ==> Enabled(s, WriterStep(src)) && !ReaderParked(Apply(s, WriterStep(src)))
    ensures s.reader.Signalling? ==> Enabled(s, ReaderStep(len)) && !WriterParked(Apply(s, ReaderStep(len)))
  {
  }

  // ---- a call that nobody interrupts ----

  /** The state after n steps of the same kind. */
  function Alone(s: State, step: Step, n: nat): State
    decreases n
  {
    if n == 0 then s else Alone(Apply(s, step), step, n - 1)
  }

  /** Each of the n steps can be taken. */
  predicate Goes(s: State, step: Step, n: nat)
    decreases n
  {
    n == 0 || (Enabled(s, step) && Goes(Apply(s, step), step, n - 1))
  }

  /** What a read that finds bytes leaves: the most it may take is gone from the front, and flags and events are right. */
  function Taken(s: State, len: nat): State {
    var n := Min(len, |s.queue|);
    s.(queue := s.queue[n..], got := s.got + s.queue[..n], canRead := n < |s.queue|, evtRead := n < |s.queue|,
    canWrite := true, evtWrite := true, reader := Idle, lock := Free)
  }

  lemma ReadLeaves(s: State, len: nat) returns (n: nat)
    requires len > 0 && s.reader.Raising? && (s.canWrite ==> s.evtWrite)
    ensures Goes(s, ReaderStep(len), n)
    ensures Alone(s, ReaderStep(len), n) == s.(canWrite := true, evtWrite := true, reader := Idle, lock := Free)
  {
    n := if s.canWrite then 2 else 3;
    var s1 := Read(s, len);
    var s2 := Read(s1, len);
    if s.canWrite {
      assert Goes(s1, ReaderStep(len), 1) && Alone(s1, ReaderStep(len), 1) == s2;
    } else {
      var s3 := Read(s2, len);
      assert Goes(s2, ReaderStep(len), 1) && Alone(s2, ReaderStep(len), 1) == s3;
      assert Goes(s1, ReaderStep(len), 2) && Alone(s1, ReaderStep(len), 2) == s3;
    }
  }

  lemma ReadCopies(s: State, len: nat) returns (n: nat)
    requires len > 0 && s.reader.Copying? && s.canRead && s.evtRead && (s.canWrite ==> s.evtWrite)
    ensures Goes(s, ReaderStep(len), n) && Alone(s, ReaderStep(len), n) == Taken(s, len)
  {
    var s1 := Read(s, len);
    if s1.reader.Raising? {
      n := ReadLeaves(s1, len);
      n := n + 1;
    } else {
      var s2 := Read(s1, len);
      var s3 := Read(s2, len);
      n := ReadLeaves(s3, len);
      assert Goes(s2, ReaderStep(len), n + 1) && Alone(s2, ReaderStep(len), n + 1) == Taken(s, len);
      assert Goes(s1, ReaderStep(len), n + 2) && Alone(s1, ReaderStep(len), n + 2) == Taken(s, len);
      n := n + 3;
    }
  }

  lemma ReadEnters(s: State, len: nat) returns (n: nat)
    requires len > 0 && s.lock.Free? && s.reader.Entering? && (s.canRead <==> s.queue != [])
    requires (s.canRead ==> s.evtRead) && (s.canWrite ==> s.evtWrite)
    ensures Goes(s, ReaderStep(len), n)
    ensures Alone(s, ReaderStep(len), n) == if s.queue != [] then Taken(s, len) else s.(reader := if Closed(s) then Idle else Waiting)
  {
    var step := ReaderStep(len);
    var s1 := Read(s, len);
    var s2 := Read(s1, len);
    if s.canRead {
      n := ReadCopies(s2, len);
      assert Goes(s1, step, n + 1) && Alone(s1, step, n + 1) == Taken(s, len);
      n := n + 2;
    } else {
      var s3 := Read(s2, len);
      var s4 := Read(s3, len);
      assert Goes(s4, step, 0) && Goes(s3, step, 1) && Alone(s3, step, 1) == s4;
      assert Goes(s2, step, 2) && Alone(s2, step, 2) == s4;
      assert Goes(s1, step, 3) && Alone(s1, step, 3) == s4;
      n := 4;
    }
  }

  /**
   A read that nobody interrupts does in one go what the methods of the buffer do: with bytes queued it takes as many as
   it may; with none it gives up when the buffer is closed and waits otherwise. Woken, it starts again, or gives up.
   */
  lemma ReadAlone(s: State, len: nat) returns (n: nat)
    requires Inv(s) && len > 0 && s.lock.Free? && (s.reader.Idle? || (s.reader.Waiting? && s.evtRead))
    ensures Goes(s, ReaderStep(len), n)
    ensures var t := Alone(s, ReaderStep(len), n);
            if s.reader.Waiting? && Closed(s) then t == s.(reader := Idle)
            else if s.queue != [] then t == Taken(s, len)
            else t == s.(reader := if Closed(s) then Idle else Waiting)
  {
    hide FifoInv, ParkInv;
    var step := ReaderStep(len);
    var s1 := Read(s, len);
    if s.reader.Waiting? {
      var s2 := Read(s1, len);
      if Closed(s) {
        n := 2;
        assert Goes(s2, step, 0) && Goes(s1, step, 1) && Alone(s1, step, 1) == s2;
      } else {
        n := ReadEnters(s2, len);
        assert Goes(s1, step, n + 1) && Alone(s1, step, n + 1) == Alone(s2, step, n);
        n := n + 2;
      }
    } else {
      n := ReadEnters(s1, len);
      n := n + 1;
    }
  }

  /** What a write that finds room leaves. */
  function Given(s: State, src: Bytes): State
    requires |s.queue| <= SIZE
  {
    var n := Min(|src|, SIZE - |s.queue|);
    s.(queue := s.queue + src[..n], sent := s.sent + src[..n], canWrite := |s.queue| + n < SIZE, evtWrite := |s.queue| + n < SIZE,
    canRead := true, evtRead := true, writer := Idle, lock := Free)
  }

  lemma WriteLeaves(s: State, src: Bytes) returns (n: nat)
    requires src != [] && s.writer.Raising? && (s.canRead ==> s.evtRead)
    ensures Goes(s, WriterStep(src), n)
    ensures Alone(s, WriterStep(src), n) == s.(canRead := true, evtRead := true, writer := Idle, lock := Free)
  {
    n := if s.canRead then 2 else 3;
    var s1 := Write(s, src);
    var s2 := Write(s1, src);
    if s.canRead {
      assert Goes(s1, WriterStep(src), 1) && Alone(s1, WriterStep(src), 1) == s2;
    } else {
      var s3 := Write(s2, src);
      assert Goes(s2, WriterStep(src), 1) && Alone(s2, WriterStep(src), 1) == s3;
      assert Goes(s1, WriterStep(src), 2) && Alone(s1, WriterStep(src), 2) == s3;
    }
  }

  lemma WriteCopies(s: State, src: Bytes) returns (n: nat)
    requires src != [] && s.writer.Copying? && s.canWrite && s.evtWrite && |s.queue| <= SIZE && (s.canRead ==> s.evtRead)
    ensures Goes(s, WriterStep(src), n) && Alone(s, WriterStep(src), n) == Given(s, src)
  {
    var s1 := Write(s, src);
    if s1.writer.Raising? {
      n := WriteLeaves(s1, src);
      n := n + 1;
    } else {
      var s2 := Write(s1, src);
      var s3 := Write(s2, src);
      n := WriteLeaves(s3, src);
      assert Goes(s2, WriterStep(src), n + 1) && Alone(s2, WriterStep(src), n + 1) == Given(s, src);
      assert Goes(s1, WriterStep(src), n + 2) && Alone(s1, WriterStep(src), n + 2) == Given(s, src);
      n := n + 3;
    }
  }

  lemma WriteEnters(s: State, src: Bytes) returns (n: nat)
    requires src != [] && s.lock.Free? && s.writer.Entering? && |s.queue| <= SIZE && (s.canWrite <==> |s.queue| < SIZE)
    requires (s.canRead ==> s.evtRead) && (s.canWrite ==> s.evtWrite)
    ensures Goes(s, WriterStep(src), n)
    ensures Alone(s, WriterStep(src), n) ==
            if |s.queue| < SIZE then Given(s, src) else s.(writer := if Closed(s) then Idle else Waiting)
  {
    var step := WriterStep(src);
    var s1 := Write(s, src);
    var s2 := Write(s1, src);
    if s.canWrite {
      n := WriteCopies(s2, src);
      assert Goes(s1, step, n + 1) && Alone(s1, step, n + 1) == Given(s, src);
      n := n + 2;
    } else {
      var s3 := Write(s2, src);
      var s4 := Write(s3, src);
      assert Goes(s4, step, 0) && Goes(s3, step, 1) && Alone(s3, step, 1) == s4;
      assert Goes(s2, step, 2) && Alone(s2, step, 2) == s4;
      assert Goes(s1, step, 3) && Alone(s1, step, 3) == s4;
      n := 4;
    }
  }

  /** A write that nobody interrupts: as much as there is room for; with no room it gives up or waits. */
  lemma WriteAlone(s: State, src: Bytes) returns (n: nat)
    requires Inv(s) && src != [] && s.lock.Free? && (s.writer.Idle? || (s.writer.Waiting? && s.evtWrite))
    ensures Goes(s, WriterStep(src), n) && |s.queue| <= SIZE
    ensures var t := Alone(s, WriterStep(src), n);
            if s.writer.Waiting? && Closed(s) then t == s.(writer := Idle)
            else if |s.queue| < SIZE then t == Given(s, src)
            else t == s.(writer := if Closed(s) then Idle else Waiting)
  {
    FifoSize(s);
    hide FifoInv, ParkInv;
    var step := WriterStep(src);
    var s1 := Write(s, src);
    if s.writer.Waiting? {
      var s2 := Write(s1, src);
      if Closed(s) {
        n := 2;
        assert Goes(s2, step, 0) && Goes(s1, step, 1) && Alone(s1, step, 1) == s2;
      } else {
        n := WriteEnters(s2, src);
        assert Goes(s1, step, n + 1) && Alone(s1, step, n + 1) == Alone(s2, step, n);
        n := n + 2;
      }
    } else {
      n := WriteEnters(s1, src);
      n := n + 1;
    }
  }

  // ---- a closer inside the locked section ----

  function Last(run: seq<State>): State {
    if run == [] then INITIAL else run[|run| - 1]
  }

  /** A run goes on with an enabled step. */
  lemma Extend(run: seq<State>, steps: seq<Step>, step: Step) returns (run': seq<State>, steps': seq<Step>)
    requires IsRun(run, steps) && Enabled(Last(run), step)
    ensures IsRun(run', steps') && Last(run') == Apply(Last(run), step)
  {
    run', steps' := run + [Apply(Last(run), step)], steps + [step];
  }

  /** A read on the empty buffer, up to the wait. */
  lemma ReaderWaits() returns (run: seq<State>, steps: seq<Step>)
    ensures IsRun(run, steps) && Last(run) == INITIAL.(reader := Waiting)
  {
    hide IsRun;
    run, steps := [INITIAL], [];
    assert IsRun(run, steps) by { Starts(); }
    run, steps := Extend(run, steps, ReaderStep(1));
    run, steps := Extend(run, steps, ReaderStep(1));
    run, steps := Extend(run, steps, ReaderStep(1));
    run, steps := Extend(run, steps, ReaderStep(1));
    run, steps := Extend(run, steps, ReaderStep(1));
  }

  lemma Starts()
    ensures IsRun([INITIAL], [])
  {
  }

  /** A write of one byte, up to the event. */
  lemma WriterRaises(run0: seq<State>, steps0: seq<Step>) returns (run: seq<State>, steps: seq<Step>)
    requires IsRun(run0, steps0) && Last(run0) == INITIAL.(reader := Waiting)
    ensures IsRun(run, steps)
    ensures Last(run) == State([0], true, true, false, true, ByWriter, Waiting, Signalling, NotYet, [0], [])
  {
    hide IsRun;
    run, steps := Extend(run0, steps0, WriterStep([0]));
    run, steps := Extend(run, steps, WriterStep([0]));
    run, steps := Extend(run, steps, WriterStep([0]));
    assert Last(run) == INITIAL.(reader := Waiting, writer := Copying, lock := ByWriter);
    run, steps := Extend(run, steps, WriterStep([0]));
    assert [] + [0][..1] == [0];
    assert Last(run) == State([0], false, true, false, true, ByWriter, Waiting, Raising, NotYet, [0], []);
    run, steps := Extend(run, steps, WriterStep([0]));
  }

  /** Closing between the flag and the event of a write signals nobody, and leaves the reader parked before a byte. */
  lemma CloserMisses() returns (run: seq<State>, steps: seq<Step>)
    ensures IsRun(run, steps)
    ensures Last(run).closer.AllDone? && ReaderParked(Last(run)) && Last(run).queue != []
  {
    run, steps := ReaderWaits();
    run, steps := WriterRaises(run, steps);
    hide IsRun;
    run, steps := Extend(run, steps, CloserStep);
    run, steps := Extend(run, steps, CloserStep);
    run, steps := Extend(run, steps, CloserStep);
  }
}
