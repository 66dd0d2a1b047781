/** The two threads that share the stream socket, step by step. */
module FrameWriters {
  import opened Bytes
  import opened Framing
  import opened Numbers
  import opened Wrappers

  const BUFFER_SIZE := 8192

  datatype Side = Stdout | Stderr

  function StreamType(side: Side): Byte {
    if side == Stdout then 1 else 2
  }

  /**
   * Where a thread is in its loop: before a read, with a chunk but without the lock, or holding the
   * lock with `left` of the chunk's frame still to be written.
   */
  datatype Phase =
    | Reading
    | Waiting(chunk: seq<Byte>)
    | Writing(chunk: seq<Byte>, left: seq<Byte>)
    | Closed

  datatype Worker = Worker(pending: seq<Byte>, phase: Phase)

  datatype State = State(stdout: Worker, stderr: Worker, holder: Option<Side>, socket: seq<Byte>)

  function Get(s: State, side: Side): Worker {
    if side == Stdout then s.stdout else s.stderr
  }

  function Set(s: State, side: Side, w: Worker): State {
    if side == Stdout then s.(stdout := w) else s.(stderr := w)
  }

  function Start(stdout: seq<Byte>, stderr: seq<Byte>): State {
    State(Worker(stdout, Reading), Worker(stderr, Reading), None, [])
  }

  /** A read returns 1 to 8192 bytes; a write call takes any part of what is left. */
  datatype Step =
    | Read(side: Side, n: nat)
    | Lock(side: Side)
    | Write(side: Side, n: nat)
    | Unlock(side: Side)
    | Close(side: Side)

  predicate Enabled(s: State, step: Step) {
    var w := Get(s, step.side);
    match step
    case Read(_, n) => w.phase.Reading? && 1 <= n <= BUFFER_SIZE && n <= |w.pending|
    case Lock(_) => w.phase.Waiting? && s.holder == None && Fits(w.phase.chunk)
    case Write(_, n) => w.phase.Writing? && 1 <= n <= |w.phase.left|
    case Unlock(_) => w.phase.Writing? && w.phase.left == []
    case Close(_) => w.phase.Reading? && w.pending == []
  }

  function Apply(s: State, step: Step): State
    requires Enabled(s, step)
  {
    var side := step.side;
    var w := Get(s, side);
    match step
    case Read(_, n) => Set(s, side, Worker(w.pending[n..], Waiting(w.pending[..n])))
    case Lock(_) =>
      var frame := Encode(Frame(StreamType(side), w.phase.chunk));
      Set(s, side, w.(phase := Writing(w.phase.chunk, frame))).(holder := Some(side))
    case Write(_, n) =>
      Set(s, side, w.(phase := Writing(w.phase.chunk, w.phase.left[n..]))).(socket := s.socket + w.phase.left[..n])
    case Unlock(_) => Set(s, side, w.(phase := Reading)).(holder := None)
    case Close(_) => Set(s, side, w.(phase := Closed))
  }

  // ── The invariant ───────────────────────────────────────────────────

  /** What a thread has read but not yet delivered as a whole frame. */
  function InFlight(phase: Phase): seq<Byte> {
    match phase
    case Waiting(chunk) => chunk
    case Writing(chunk, left) => if left == [] then [] else chunk
    case _ => []
  }

  predicate ChunkFits(phase: Phase) {
    (phase.Waiting? || phase.Writing?) ==> 1 <= |phase.chunk| <= BUFFER_SIZE
  }

  /** The stream of one side as the whole frames on the socket carry it. */
  function Sent(socket: seq<Byte>, side: Side): seq<Byte> {
    Stream(Decode(socket).frames, StreamType(side))
  }

  /** Nothing of a side's input is lost, repeated or out of order. */
  predicate Accounted(s: State, side: Side, input: seq<Byte>) {
    var w := Get(s, side);
    && input == Sent(s.socket, side) + InFlight(w.phase) + w.pending
    && ChunkFits(w.phase)
    && (w.phase.Writing? <==> s.holder == Some(side))
    && (w.phase.Closed? ==> w.pending == [])
  }

  /** The unfinished bytes on the socket are the start of the frame that the lock holder is writing. */
  predicate Partial(s: State) {
    match s.holder
    case None => Decode(s.socket).rest == []
    case Some(side) =>
      var phase := Get(s, side).phase;
      && phase.Writing? && Fits(phase.chunk)
      && PartOf(Decode(s.socket).rest, phase.left, Frame(StreamType(side), phase.chunk))
  }

  predicate PartOf(rest: seq<Byte>, left: seq<Byte>, f: Frame)
    requires Fits(f.payload)
  {
    if left == [] then rest == [] else rest + left == Encode(f)
  }

  predicate Inv(s: State, stdout: seq<Byte>, stderr: seq<Byte>) {
    Accounted(s, Stdout, stdout) && Accounted(s, Stderr, stderr) && Partial(s)
  }

  lemma StartInv(stdout: seq<Byte>, stderr: seq<Byte>)
    ensures Inv(Start(stdout, stderr), stdout, stderr)
  {
    assert [] + [] + stdout == stdout && [] + [] + stderr == stderr;
  }

  // ── Every step keeps it ─────────────────────────────────────────────

  /** Writing a part of what is left either leaves the frame unfinished or adds exactly that frame. */
  lemma WriteDecodes(socket: seq<Byte>, f: Frame, left: seq<Byte>, n: nat)
    requires Fits(f.payload) && 1 <= n <= |left| && Decode(socket).rest + left == Encode(f)
    ensures var d := Decode(socket);
            Decode(socket + left[..n]) == if n < |left| then Decoded(d.frames, d.rest + left[..n])
                                          else Decoded(d.frames + [f], [])
  {
    var rest := Decode(socket).rest;
    DecodeAppend(socket, left[..n]);
    var k := |rest| + n;
    assert rest + left[..n] == Encode(f)[..k];
    if n < |left| {
      DecodePart(f, k);
    } else {
      assert Encode(f)[..k] == Encode(f);
      DecodeOne(f);
    }
  }

  lemma StreamOne(f: Frame, streamType: Byte)
    ensures Stream([f], streamType) == if f.streamType == streamType then f.payload else []
  {
    assert [f][1..] == [];
  }

  lemma ReadAccounts(s: State, side: Side, n: nat, other: Side, input: seq<Byte>)
    requires Accounted(s, other, input) && Enabled(s, Read(side, n))
    ensures Accounted(Apply(s, Read(side, n)), other, input)
  {
    if other == side {
      var pending := Get(s, side).pending;
      MovedToFlight(Sent(s.socket, side), pending, n);
    }
  }

  lemma MovedToFlight(sent: seq<Byte>, pending: seq<Byte>, n: nat)
    requires n <= |pending|
    ensures sent + [] + pending == sent + pending[..n] + pending[n..]
  {
    assert pending == pending[..n] + pending[n..];
  }

  lemma ReadKeeps(s: State, side: Side, n: nat, stdout: seq<Byte>, stderr: seq<Byte>)
    requires Inv(s, stdout, stderr) && Enabled(s, Read(side, n))
    ensures Inv(Apply(s, Read(side, n)), stdout, stderr)
  {
    ReadAccounts(s, side, n, Stdout, stdout);
    ReadAccounts(s, side, n, Stderr, stderr);
    assert Partial(Apply(s, Read(side, n))) by { assert s.holder != Some(side); }
  }

  lemma LockKeeps(s: State, side: Side, stdout: seq<Byte>, stderr: seq<Byte>)
    requires Inv(s, stdout, stderr) && Enabled(s, Lock(side))
    ensures Inv(Apply(s, Lock(side)), stdout, stderr)
  {
  }

  lemma WriteSends(socket: seq<Byte>, side: Side, chunk: seq<Byte>, left: seq<Byte>, n: nat, other: Side)
    requires Fits(chunk) && 1 <= n <= |left| && Decode(socket).rest + left == Encode(Frame(StreamType(side), chunk))
    ensures Sent(socket + left[..n], other)
         == if n == |left| && other == side then Sent(socket, other) + chunk else Sent(socket, other)
  {
    var f := Frame(StreamType(side), chunk);
    WriteDecodes(socket, f, left, n);
    StreamAppend(Decode(socket).frames, [f], StreamType(other));
    StreamOne(f, StreamType(other));
  }

  lemma WriteAccounts(s: State, side: Side, n: nat, other: Side, input: seq<Byte>)
    requires Partial(s) && s.holder == Some(side) && Accounted(s, other, input) && Enabled(s, Write(side, n))
    ensures Accounted(Apply(s, Write(side, n)), other, input)
  {
    var w := Get(s, side);
    WriteSends(s.socket, side, w.phase.chunk, w.phase.left, n, other);
    var t := Apply(s, Write(side, n));
    if other == side {
      assert Get(t, other) == w.(phase := Writing(w.phase.chunk, w.phase.left[n..]));
    } else {
      assert Get(t, other) == Get(s, other);
    }
  }

  lemma WritePartial(s: State, side: Side, n: nat)
    requires Partial(s) && s.holder == Some(side) && Enabled(s, Write(side, n))
    ensures Partial(Apply(s, Write(side, n)))
  {
    var w := Get(s, side);
    var rest := Decode(s.socket).rest;
    WriteDecodes(s.socket, Frame(StreamType(side), w.phase.chunk), w.phase.left, n);
    assert rest + w.phase.left[..n] + w.phase.left[n..] == rest + w.phase.left;
  }

  lemma WriteKeeps(s: State, side: Side, n: nat, stdout: seq<Byte>, stderr: seq<Byte>)
    requires Inv(s, stdout, stderr) && Enabled(s, Write(side, n))
    ensures Inv(Apply(s, Write(side, n)), stdout, stderr)
  {
    WriteAccounts(s, side, n, Stdout, stdout);
    WriteAccounts(s, side, n, Stderr, stderr);
    WritePartial(s, side, n);
  }

  lemma UnlockKeeps(s: State, side: Side, stdout: seq<Byte>, stderr: seq<Byte>)
    requires Inv(s, stdout, stderr) && Enabled(s, Unlock(side))
    ensures Inv(Apply(s, Unlock(side)), stdout, stderr)
  {
  }

  lemma StepKeeps(s: State, step: Step, stdout: seq<Byte>, stderr: seq<Byte>)
    requires Inv(s, stdout, stderr) && Enabled(s, step)
    ensures Inv(Apply(s, step), stdout, stderr)
  {
    match step
    case Read(side, n) => ReadKeeps(s, side, n, stdout, stderr);
    case Lock(side) => LockKeeps(s, side, stdout, stderr);
    case Write(side, n) => WriteKeeps(s, side, n, stdout, stderr);
    case Unlock(side) => UnlockKeeps(s, side, stdout, stderr);
    case Close(_) =>
  }

  // ── Whole executions ────────────────────────────────────────────────

  /** The steps can be taken one after the other from s, ending in t. */
  predicate Runs(s: State, steps: seq<Step>, t: State)
    decreases |steps|
  {
    if steps == [] then s == t else Enabled(s, steps[0]) && Runs(Apply(s, steps[0]), steps[1..], t)
  }

  lemma {:induction false} RunKeeps(s: State, steps: seq<Step>, t: State, stdout: seq<Byte>, stderr: seq<Byte>)
    requires Inv(s, stdout, stderr) && Runs(s, steps, t)
    ensures Inv(t, stdout, stderr)
    decreases |steps|
  {
    if steps != [] {
      StepKeeps(s, steps[0], stdout, stderr);
      RunKeeps(Apply(s, steps[0]), steps[1..], t, stdout, stderr);
    }
  }

  predicate Finished(s: State) {
    s.stdout.phase.Closed? && s.stderr.phase.Closed?
  }

  /**
   * Whatever the chunks and whoever takes the lock when: at every moment the whole frames on the
   * socket carry a prefix of each stream, and once both threads are done they carry both streams
   * exactly, with no byte left over.
   */
  lemma SocketCarriesBoth(stdout: seq<Byte>, stderr: seq<Byte>, steps: seq<Step>, s: State)
    requires Runs(Start(stdout, stderr), steps, s)
    ensures var d := Decode(s.socket);
            && Stream(d.frames, 1) <= stdout && Stream(d.frames, 2) <= stderr
            && (Finished(s) ==> Stream(d.frames, 1) == stdout && Stream(d.frames, 2) == stderr && d.rest == [])
  {
    StartInv(stdout, stderr);
    RunKeeps(Start(stdout, stderr), steps, s, stdout, stderr);
  }

  /** The threads never block each other for good. */
  lemma NoDeadlock(s: State, stdout: seq<Byte>, stderr: seq<Byte>) returns (step: Step)
    requires Inv(s, stdout, stderr) && !Finished(s)
    ensures Enabled(s, step)
  {
    var side := match s.holder case Some(h) => h case None => if s.stdout.phase.Closed? then Stderr else Stdout;
    var w := Get(s, side);
    match w.phase
    case Reading => step := if w.pending == [] then Close(side) else Read(side, 1);
    case Waiting(_) => step := Lock(side);
    case Writing(_, left) => step := if left == [] then Unlock(side) else Write(side, 1);
    case Closed => assert false;
  }

  // ── Termination ─────────────────────────────────────────────────────

  function WorkLeft(w: Worker): nat {
    12 * |w.pending| + match w.phase
      case Reading => 1
      case Waiting(chunk) => |chunk| + 11
      case Writing(_, left) => |left| + 2
      case Closed => 0
  }

  function Measure(s: State): nat {
    WorkLeft(s.stdout) + WorkLeft(s.stderr)
  }

  lemma StepShrinks(s: State, step: Step)
    requires Enabled(s, step)
    ensures Measure(Apply(s, step)) < Measure(s)
  {
  }

  /** No run is longer than twelve steps a byte and two more. */
  lemma {:induction false} RunsAreShort(s: State, steps: seq<Step>, t: State)
    requires Runs(s, steps, t)
    ensures |steps| + Measure(t) <= Measure(s)
    decreases |steps|
  {
    if steps != [] {
      StepShrinks(s, steps[0]);
      RunsAreShort(Apply(s, steps[0]), steps[1..], t);
    }
  }

  lemma RunLength(stdout: seq<Byte>, stderr: seq<Byte>, steps: seq<Step>, s: State)
    requires Runs(Start(stdout, stderr), steps, s)
    ensures |steps| <= 12 * (|stdout| + |stderr|) + 2
  {
    RunsAreShort(Start(stdout, stderr), steps, s);
  }

  // ── The host's encoder ──────────────────────────────────────────────

  lemma Clamped(streamType: Byte, payload: seq<Byte>)
    requires !Fits(payload)
    ensures Decode(HostFrame(streamType, payload)).frames != [Frame(streamType, payload)]
  {
    var head := Frame(streamType, payload[..U32_MAX]);
    assert HostFrame(streamType, payload) == Encode(head) + payload[U32_MAX..];
    EncodeWhole(head, payload[U32_MAX..]);
    assert Decode(HostFrame(streamType, payload)).frames[0] == head;
    assert |head.payload| != |payload|;
  }

  /** The host's frames are the guest's, and decode to their payload, exactly when that is shorter than 2^32 bytes. */
  lemma HostFrames(streamType: Byte, payload: seq<Byte>)
    ensures GuestFrame(streamType, payload) == Some(HostFrame(streamType, payload)) <==> Fits(payload)
    ensures Decode(HostFrame(streamType, payload)) == Decoded([Frame(streamType, payload)], []) <==> Fits(payload)
  {
    if Fits(payload) { DecodeOne(Frame(streamType, payload)); } else { Clamped(streamType, payload); }
  }
}
