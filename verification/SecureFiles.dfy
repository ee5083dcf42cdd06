/**
 The POSIX file session: reads, short writes, commit and dispose interleaved with native
 I/O that settles in its own time. Native calls are events; a task is a number.
 */
module SecureFiles {
  import opened Buffers

  /** The writer's async work on one chunk: its own task, and where its loop stands. */
  datatype Writer =
    | Idle
    | InFlight(chunk: Buffer, offset: nat, work: nat, io: nat)
    | Returned(chunk: Buffer, offset: nat, work: nat, count: Option<nat>)

  /**
   `file` is the temporary file, `written` the chunks called back as written, `failed`
   the chunk called back with an error and `torn` the part of it that is in the file.
   */
  datatype Disk = Disk(
    file: Buffer,
    written: seq<Buffer>,
    failed: Option<Buffer>,
    torn: Buffer,
    renames: nat,
    temporaryRemoved: bool)

  /**
   `native` is the I/O the kernel still performs, `waiting` what dispose waits for.
   */
  datatype Session = Session(
    open: bool,
    pending: set<nat>,
    native: set<nat>,
    nextTask: nat,
    reader: Option<nat>,
    writer: Writer,
    sourceDestroyed: bool,
    destinationDestroyed: bool,
    committed: bool,
    disposed: bool,
    waiting: set<nat>,
    disk: Disk)

  function Opened(): Session {
    Session(true, {}, {}, 0, None, Idle, false, false, false, false, {}, Disk([], [], None, [], 0, false))
  }

  datatype Event =
    | Read
    | ReadReturns(ok: bool)
    | Write(chunk: Buffer)
    | WriteReturns(count: Option<nat>)
    | WriterResumes
    | DestroyStreams(source: bool, destination: bool)
    | Commit(renamed: bool)
    | Dispose
    | Cleanup

  /** A new native call: a task that is pending and in the kernel's hands. */
  function Submitted(s: Session): Session {
    s.(pending := s.pending + {s.nextTask}, native := s.native + {s.nextTask}, nextTask := s.nextTask + 1)
  }

  function Settled(s: Session, task: nat): Session {
    s.(pending := s.pending - {task}, native := s.native - {task})
  }

  /** The callback of _write: success keeps the stream going, an error destroys it. */
  function CalledBack(s: Session, chunk: Buffer, done: nat, work: nat, ok: bool): Session
    requires done <= |chunk|
  {
    var t := s.(writer := Idle, pending := s.pending - {work});
    if ok then t.(disk := t.disk.(written := t.disk.written + [chunk]))
    else t.(destinationDestroyed := true, disk := t.disk.(failed := Some(chunk), torn := chunk[..done]))
  }

  /** The head of the write loop. */
  function Loop(s: Session, chunk: Buffer, offset: nat, work: nat): Session
    requires offset <= |chunk|
  {
    if offset == |chunk| then CalledBack(s, chunk, offset, work, true)
    else if s.disposed then CalledBack(s, chunk, offset, work, false)
    else Submitted(s).(writer := InFlight(chunk, offset, work, s.nextTask))
  }

  /** The position in a chunk and the count the kernel reports for the rest of it. */
  predicate WriterValid(w: Writer) {
    && (w.InFlight? ==> w.offset < |w.chunk|)
    && (w.Returned? ==> w.offset < |w.chunk| && (w.count.Some? ==> w.offset + w.count.value <= |w.chunk|))
  }

  /** The streams call neither read nor write once destroyed; a native write reports at most what it was given. */
  predicate Enabled(s: Session, e: Event) {
    match e
    case Read => !s.sourceDestroyed
    case ReadReturns(_) => s.reader.Some?
    case Write(_) => !s.destinationDestroyed && s.writer.Idle?
    case WriteReturns(count) =>
      s.writer.InFlight? && s.writer.offset < |s.writer.chunk|
      && (count.Some? ==> count.value <= |s.writer.chunk| - s.writer.offset)
    case WriterResumes => s.writer.Returned? && WriterValid(s.writer)
    case DestroyStreams(_, _) => true
    case Commit(_) => true
    case Dispose => true
    case Cleanup => s.open && s.disposed && s.waiting !! s.pending
  }

  function Next(s: Session, e: Event): Session
    requires Enabled(s, e)
  {
    match e
    case Read => if s.reader.Some? then s else Submitted(s).(reader := Some(s.nextTask))
    case ReadReturns(ok) =>
      var t := Settled(s, s.reader.value).(reader := None);
      if ok then t else t.(sourceDestroyed := true)
    case Write(chunk) =>
      Loop(s.(pending := s.pending + {s.nextTask}, nextTask := s.nextTask + 1), chunk, 0, s.nextTask)
    case WriteReturns(count) =>
      var w := s.writer;
      var t := Settled(s, w.io).(writer := Returned(w.chunk, w.offset, w.work, count));
      if count.Some? then t.(disk := t.disk.(file := t.disk.file + w.chunk[w.offset..w.offset + count.value])) else t
    case WriterResumes =>
      var w := s.writer;
      if w.count.None? || w.count.value == 0 then CalledBack(s, w.chunk, w.offset, w.work, false)
      else Loop(s, w.chunk, w.offset + w.count.value, w.work)
    case DestroyStreams(source, destination) =>
      s.(sourceDestroyed := s.sourceDestroyed || source, destinationDestroyed := s.destinationDestroyed || destination)
    case Commit(renamed) =>
      if s.disposed || s.committed || !renamed then s
      else s.(committed := true, disk := s.disk.(renames := s.disk.renames + 1))
    case Dispose =>
      if s.disposed then s
      else s.(disposed := true, sourceDestroyed := true, destinationDestroyed := true, waiting := s.pending)
    case Cleanup => s.(open := false, disk := s.disk.(temporaryRemoved := !s.committed))
  }

  predicate Legal(s: Session, events: seq<Event>)
    decreases |events|
  {
    events == [] || (Enabled(s, events[0]) && Legal(Next(s, events[0]), events[1..]))
  }

  function Run(s: Session, events: seq<Event>): Session
    requires Legal(s, events)
    decreases |events|
  {
    if events == [] then s else Run(Next(s, events[0]), events[1..])
  }

  // -------------------------------------------------------------------- invariants

  /** Who waits for native I/O: the reader and the writer, each for its own. */
  predicate TasksAgree(s: Session) {
    && s.native == (if s.reader.Some? then {s.reader.value} else {})
                 + (if s.writer.InFlight? then {s.writer.io} else {})
    && s.pending == s.native + (if s.writer.Idle? then {} else {s.writer.work})
    && (forall t | t in s.pending :: t < s.nextTask)
    && (s.writer.InFlight? ==> s.writer.work != s.writer.io)
    && (s.reader.Some? && s.writer.InFlight? ==> s.reader.value != s.writer.io)
    && (s.reader.Some? && !s.writer.Idle? ==> s.reader.value != s.writer.work)
  }

  predicate DisposalAgrees(s: Session) {
    && (s.disposed ==> s.sourceDestroyed && s.destinationDestroyed && s.pending <= s.waiting)
    && (!s.open ==> s.disposed && s.pending == {} && s.disk.temporaryRemoved == !s.committed)
    && s.disk.renames == (if s.committed then 1 else 0)
  }

  /** The part of the writer's chunk that is in the file. */
  function InFile(w: Writer): Buffer
    requires w.InFlight? || w.Returned? ==> w.offset <= |w.chunk|
    requires w.Returned? && w.count.Some? ==> w.offset + w.count.value <= |w.chunk|
  {
    match w
    case Idle => []
    case InFlight(chunk, offset, _, _) => chunk[..offset]
    case Returned(chunk, offset, _, count) => chunk[..offset + if count.Some? then count.value else 0]
  }

  /** The file holds the chunks written, in order, and the finished part of the one in hand or failed. */
  ghost predicate FileAgrees(s: Session) {
    && WriterValid(s.writer)
    && s.disk.file == Flatten(s.disk.written) + s.disk.torn + InFile(s.writer)
    && (s.disk.failed.None? ==> s.disk.torn == [])
    && (s.disk.failed.Some? ==> s.destinationDestroyed && s.writer.Idle? && s.disk.torn < s.disk.failed.value)
  }

  ghost predicate Inv(s: Session) { TasksAgree(s) && DisposalAgrees(s) && FileAgrees(s) }

  lemma CallbackKeepsInv(s: Session, chunk: Buffer, done: nat, work: nat, ok: bool)
    requires TasksAgree(s.(writer := Idle, pending := s.pending - {work})) && DisposalAgrees(s)
    requires done <= |chunk| && s.disk.failed.None? && s.disk.torn == []
    requires s.disk.file == Flatten(s.disk.written) + chunk[..done]
    requires if ok then done == |chunk| else done < |chunk|
    ensures Inv(CalledBack(s, chunk, done, work, ok))
  {
    hide Flatten;
    var t := CalledBack(s, chunk, done, work, ok);
    assert t.disk.torn + [] == t.disk.torn;
    assert Flatten(t.disk.written) + t.disk.torn + [] == Flatten(t.disk.written) + t.disk.torn;
    if ok {
      FlattenSnoc(s.disk.written, chunk);
      assert chunk[..done] == chunk;
    }
  }

  lemma LoopKeepsInv(s: Session, chunk: Buffer, offset: nat, work: nat)
    requires TasksAgree(s.(writer := Returned(chunk, offset, work, None))) && DisposalAgrees(s) && s.open
    requires offset <= |chunk| && s.disk.failed.None? && s.disk.torn == []
    requires s.disk.file == Flatten(s.disk.written) + chunk[..offset]
    ensures Inv(Loop(s, chunk, offset, work))
  {
    hide Flatten;
    if offset == |chunk| {
      CallbackKeepsInv(s, chunk, offset, work, true);
    } else if s.disposed {
      CallbackKeepsInv(s, chunk, offset, work, false);
    } else {
      assert Flatten(s.disk.written) + [] == Flatten(s.disk.written);
    }
  }

  lemma NextKeepsInv(s: Session, e: Event)
    requires Inv(s) && Enabled(s, e)
    ensures Inv(Next(s, e))
  {
    hide Flatten;
    match e
    case Read => ReadKeepsInv(s);
    case ReadReturns(ok) => ReadReturnKeepsInv(s, ok);
    case Write(chunk) =>
      assert Flatten(s.disk.written) + [] + [] == Flatten(s.disk.written) + chunk[..0];
      LoopKeepsInv(s.(pending := s.pending + {s.nextTask}, nextTask := s.nextTask + 1), chunk, 0, s.nextTask);
    case WriteReturns(count) => WriteReturnKeepsInv(s, count);
    case WriterResumes => ResumeKeepsInv(s);
    case DestroyStreams(_, _) => ControlKeepsInv(s, e);
    case Commit(_) => ControlKeepsInv(s, e);
    case Dispose => ControlKeepsInv(s, e);
    case Cleanup => ControlKeepsInv(s, e);
  }

  lemma ReadKeepsInv(s: Session)
    requires Inv(s) && Enabled(s, Read)
    ensures Inv(Next(s, Read))
  {
    hide Flatten, InFile, WriterValid;
    assert s.nextTask !in s.pending;
  }

  lemma ReadReturnKeepsInv(s: Session, ok: bool)
    requires Inv(s) && Enabled(s, ReadReturns(ok))
    ensures Inv(Next(s, ReadReturns(ok)))
  {
    hide Flatten, InFile, WriterValid;
    var t := Next(s, ReadReturns(ok));
    assert t.native == if s.writer.InFlight? then {s.writer.io} else {};
    assert t.pending == t.native + if s.writer.Idle? then {} else {s.writer.work};
  }

  lemma ControlKeepsInv(s: Session, e: Event)
    requires Inv(s) && Enabled(s, e) && (e.DestroyStreams? || e.Commit? || e.Dispose? || e.Cleanup?)
    ensures Inv(Next(s, e))
  {
    hide Flatten, InFile, WriterValid;
  }

  lemma WriteReturnFile(s: Session, count: Option<nat>)
    requires FileAgrees(s) && Enabled(s, WriteReturns(count))
    ensures FileAgrees(Next(s, WriteReturns(count)))
  {
    hide Flatten, InFile;
    var w, t := s.writer, Next(s, WriteReturns(count));
    InFileIs(w);
    InFileIs(t.writer);
    if count.Some? { FileGrows(Flatten(s.disk.written) + s.disk.torn, w.chunk, w.offset, count.value); }
  }

  lemma InFileIs(w: Writer)
    requires WriterValid(w) && !w.Idle?
    ensures w.InFlight? ==> InFile(w) == w.chunk[..w.offset]
    ensures w.Returned? ==> InFile(w) == w.chunk[..w.offset + if w.count.Some? then w.count.value else 0]
  {
  }

  lemma FileGrows(front: Buffer, chunk: Buffer, offset: nat, n: nat)
    requires offset + n <= |chunk|
    ensures front + chunk[..offset] + chunk[offset..offset + n] == front + chunk[..offset + n]
  {
    assert chunk[..offset] + chunk[offset..offset + n] == chunk[..offset + n];
  }

  lemma WriteReturnKeepsInv(s: Session, count: Option<nat>)
    requires Inv(s) && Enabled(s, WriteReturns(count))
    ensures Inv(Next(s, WriteReturns(count)))
  {
    WriteReturnFile(s, count);
    hide FileAgrees, Flatten, InFile, WriterValid;
    var t := Next(s, WriteReturns(count));
    assert t.native == if s.reader.Some? then {s.reader.value} else {};
    assert t.pending == t.native + {s.writer.work};
  }

  lemma ResumeKeepsInv(s: Session)
    requires Inv(s) && Enabled(s, WriterResumes)
    ensures Inv(Next(s, WriterResumes))
  {
    hide Flatten;
    var w := s.writer;
    assert Flatten(s.disk.written) + [] == Flatten(s.disk.written);
    if w.count.None? || w.count.value == 0 {
      CallbackKeepsInv(s, w.chunk, w.offset, w.work, false);
    } else {
      LoopKeepsInv(s, w.chunk, w.offset + w.count.value, w.work);
    }
  }

  lemma {:induction false} RunKeepsInv(s: Session, events: seq<Event>)
    requires Inv(s) && Legal(s, events)
    ensures Inv(Run(s, events))
    decreases |events|
  {
    hide Inv, Next, Enabled;
    if events != [] {
      NextKeepsInv(s, events[0]);
      RunKeepsInv(Next(s, events[0]), events[1..]);
    }
  }

  // ----------------------------------------------------------------- main results

  lemma OpenedKeepsInv()
    ensures Inv(Opened())
  {
    FlattenNothing();
  }

  /**
   Over every interleaving: closed descriptors mean no native I/O is outstanding; there
   is at most one rename, and the temporary file is removed exactly when there was none;
   the file holds the written chunks in order, then a proper part of a failed chunk or
   the finished part of the one in hand.
   */
  lemma SessionSafety(events: seq<Event>)
    requires Legal(Opened(), events)
    ensures var s := Run(Opened(), events);
      && (!s.open ==> s.native == {} && s.disposed && s.disk.temporaryRemoved == (s.disk.renames == 0))
      && s.disk.renames <= 1 && (s.disk.renames == 1 <==> s.committed)
      && |s.native| <= 2
      && WriterValid(s.writer) && s.disk.file == Flatten(s.disk.written) + s.disk.torn + InFile(s.writer)
      && (s.disk.failed.Some? ==> s.disk.torn < s.disk.failed.value) && (s.disk.failed.None? ==> s.disk.torn == [])
  {
    hide Flatten;
    OpenedKeepsInv();
    RunKeepsInv(Opened(), events);
    var s := Run(Opened(), events);
    assert s.native <= (if s.reader.Some? then {s.reader.value} else {})
                     + (if s.writer.InFlight? then {s.writer.io} else {});
  }

  /** From dispose on, no native call starts and nothing is renamed, and closing is final. */
  lemma {:induction false} NothingStartsAfterDispose(s: Session, events: seq<Event>)
    requires Inv(s) && s.disposed && Legal(s, events)
    ensures var t := Run(s, events);
      && t.disposed && t.native <= s.native && t.nextTask == s.nextTask
      && t.committed == s.committed && t.disk.renames == s.disk.renames
      && (!s.open ==> !t.open && t.disk.file == s.disk.file)
    decreases |events|
  {
    hide Inv, Next, Enabled;
    if events != [] {
      NextKeepsInv(s, events[0]);
      DisposedStep(s, events[0]);
      NothingStartsAfterDispose(Next(s, events[0]), events[1..]);
    }
  }

  lemma DisposedStep(s: Session, e: Event)
    requires Inv(s) && s.disposed && Enabled(s, e)
    ensures var t := Next(s, e);
      && t.disposed && t.native <= s.native && t.nextTask == s.nextTask
      && t.committed == s.committed && t.disk.renames == s.disk.renames
      && (!s.open ==> !t.open && t.disk.file == s.disk.file)
  {
    ClosedIsIdle(s);
    hide TasksAgree, FileAgrees, Flatten, InFile;
  }

  lemma ClosedIsIdle(s: Session)
    requires Inv(s)
    ensures WriterValid(s.writer) && (!s.open ==> s.reader.None? && s.writer.Idle?)
  {
  }

  /** Returns and resumes still to come before nothing is pending. */
  function Owed(s: Session): nat {
    (if s.reader.Some? then 1 else 0) + (if s.writer.InFlight? then 2 else if s.writer.Returned? then 1 else 0)
  }

  /** A native call returns, or the writer goes on after one. */
  predicate Progresses(e: Event) { e.ReadReturns? || e.WriteReturns? || e.WriterResumes? }

  /** After dispose, what is owed never grows, each return and resume pays one, and only what is owed delays cleanup. */
  lemma DisposeProgresses(s: Session, e: Event)
    requires Inv(s) && s.disposed && s.open && Enabled(s, e)
    ensures Owed(Next(s, e)) == Owed(s) - if Progresses(e) then 1 else 0
    ensures Owed(s) == 0 <==> Enabled(s, Cleanup)
    ensures Next(s, e).open <==> !e.Cleanup?
  {
    assert Owed(s) == 0 <==> s.pending == {} by { OwedMeansPending(s); }
    DisposedWaits(s);
    hide FileAgrees, Flatten, InFile, TasksAgree;
  }

  lemma OwedMeansPending(s: Session)
    requires Inv(s)
    ensures Owed(s) == 0 <==> s.pending == {}
  {
    if s.reader.Some? { assert s.reader.value in s.native; }
    if s.writer.InFlight? { assert s.writer.io in s.native; }
    if s.writer.Returned? { assert s.writer.work in s.pending; }
  }

  lemma DisposedWaits(s: Session)
    requires Inv(s) && s.disposed
    ensures s.waiting !! s.pending <==> s.pending == {}
  {
    assert s.pending <= s.waiting;
    assert s.waiting * s.pending == s.pending;
  }

  /**
   Dispose completes: whatever the outstanding native calls report, their returns and at
   most one resume of the writer lead to a cleanup that closes the descriptors.
   */
  lemma DisposeCompletes(s: Session, readOk: bool, count: Option<nat>) returns (events: seq<Event>)
    requires Inv(s) && s.disposed && s.open
    requires s.writer.InFlight? && count.Some? ==> count.value <= |s.writer.chunk| - s.writer.offset
    ensures Legal(s, events) && !Run(s, events).open
    ensures |events| == Owed(s) + 1
    ensures forall e | e in events :: Progresses(e) || e.Cleanup?
    ensures ReadReturns(readOk) in events <==> s.reader.Some?
    ensures WriteReturns(count) in events <==> s.writer.InFlight?
    decreases Owed(s)
  {
    var first := if s.reader.Some? then ReadReturns(readOk) else if s.writer.InFlight? then WriteReturns(count)
      else if s.writer.Returned? then WriterResumes else Cleanup;
    OwedMeansPending(s);
    DisposedWaits(s);
    assert WriterValid(s.writer);
    DisposeProgresses(s, first);
    NextKeepsInv(s, first);
    DisposedStep(s, first);
    ReturnTouches(s, first);
    hide Inv, Next, Enabled;
    if first.Cleanup? {
      events := [Cleanup];
      assert events[1..] == [];
    } else {
      var others := DisposeCompletes(Next(s, first), readOk, count);
      events := [first] + others;
      assert events[1..] == others;
    }
  }

  /** A return or resume after dispose concerns only the side it is for. */
  lemma ReturnTouches(s: Session, e: Event)
    requires Inv(s) && s.disposed && s.open && Enabled(s, e)
    ensures e.ReadReturns? ==> Next(s, e).reader.None? && Next(s, e).writer == s.writer
    ensures e.WriteReturns? ==> Next(s, e).reader == s.reader && Next(s, e).writer.Returned?
    ensures e.WriterResumes? ==> Next(s, e).reader == s.reader && Next(s, e).writer.Idle?
  {
    hide FileAgrees, Flatten, InFile, TasksAgree;
  }

  /** A short write goes on from where it ended, a write without progress fails, and no byte is written twice. */
  lemma WriteLoopProgresses(s: Session)
    requires Inv(s) && s.writer.Returned?
    ensures var t, w := Next(s, WriterResumes), s.writer;
      && (t.writer.InFlight? <==> !s.disposed && w.count.Some? && 0 < w.count.value < |w.chunk| - w.offset)
      && (t.writer.InFlight? ==> t.writer.chunk == w.chunk && t.writer.offset == w.offset + w.count.value > w.offset)
      && (t.disk.written == s.disk.written + [w.chunk] <==> w.count == Some(|w.chunk| - w.offset))
      && (t.disk.failed == Some(w.chunk) <==> t.writer.Idle? && t.disk.written == s.disk.written)
  {
    hide Flatten;
    assert s.disk.written + [s.writer.chunk] != s.disk.written;
  }

  /** Native calls come one at a time for each side, each for what is left of its chunk, and are accounted for. */
  lemma NativeCalls(s: Session, e: Event)
    requires Inv(s) && Enabled(s, e)
    ensures e.Read? && s.reader.Some? ==> Next(s, e) == s
    ensures e.Read? && s.reader.None? ==> var t := Next(s, e);
      && t.reader.Some? && t.reader.value !in s.pending && t.native == s.native + {t.reader.value}
      && t.writer == s.writer && t.disk == s.disk
    ensures e.ReadReturns? ==> var t := Next(s, e);
      && t.reader.None? && t.native == s.native - {s.reader.value}
      && (t.sourceDestroyed <==> s.sourceDestroyed || !e.ok)
      && t.writer == s.writer && t.disk == s.disk
    ensures e.Write? && e.chunk == [] ==> var t := Next(s, e);
      && t.writer.Idle? && t.disk == s.disk.(written := s.disk.written + [[]])
      && t.native == s.native && t.reader == s.reader
    ensures e.Write? && e.chunk != [] ==> var t := Next(s, e);
      && t.writer.InFlight? && t.writer.chunk == e.chunk && t.writer.offset == 0 && t.disk == s.disk
      && t.writer.io !in s.pending && t.native == s.native + {t.writer.io} && t.reader == s.reader
    ensures e.WriteReturns? ==> var t, w := Next(s, e), s.writer;
      && t.native == s.native - {w.io} && t.writer == Returned(w.chunk, w.offset, w.work, e.count)
      && t.reader == s.reader && t.disk == s.disk.(file := s.disk.file + Reported(w, e.count))
  {
    ClosedIsIdle(s);
    hide FileAgrees, Flatten, InFile;
    if e.WriteReturns? && e.count.None? { assert s.disk.file + [] == s.disk.file; }
  }

  /** The bytes a native write says it wrote: from the writer's position on, as many as counted. */
  function Reported(w: Writer, count: Option<nat>): Buffer
    requires w.InFlight? && w.offset <= |w.chunk| && (count.Some? ==> w.offset + count.value <= |w.chunk|)
  {
    if count.None? then [] else w.chunk[w.offset..w.offset + count.value]
  }

  /** A commit the kernel carries out, made before any dispose. */
  ghost predicate CommitsInTime(events: seq<Event>) {
    exists i :: 0 <= i < |events| && events[i] == Commit(true) && forall j | 0 <= j < i :: !events[j].Dispose?
  }

  lemma CommitsFirst(events: seq<Event>)
    requires events != []
    ensures CommitsInTime(events) <==> events[0] == Commit(true) || (!events[0].Dispose? && CommitsInTime(events[1..]))
  {
    var rest := events[1..];
    if CommitsInTime(events) {
      var i :| 0 <= i < |events| && events[i] == Commit(true) && forall j | 0 <= j < i :: !events[j].Dispose?;
      if i > 0 {
        assert rest[i - 1] == Commit(true);
        forall j | 0 <= j < i - 1 ensures !rest[j].Dispose? { assert rest[j] == events[j + 1]; }
      }
    }
    if !events[0].Dispose? && CommitsInTime(rest) {
      var i :| 0 <= i < |rest| && rest[i] == Commit(true) && forall j | 0 <= j < i :: !rest[j].Dispose?;
      assert events[i + 1] == Commit(true);
      forall j | 0 <= j < i + 1 ensures !events[j].Dispose? { if j > 0 { assert events[j] == rest[j - 1]; } }
    }
  }

  /** Disposing, destroying or a failed read ends the source. */
  predicate EndsSource(e: Event) {
    e.Dispose? || (e.DestroyStreams? && e.source) || e == ReadReturns(false)
  }

  predicate EndsDestination(e: Event) { e.Dispose? || (e.DestroyStreams? && e.destination) }

  /** What an event does to the flags of a session. */
  ghost predicate FlagsMoved(s: Session, e: Event, t: Session) {
    && (t.disposed <==> s.disposed || e.Dispose?) && (t.open <==> s.open && !e.Cleanup?)
    && (t.committed <==> s.committed || (e == Commit(true) && !s.disposed))
    && (t.sourceDestroyed <==> s.sourceDestroyed || EndsSource(e))
    && (t.destinationDestroyed <==> s.destinationDestroyed || EndsDestination(e) || t.disk.failed.Some?)
    && (s.disk.failed.Some? ==> t.disk.failed.Some?)
  }

  /** A chunk called back, or not yet: no flag changes but by a failure of the destination. */
  ghost predicate OnlyFails(s: Session, t: Session) {
    && t.disposed == s.disposed && t.open == s.open && t.committed == s.committed
    && t.sourceDestroyed == s.sourceDestroyed
    && ((t.destinationDestroyed == s.destinationDestroyed && t.disk.failed == s.disk.failed)
        || (t.destinationDestroyed && t.disk.failed.Some?))
  }

  lemma LoopOnlyFails(s: Session, chunk: Buffer, offset: nat, work: nat)
    requires offset <= |chunk|
    ensures OnlyFails(s, Loop(s, chunk, offset, work)) && OnlyFails(s, CalledBack(s, chunk, offset, work, false))
  {
  }

  lemma WriterFlags(s: Session, e: Event)
    requires Enabled(s, e) && (e.Write? || e.WriteReturns? || e.WriterResumes?)
    ensures OnlyFails(s, Next(s, e))
  {
    hide Loop, CalledBack;
    if e.Write? {
      LoopOnlyFails(s.(pending := s.pending + {s.nextTask}, nextTask := s.nextTask + 1), e.chunk, 0, s.nextTask);
    } else if e.WriterResumes? {
      var w := s.writer;
      LoopOnlyFails(s, w.chunk, w.offset, w.work);
      if w.count.Some? { LoopOnlyFails(s, w.chunk, w.offset + w.count.value, w.work); }
    }
  }

  lemma FlagsMove(s: Session, e: Event)
    requires Inv(s) && Enabled(s, e)
    ensures FlagsMoved(s, e, Next(s, e))
  {
    FailedIsDestroyed(s);
    hide Inv;
    if e.Write? || e.WriteReturns? || e.WriterResumes? {
      WriterFlags(s, e);
      hide Next, Enabled;
    } else {
      hide Loop, CalledBack;
    }
  }

  lemma {:induction false} FlagsFollow(s: Session, events: seq<Event>)
    requires Inv(s) && Legal(s, events)
    ensures var t := Run(s, events);
      && (t.disposed <==> s.disposed || exists e | e in events :: e.Dispose?)
      && (t.open <==> s.open && Cleanup !in events)
      && (t.committed <==> s.committed || (!s.disposed && CommitsInTime(events)))
      && (t.sourceDestroyed <==> s.sourceDestroyed || exists e | e in events :: EndsSource(e))
      && (t.destinationDestroyed <==>
            s.destinationDestroyed || t.disk.failed.Some? || exists e | e in events :: EndsDestination(e))
      && (s.disk.failed.Some? ==> t.disk.failed.Some?)
    decreases |events|
  {
    hide Inv, Next, Enabled, EndsSource, EndsDestination, CommitsInTime;
    if events == [] {
      NothingCommits();
      FailedIsDestroyed(s);
    } else {
      var first, rest := events[0], events[1..];
      assert events == [first] + rest;
      assert forall e :: e in events <==> e == first || e in rest;
      NextKeepsInv(s, first);
      FlagsMove(s, first);
      CommitsFirst(events);
      FlagsFollow(Next(s, first), rest);
    }
  }

  lemma NothingCommits()
    ensures !CommitsInTime([])
  {
  }

  lemma FailedIsDestroyed(s: Session)
    requires Inv(s)
    ensures s.disk.failed.Some? ==> s.destinationDestroyed
  {
  }

  /**
   The state of a session by what happened to it: committed exactly when the kernel renamed
   the file for a commit before any dispose, disposed and closed when it was told to be, and
   each stream destroyed exactly by a dispose, a destroy or a failure on its side.
   */
  lemma HistoryDecides(events: seq<Event>)
    requires Legal(Opened(), events)
    ensures var s := Run(Opened(), events);
      && (s.committed <==> CommitsInTime(events))
      && (s.disposed <==> exists e | e in events :: e.Dispose?)
      && (s.open <==> Cleanup !in events)
      && (s.sourceDestroyed <==> exists e | e in events ::
            e.Dispose? || (e.DestroyStreams? && e.source) || e == ReadReturns(false))
      && (s.destinationDestroyed <==> s.disk.failed.Some? || exists e | e in events ::
            e.Dispose? || (e.DestroyStreams? && e.destination))
  {
    OpenedKeepsInv();
    FlagsFollow(Opened(), events);
    hide Run, Legal, Inv, CommitsInTime;
    assert forall e :: EndsSource(e) <==> e.Dispose? || (e.DestroyStreams? && e.source) || e == ReadReturns(false);
    assert forall e :: EndsDestination(e) <==> e.Dispose? || (e.DestroyStreams? && e.destination);
  }

  // -------------------------------------------------------------------- the session

  /** The closure variables of openPosix; each method is one synchronous stretch of its code. */
  class PosixSession {
    var descriptorsOpen: bool
    var pending: set<nat>
    var reading: Option<nat>
    var writer: Writer
    var sourceDestroyed: bool
    var destinationDestroyed: bool
    var committed: bool
    var disposed: bool
    var waiting: set<nat>
    ghost var native: set<nat>
    var nextTask: nat
    ghost var disk: Disk

    ghost function Snapshot(): Session
      reads this
    {
      Session(descriptorsOpen, pending, native, nextTask, reading, writer, sourceDestroyed, destinationDestroyed,
              committed, disposed, waiting, disk)
    }

    constructor ()
      ensures Snapshot() == Opened()
    {
      descriptorsOpen, pending, reading, writer := true, {}, None, Idle;
      sourceDestroyed, destinationDestroyed, committed, disposed, waiting := false, false, false, false, {};
      native, nextTask, disk := {}, 0, Disk([], [], None, [], 0, false);
    }

    /** io: hands a call to the kernel. */
    method Submit() returns (task: nat)
      modifies this
      ensures Snapshot() == Submitted(old(Snapshot())) && task == old(nextTask)
    {
      task := nextTask;
      nextTask := nextTask + 1;
      pending, native := pending + {task}, native + {task};
    }

    method Read()
      requires Enabled(Snapshot(), Event.Read)
      modifies this
      ensures Snapshot() == Next(old(Snapshot()), Event.Read)
    {
      if reading.Some? { return; }
      var task := Submit();
      reading := Some(task);
    }

    method OnRead(ok: bool)
      requires Enabled(Snapshot(), ReadReturns(ok))
      modifies this
      ensures Snapshot() == Next(old(Snapshot()), ReadReturns(ok))
    {
      pending, native := pending - {reading.value}, native - {reading.value};
      reading := None;
      if !ok { sourceDestroyed := true; }
    }

    method CallBack(chunk: Buffer, done: nat, work: nat, ok: bool)
      requires done <= |chunk|
      modifies this
      ensures Snapshot() == CalledBack(old(Snapshot()), chunk, done, work, ok)
    {
      pending := pending - {work};
      writer := Idle;
      if ok {
        disk := disk.(written := disk.written + [chunk]);
      } else {
        destinationDestroyed, disk := true, disk.(failed := Some(chunk), torn := chunk[..done]);
      }
    }

    method WriteRest(chunk: Buffer, offset: nat, work: nat)
      requires offset <= |chunk|
      modifies this
      ensures Snapshot() == Loop(old(Snapshot()), chunk, offset, work)
    {
      if offset < |chunk| {
        if disposed {
          CallBack(chunk, offset, work, false);
        } else {
          var io := Submit();
          writer := InFlight(chunk, offset, work, io);
        }
      } else {
        CallBack(chunk, offset, work, true);
      }
    }

    method Write(chunk: Buffer)
      requires Enabled(Snapshot(), Event.Write(chunk))
      modifies this
      ensures Snapshot() == Next(old(Snapshot()), Event.Write(chunk))
    {
      var work := nextTask;
      nextTask := nextTask + 1;
      pending := pending + {work};
      WriteRest(chunk, 0, work);
    }

    method OnWritten(count: Option<nat>)
      requires Enabled(Snapshot(), WriteReturns(count))
      modifies this
      ensures Snapshot() == Next(old(Snapshot()), WriteReturns(count))
    {
      pending, native := pending - {writer.io}, native - {writer.io};
      if count.Some? { disk := disk.(file := disk.file + writer.chunk[writer.offset..writer.offset + count.value]); }
      writer := Returned(writer.chunk, writer.offset, writer.work, count);
    }

    method ResumeWriter()
      requires Enabled(Snapshot(), WriterResumes)
      modifies this
      ensures Snapshot() == Next(old(Snapshot()), WriterResumes)
    {
      if writer.count.None? || writer.count.value == 0 {
        CallBack(writer.chunk, writer.offset, writer.work, false);
      } else {
        WriteRest(writer.chunk, writer.offset + writer.count.value, writer.work);
      }
    }

    /** `renamed` is what renameat does when it is reached. */
    method Commit(renamed: bool) returns (ok: bool)
      modifies this
      ensures Snapshot() == Next(old(Snapshot()), Event.Commit(renamed))
      ensures ok <==> committed && !old(committed)
    {
      if disposed || committed { return false; }
      if !renamed { return false; }
      disk := disk.(renames := disk.renames + 1);
      committed := true;
      return true;
    }

    method Dispose()
      modifies this
      ensures Snapshot() == Next(old(Snapshot()), Event.Dispose)
    {
      if disposed { return; }
      disposed := true;
      sourceDestroyed, destinationDestroyed := true, true;
      waiting := pending;
    }

    method Cleanup()
      requires Enabled(Snapshot(), Event.Cleanup)
      modifies this
      ensures Snapshot() == Next(old(Snapshot()), Event.Cleanup)
    {
      disk := disk.(temporaryRemoved := !committed);
      descriptorsOpen := false;
    }
  }
}
