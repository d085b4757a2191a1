/** The shared-memory sequence lock between the daemon and the overlay:
 * publish (source/daemon/radar_reader.c) against read_snapshot (source/overlay/radar_overlay.m).
 *
 * One writer process, which may crash and restart on the same file between any two steps, and
 * one reader. Steps are sequentially consistent; each memcpy moves single bytes in any order. */
module Seqlock {
  import opened Bytes

  const SIZE := 33768           // sizeof(radar_shared_t)
  const SEQUENCE_OFFSET := 52   // offsetof(radar_header_t, sequence)
  const MAGIC := 0x52444152
  const VERSION := 4
  const MAX_PLAYERS := 100
  const RETRIES := 3

  type Image = f: seq<byte> | |f| == SIZE witness Zeros(SIZE)

  /** Every byte but those of the sequence word. */
  predicate Body(i: int)
  {
    0 <= i < SIZE && !(SEQUENCE_OFFSET <= i < SEQUENCE_OFFSET + 4)
  }

  ghost predicate SameBody(a: Image, b: Image)
  {
    forall i :: Body(i) ==> a[i] == b[i]
  }

  function Word(f: Image, offset: nat): nat
    requires offset + 4 <= SIZE
  {
    FromLittleEndian(f[offset..offset + 4])
  }

  /** publish stamps the header before it touches the file. */
  predicate Stamped(f: Image)
  {
    Word(f, 0) == MAGIC && Word(f, 4) == VERSION
  }

  datatype Writer =
    | Down
    | Idle
    | Loaded(frame: Image, sequence: nat)
    | Copying(frame: Image, left: set<int>)

  datatype Reader =
    | Resting
    | Trying(retry: nat)
    | Reading(retry: nat, sequence: nat, copy: Image, got: set<int>, atLoad: History)

  /** What a reader cannot see: the sequence without wrap-around and the frames fully written. */
  datatype History = History(total: nat, finished: seq<Image>)

  datatype Accepted = Accepted(snapshot: Image, index: nat)

  /** `data` is the mapped file but for the sequence word, which is `word`. */
  datatype State = State(word: nat, data: Image, writer: Writer, reader: Reader,
                         history: History, accepted: seq<Accepted>)

  datatype Step =
    | Start
    | Crash
    | Begin(frame: Image)
    | StoreOdd
    | WriteByte(i: int)
    | StoreEven
    | Call
    | LoadSequence
    | ReadByte(i: int, b: byte)
    | Recheck

  predicate Init(s: State)
  {
    s == State(0, Zeros(SIZE), Down, Resting, History(0, []), [])
  }

  /** The odd value stored first: (sequence + 1u) | 1u. */
  function OddAfter(w: nat): nat
  {
    if w % 2 == 0 then w + 1 else (w + 2) % TWO_32
  }

  predicate Enabled(s: State, step: Step)
  {
    match step
    case Start => s.writer.Down?
    case Crash => true
    case Begin(frame) => s.writer.Idle? && Stamped(frame)
    case StoreOdd => s.writer.Loaded?
    case WriteByte(i) => s.writer.Copying? && i in s.writer.left && Body(i)
    case StoreEven => s.writer.Copying? && s.writer.left == {}
    case Call => s.reader.Resting?
    case LoadSequence => s.reader.Trying?
    // The sequence word's own bytes are copied too; what they show does not matter.
    case ReadByte(i, b) => s.reader.Reading? && 0 <= i < SIZE && (Body(i) ==> b == s.data[i])
    case Recheck => s.reader.Reading? && forall i | 0 <= i < SIZE :: i in s.reader.got
  }

  function Retry(retry: nat): Reader
  {
    if retry + 1 < RETRIES then Trying(retry + 1) else Resting
  }

  function Do(s: State, step: Step): (s': State)
    requires Enabled(s, step)
  {
    match step
    case Start => s.(writer := Idle)
    case Crash => s.(writer := Down)
    case Begin(frame) => s.(writer := Loaded(frame, s.word))
    case StoreOdd =>
      var w := OddAfter(s.writer.sequence);
      s.(word := w,
         writer := Copying(s.writer.frame, set i | 0 <= i < SIZE && Body(i)),
         history := s.history.(total := s.history.total + if s.writer.sequence % 2 == 0 then 1 else 2))
    case WriteByte(i) =>
      s.(data := s.data[i := s.writer.frame[i]], writer := s.writer.(left := s.writer.left - {i}))
    case StoreEven =>
      s.(word := (s.word + 1) % TWO_32, writer := Idle,
         history := History(s.history.total + 1, s.history.finished + [s.writer.frame]))
    case Call => s.(reader := Trying(0))
    case LoadSequence =>
      if s.word % 2 == 1 then s.(reader := Retry(s.reader.retry))
      else s.(reader := Reading(s.reader.retry, s.word, Zeros(SIZE), {}, s.history))
    case ReadByte(i, b) =>
      s.(reader := s.reader.(copy := s.reader.copy[i := b], got := s.reader.got + {i}))
    case Recheck =>
      if s.word != s.reader.sequence then s.(reader := Retry(s.reader.retry))
      else if !Stamped(s.reader.copy) || Word(s.reader.copy, 12) > MAX_PLAYERS then s.(reader := Resting)
      else s.(reader := Resting,
              accepted := s.accepted + [Accepted(s.reader.copy, |s.reader.atLoad.finished|)])
  }

  ghost predicate Next(s: State, s': State)
  {
    exists step :: Enabled(s, step) && s' == Do(s, step)
  }

  /** The sequence has not gone all the way round since the reader loaded it. */
  ghost predicate NoWrap(s: State)
  {
    s.reader.Reading? ==> s.history.total < s.reader.atLoad.total + TWO_32
  }

  ghost predicate IsRun(run: seq<State>)
  {
    && |run| > 0 && Init(run[0])
    && forall i :: 0 <= i < |run| - 1 ==> Next(run[i], run[i + 1])
  }

  // ---- The invariant ----

  /** While the word is even the file holds the last finished frame, or nothing yet. */
  ghost predicate Settled(data: Image, finished: seq<Image>)
  {
    SameBody(data, if finished == [] then Zeros(SIZE) else finished[|finished| - 1])
  }

  ghost predicate WriterInv(s: State)
  {
    && s.word == s.history.total % TWO_32
    && (s.writer.Loaded? ==> s.writer.sequence == s.word && Stamped(s.writer.frame))
    && (s.writer.Copying? ==>
          && s.word % 2 == 1 && Stamped(s.writer.frame)
          && forall i :: Body(i) && i !in s.writer.left ==> s.data[i] == s.writer.frame[i])
    && (s.word % 2 == 0 ==> Settled(s.data, s.history.finished))
  }

  ghost predicate ReaderInv(s: State)
  {
    s.reader.Reading? ==>
      var r := s.reader;
      && r.sequence % 2 == 0 && r.sequence == r.atLoad.total % TWO_32
      && r.atLoad.total <= s.history.total && r.atLoad.finished <= s.history.finished
      && (r.atLoad.total == s.history.total ==>
            && r.atLoad == s.history
            && forall i :: Body(i) && i in r.got ==> r.copy[i] == s.data[i])
  }

  /** Each accepted snapshot is the frame finished last when its read began; order is kept. */
  ghost predicate AcceptedInv(s: State)
  {
    && (forall j :: 0 <= j < |s.accepted| ==>
          && 0 < s.accepted[j].index <= |s.history.finished|
          && SameBody(s.accepted[j].snapshot, s.history.finished[s.accepted[j].index - 1])
          && (s.reader.Reading? ==> s.accepted[j].index <= |s.reader.atLoad.finished|))
    && forall j, k :: 0 <= j < k < |s.accepted| ==> s.accepted[j].index <= s.accepted[k].index
  }

  ghost predicate Inv(s: State)
  {
    WriterInv(s) && ReaderInv(s) && AcceptedInv(s)
  }

  lemma WriterStep(s: State, step: Step)
    requires WriterInv(s) && Enabled(s, step)
    ensures WriterInv(Do(s, step))
  {
    hide Stamped, Word;
  }

  lemma ReaderStep(s: State, step: Step)
    requires WriterInv(s) && ReaderInv(s) && Enabled(s, step)
    ensures ReaderInv(Do(s, step))
  {
    hide Stamped, Word, Settled, SameBody;
  }

  /** Only a recheck can accept, and the finished frames only grow. */
  lemma OtherStep(s: State, step: Step)
    requires AcceptedInv(s) && Enabled(s, step) && !step.Recheck?
    ensures AcceptedInv(Do(s, step))
  {
    hide Stamped, Word, SameBody;
  }

  /** The heart: an unchanged even word, without a wrap, means that no publish moved in between. */
  lemma NothingMoved(s: State)
    requires Inv(s) && NoWrap(s) && Enabled(s, Recheck) && s.word == s.reader.sequence
    ensures s.reader.atLoad == s.history && Settled(s.data, s.history.finished)
    ensures SameBody(s.reader.copy, s.data)
  {
    hide Stamped, Word, Settled, AcceptedInv;
  }

  /** A copy with the stamp is not the blank file, so it is a finished frame. */
  lemma StampedIsFinished(data: Image, copy: Image, finished: seq<Image>)
    requires Settled(data, finished) && SameBody(copy, data) && Stamped(copy)
    ensures finished != [] && SameBody(copy, finished[|finished| - 1])
  {
    if finished == [] {
      assert forall i :: 0 <= i < 4 ==> Body(i) && copy[i] == 0;
      FourBytes(copy[0..4]);
    }
  }

  lemma RecheckStep(s: State)
    requires Inv(s) && NoWrap(s) && Enabled(s, Recheck)
    ensures AcceptedInv(Do(s, Recheck))
  {
    hide Stamped, Word, SameBody, Settled, WriterInv, ReaderInv;
    if s.word == s.reader.sequence && Stamped(s.reader.copy) {
      NothingMoved(s);
      StampedIsFinished(s.data, s.reader.copy, s.history.finished);
    }
  }

  lemma InvStep(s: State, step: Step)
    requires Inv(s) && NoWrap(s) && Enabled(s, step)
    ensures Inv(Do(s, step))
  {
    hide WriterInv, ReaderInv, AcceptedInv;
    WriterStep(s, step);
    ReaderStep(s, step);
    if step.Recheck? {
      RecheckStep(s);
    } else {
      OtherStep(s, step);
    }
  }

  lemma {:induction false} RunInv(run: seq<State>)
    requires IsRun(run) && forall i :: 0 <= i < |run| ==> NoWrap(run[i])
    ensures forall i :: 0 <= i < |run| ==> Inv(run[i])
  {
    var n := |run| - 1;
    if n > 0 {
      RunInv(run[..n]);
      assert Next(run[n - 1], run[n - 1 + 1]);
      var step :| Enabled(run[n - 1], step) && run[n] == Do(run[n - 1], step);
      assert Inv(run[..n][n - 1]);
      InvStep(run[n - 1], step);
      forall i | 0 <= i < |run| ensures Inv(run[i]) {
        if i < n { assert Inv(run[..n][i]); }
      }
    }
  }

  // ---- The theorems ----

  /** No torn frame: every snapshot ever accepted is, but for the sequence word, one finished frame,
   * and successive snapshots never go back to an earlier one. */
  lemma SnapshotsAreWhole(run: seq<State>)
    requires IsRun(run) && forall i :: 0 <= i < |run| ==> NoWrap(run[i])
    ensures var s := run[|run| - 1];
            && (forall j :: 0 <= j < |s.accepted| ==>
                  && 0 < s.accepted[j].index <= |s.history.finished|
                  && SameBody(s.accepted[j].snapshot, s.history.finished[s.accepted[j].index - 1]))
            && forall j, k :: 0 <= j < k < |s.accepted| ==> s.accepted[j].index <= s.accepted[k].index
  {
    RunInv(run);
  }

  /** A snapshot is not stale either: it is the newest frame at the moment it is accepted. */
  lemma SnapshotIsCurrent(run: seq<State>, i: nat)
    requires IsRun(run) && forall j :: 0 <= j < |run| ==> NoWrap(run[j])
    requires i < |run| - 1 && |run[i + 1].accepted| > |run[i].accepted|
    ensures var n := |run[i].accepted|; var finished := run[i].history.finished;
            && run[i + 1].accepted[..n] == run[i].accepted && |run[i + 1].accepted| == n + 1
            && finished != [] && SameBody(run[i + 1].accepted[n].snapshot, finished[|finished| - 1])
  {
    RunInv(run);
    assert Next(run[i], run[i + 1]);
    var step :| Enabled(run[i], step) && run[i + 1] == Do(run[i], step);
    assert Inv(run[i + 1]) && run[i].reader.atLoad == run[i].history;
  }
}
