/** When read_snapshot accepts, when it rejects and how often it tries
 * (source/overlay/radar_overlay.m), on the steps of the sequence lock. */
module SeqlockReads {
  import opened Bytes
  import opened Seqlock
  import opened SeqlockWrap

  /**
   * The file: a header of 88 bytes, 100 players of 284, 30 vehicles of 56 and 60 items of 60. The sequence
   * word comes after six words, two vectors and the field of view.
   */
  lemma FileIs(i: int)
    ensures Body(i) <==> 0 <= i < 88 + 100 * 284 + 30 * 56 + 60 * 60 && !(52 <= i < 56)
  {
  }

  // ---------- One read that nothing interrupts ----------

  /** The header a reader accepts, byte by byte: the letters RADR, version 4, at most 100 players. */
  predicate Acceptable(f: Image)
  {
    && f[0] == 0x52 && f[1] == 0x41 && f[2] == 0x44 && f[3] == 0x52
    && f[4] == 4 && f[5] == 0 && f[6] == 0 && f[7] == 0
    && f[12] <= 100 && f[13] == 0 && f[14] == 0 && f[15] == 0
  }

  lemma AcceptableIs(f: Image)
    ensures Acceptable(f) <==> Stamped(f) && Word(f, 12) <= MAX_PLAYERS
  {
    FourBytes(f[0..4]);
    FourBytes(f[4..8]);
    FourBytes(f[12..16]);
  }

  function Run(s: State, steps: seq<Step>): (t: State)
    requires CanRun(s, steps)
    decreases |steps|
  {
    if steps == [] then s else Do(Run(s, steps[..|steps| - 1]), steps[|steps| - 1])
  }

  predicate CanRun(s: State, steps: seq<Step>)
    decreases |steps|, 1
  {
    steps == [] || (CanRun(s, steps[..|steps| - 1])
                    && Enabled(Run(s, steps[..|steps| - 1]), steps[|steps| - 1]))
  }

  /** What a read has copied so far, while nothing else moves. */
  ghost predicate Reads(s: State, t: State)
    requires s.reader.Reading?
  {
    && t.reader.Reading? && t == s.(reader := s.reader.(copy := t.reader.copy, got := t.reader.got))
    && forall i :: Body(i) && i in t.reader.got ==> t.reader.copy[i] == s.data[i]
  }

  lemma {:induction false} CopiesTheFile(s: State, copies: seq<Step>)
    requires s.reader.Reading? && s.reader.got == {} && CanRun(s, copies)
    requires forall k :: 0 <= k < |copies| ==> copies[k].ReadByte?
    ensures Reads(s, Run(s, copies))
    decreases |copies|
  {
    hide Stamped, Word;
    if copies != [] {
      CopiesTheFile(s, copies[..|copies| - 1]);
      assert copies[|copies| - 1].ReadByte?;
    }
  }

  ghost predicate AcceptsExactly(s: State, t: State, good: bool, f: Image)
  {
    if good then
      && |t.accepted| == |s.accepted| + 1 && t.accepted[..|s.accepted|] == s.accepted
      && SameBody(t.accepted[|s.accepted|].snapshot, f)
    else t.accepted == s.accepted
  }

  lemma RecheckDecides(s: State, t: State)
    requires s.reader.Reading? && s.reader.sequence == s.word && Reads(s, t) && Enabled(t, Recheck)
    ensures Do(t, Recheck).reader == Resting && AcceptsExactly(s, Do(t, Recheck), Acceptable(s.data), s.data)
  {
    hide Stamped, Word;
    var copy := t.reader.copy;
    assert forall i :: Body(i) ==> copy[i] == s.data[i];
    assert forall i :: 0 <= i < 16 ==> Body(i);
    AcceptableIs(copy);
    assert Acceptable(copy) <==> Acceptable(s.data);
  }

  /**
   * A try that finds the word even, and copies every byte and checks the word again while nothing else
   * moves, ends the call: it accepts what the file holds exactly when the header is a current one with at
   * most 100 players.
   */
  lemma WholeReadDecides(s: State, copies: seq<Step>)
    requires s.reader.Trying? && s.word % 2 == 0
    requires CanRun(Do(s, LoadSequence), copies) && Enabled(Run(Do(s, LoadSequence), copies), Recheck)
    requires forall k :: 0 <= k < |copies| ==> copies[k].ReadByte?
    ensures var t := Do(Run(Do(s, LoadSequence), copies), Recheck);
      t.reader == Resting && AcceptsExactly(s, t, Acceptable(s.data), s.data)
  {
    hide Stamped, Word, Acceptable;
    CopiesTheFile(Do(s, LoadSequence), copies);
    RecheckDecides(Do(s, LoadSequence), Run(Do(s, LoadSequence), copies));
  }

  /** Such a read is always possible. */
  lemma ReadOnce(s: State) returns (t: State)
    requires s.reader.Resting? && s.word % 2 == 0
    ensures Leads(s, t) && t == s.(accepted := t.accepted)
    ensures AcceptsExactly(s, t, Acceptable(s.data), s.data)
  {
    hide Stamped, Word, Acceptable, Reaches, Leads;
    LeadsStep(s, Call);
    var called := Do(s, Call);
    LeadsThen(s, called, LoadSequence);
    var loaded := Do(called, LoadSequence);
    ReadAll(loaded, AllBytes());
    var copy := Overlay(loaded.reader.copy, loaded.data, AllBytes());
    var copied := loaded.(reader := loaded.reader.(copy := copy, got := loaded.reader.got + AllBytes()));
    LeadsOn(s, loaded, copied);
    LeadsThen(s, copied, Recheck);
    RecheckDecides(loaded, copied);
    t := Do(copied, Recheck);
  }

  /** The little-endian word at byte 12. */
  function PlayerCount(f: Image): int
  {
    var b: seq<int> := f[12..16];
    b[0] + 0x100 * b[1] + 0x1_0000 * b[2] + 0x100_0000 * b[3]
  }

  /** A frame published and then read without interruption is accepted exactly with at most 100 players. */
  lemma PublishThenRead(s: State, frame: Image) returns (t: State)
    requires s.writer.Idle? && s.reader.Resting? && s.word % 2 == 0 && s.word < TWO_32 && Stamped(frame)
    ensures Leads(s, t) && t.history.finished == s.history.finished + [frame]
    ensures AcceptsExactly(s, t, PlayerCount(frame) <= 100, frame)
  {
    hide Stamped, Word, Reaches, Leads;
    PublishOnce(s, frame);
    var published := Published(s, frame);
    t := ReadOnce(published);
    LeadsOn(s, published, t);
    AcceptableIs(frame);
    FourBytes(frame[12..16]);
    assert Word(frame, 12) == FromLittleEndian(frame[12..16]) by { WordIs(frame); }
    assert forall i :: Body(i) ==> published.data[i] == frame[i];
    assert forall i :: 0 <= i < 16 ==> Body(i);
    assert Acceptable(published.data) <==> Acceptable(frame);
  }

  lemma WordIs(f: Image)
    ensures Word(f, 12) == FromLittleEndian(f[12..16])
  {
  }

  // ---------- Three tries ----------

  function Loads(steps: seq<Step>): nat
  {
    if steps == [] then 0 else Loads(steps[..|steps| - 1]) + if steps[|steps| - 1] == LoadSequence then 1 else 0
  }

  /** Some recheck of the run has met the word it had loaded. */
  predicate Decided(s: State, steps: seq<Step>)
    requires CanRun(s, steps)
    decreases |steps|
  {
    && steps != []
    && var before := Run(s, steps[..|steps| - 1]);
      || Decided(s, steps[..|steps| - 1])
      || (steps[|steps| - 1] == Recheck && before.word == before.reader.sequence)
  }

  /**
   * Within one call, whatever the writer does meanwhile: a try that meets an odd or a moved word is made
   * again, three times in all and no more, and accepts nothing.
   */
  lemma {:induction false} ThreeTries(s: State, steps: seq<Step>)
    requires s.reader == Trying(0) && CanRun(s, steps) && Call !in steps
    ensures var t := Run(s, steps);
      && Loads(steps) <= 3
      && (Decided(s, steps) ==> t.reader.Resting?)
      && (!Decided(s, steps) ==>
            && t.accepted == s.accepted
            && match t.reader
               case Resting => Loads(steps) == 3
               case Trying(retry) => Loads(steps) == retry < 3
               case Reading(retry, _, _, _, _) => Loads(steps) == retry + 1 <= 3)
    decreases |steps|
  {
    hide Stamped, Word;
    if steps != [] {
      var front := steps[..|steps| - 1];
      ThreeTries(s, front);
      assert steps[|steps| - 1] != Call;
    }
  }
}
