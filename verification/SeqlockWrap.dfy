/** Why the sequence lock's theorems exclude a full turn of the 32-bit sequence during one read:
 * with it, a run exists that accepts a frame nobody published. */
module SeqlockWrap {
  import opened Bytes
  import opened Seqlock

  ghost predicate Reaches(s: State, t: State, n: nat)
    decreases n
  {
    if n == 0 then s == t else exists u :: Next(s, u) && Reaches(u, t, n - 1)
  }

  ghost predicate Leads(s: State, t: State)
  {
    exists n: nat :: Reaches(s, t, n)
  }

  lemma LeadsSelf(s: State)
    ensures Leads(s, s)
  {
    assert Reaches(s, s, 0);
  }

  lemma LeadsStep(s: State, step: Step)
    requires Enabled(s, step)
    ensures Leads(s, Do(s, step))
  {
    var t := Do(s, step);
    assert Next(s, t) && Reaches(t, t, 0);
    assert Reaches(s, t, 1);
  }

  lemma {:induction false} ReachesOn(s: State, t: State, u: State, n: nat, m: nat)
    requires Reaches(s, t, n) && Reaches(t, u, m)
    ensures Reaches(s, u, n + m)
    decreases n
  {
    if n > 0 {
      var v :| Next(s, v) && Reaches(v, t, n - 1);
      ReachesOn(v, t, u, n - 1, m);
    }
  }

  lemma LeadsOn(s: State, t: State, u: State)
    requires Leads(s, t) && Leads(t, u)
    ensures Leads(s, u)
  {
    var n: nat :| Reaches(s, t, n);
    var m: nat :| Reaches(t, u, m);
    ReachesOn(s, t, u, n, m);
  }

  lemma LeadsThen(s: State, t: State, step: Step)
    requires Leads(s, t) && Enabled(t, step)
    ensures Leads(s, Do(t, step))
  {
    LeadsStep(t, step);
    LeadsOn(s, t, Do(t, step));
  }

  ghost predicate IsPath(run: seq<State>, s: State, t: State)
  {
    && |run| > 0 && run[0] == s && run[|run| - 1] == t
    && forall i :: 0 <= i < |run| - 1 ==> Next(run[i], run[i + 1])
  }

  lemma {:induction false} ReachesPath(s: State, t: State, n: nat) returns (run: seq<State>)
    requires Reaches(s, t, n)
    ensures IsPath(run, s, t)
    decreases n
  {
    if n == 0 {
      run := [s];
    } else {
      var u :| Next(s, u) && Reaches(u, t, n - 1);
      var rest := ReachesPath(u, t, n - 1);
      run := [s] + rest;
      forall i | 0 <= i < |run| - 1 ensures Next(run[i], run[i + 1]) {
        if i > 0 { assert Next(rest[i - 1], rest[i - 1 + 1]); }
      }
    }
  }

  // ---- Whole publishes and whole reads, as many steps at once ----

  function Overlay(under: Image, over: Image, at: set<int>): (f: Image)
    ensures forall i :: 0 <= i < SIZE ==> f[i] == if i in at then over[i] else under[i]
  {
    seq(SIZE, i requires 0 <= i < SIZE => if i in at then over[i] else under[i])
  }

  ghost function Pick<T>(s: set<T>): (i: T)
    requires s != {}
    ensures i in s
  {
    var i :| i in s; i
  }

  lemma {:induction false} WriteAll(s: State)
    requires s.writer.Copying? && forall i :: i in s.writer.left ==> Body(i)
    ensures Leads(s, s.(data := Overlay(s.data, s.writer.frame, s.writer.left), writer := Copying(s.writer.frame, {})))
    decreases s.writer.left
  {
    var t := s.(data := Overlay(s.data, s.writer.frame, s.writer.left), writer := Copying(s.writer.frame, {}));
    if s.writer.left != {} {
      var i := Pick(s.writer.left);
      var u := Do(s, WriteByte(i));
      WriteAll(u);
      assert t.data == Overlay(u.data, u.writer.frame, u.writer.left);
      LeadsStep(s, WriteByte(i));
      LeadsOn(s, u, t);
    } else {
      assert s.data == t.data;
      LeadsSelf(s);
    }
  }

  lemma {:induction false} ReadAll(s: State, todo: set<int>)
    requires s.reader.Reading? && forall i :: i in todo ==> 0 <= i < SIZE
    ensures Leads(s, s.(reader := s.reader.(copy := Overlay(s.reader.copy, s.data, todo), got := s.reader.got + todo)))
    decreases todo
  {
    var t := s.(reader := s.reader.(copy := Overlay(s.reader.copy, s.data, todo), got := s.reader.got + todo));
    if todo != {} {
      var i := Pick(todo);
      var step := ReadByte(i, s.data[i]);
      var u := Do(s, step);
      ReadAll(u, todo - {i});
      assert t.reader.copy == Overlay(u.reader.copy, u.data, todo - {i});
      assert t.reader.got == u.reader.got + (todo - {i});
      LeadsStep(s, step);
      LeadsOn(s, u, t);
    } else {
      assert s.reader.copy == t.reader.copy && t.reader.got == s.reader.got;
      LeadsSelf(s);
    }
  }

  function Bodies(): set<int>
  {
    set i | 0 <= i < SIZE && Body(i)
  }

  predicate InFile(i: int) { 0 <= i < SIZE }

  function AllBytes(): set<int>
  {
    set i | 0 <= i < SIZE && InFile(i)
  }

  function Published(s: State, frame: Image): State
  {
    s.(word := (s.word + 2) % TWO_32, data := Overlay(s.data, frame, Bodies()),
       history := History(s.history.total + 2, s.history.finished + [frame]))
  }

  lemma PublishOnce(s: State, frame: Image)
    requires s.writer.Idle? && s.word % 2 == 0 && s.word < TWO_32 && Stamped(frame)
    ensures Leads(s, Published(s, frame))
  {
    hide Stamped;
    LeadsStep(s, Begin(frame));
    var loaded := Do(s, Begin(frame));
    LeadsThen(s, loaded, StoreOdd);
    var odd := Do(loaded, StoreOdd);
    WriteAll(odd);
    var written := odd.(data := Overlay(odd.data, frame, odd.writer.left), writer := Copying(frame, {}));
    LeadsOn(s, odd, written);
    LeadsThen(s, written, StoreEven);
    assert odd.writer.left == Bodies();
    assert Do(written, StoreEven) == Published(s, frame);
  }

  lemma OverlayTwice(under: Image, over: Image, at: set<int>)
    ensures Overlay(Overlay(under, over, at), over, at) == Overlay(under, over, at)
  {
  }

  lemma TwoMore(w: nat, k: nat)
    requires w % 2 == 0 && k > 0
    ensures var u := (w + 2 * (k - 1)) % TWO_32; u % 2 == 0 && u < TWO_32 && (u + 2) % TWO_32 == (w + 2 * k) % TWO_32
  {
  }

  /** After k publishes of one frame only the sequence and the history tell how many there were. */
  lemma {:induction false} PublishMany(s: State, frame: Image, k: nat) returns (t: State)
    requires s.writer.Idle? && s.word % 2 == 0 && s.word < TWO_32 && Stamped(frame)
    ensures Leads(s, t) && t == s.(word := t.word, data := t.data, history := t.history)
    ensures t.word == (s.word + 2 * k) % TWO_32
    ensures k == 0 ==> t == s
    ensures k > 0 ==> t.data == Overlay(s.data, frame, Bodies())
    ensures forall f :: f in t.history.finished ==> f == frame || f in s.history.finished
  {
    hide Stamped, Word, Reaches, Leads, Overlay, Bodies;
    if k == 0 {
      t := s;
      LeadsSelf(s);
    } else {
      var u := PublishMany(s, frame, k - 1);
      TwoMore(s.word, k);
      PublishOnce(u, frame);
      t := Published(u, frame);
      LeadsOn(s, u, t);
      OverlayTwice(s.data, frame, Bodies());
    }
  }

  // ---- The run ----

  function Header(): (f: Image)
    ensures Stamped(f) && Word(f, 12) == 0 && forall i :: 12 <= i < SIZE ==> f[i] == 0
  {
    var f := Zeros(SIZE)[0 := 0x52][1 := 0x41][2 := 0x44][3 := 0x52][4 := 4];
    FourBytes(f[0..4]);
    FourBytes(f[4..8]);
    FourBytes(f[12..16]);
    assert f[0..4] == [0x52, 0x41, 0x44, 0x52] && f[4..8] == [4, 0, 0, 0] && f[12..16] == [0, 0, 0, 0];
    f
  }

  /** The first frame differs from the second in two bytes. */
  function FrameA(): Image { Header()[60 := 1] }
  function FrameB(): Image { Header()[61 := 1] }

  lemma SameHeader(f: Image)
    requires forall i :: Body(i) && i < 16 ==> f[i] == Header()[i]
    ensures Stamped(f) && Word(f, 12) == 0
  {
    FourBytes(f[0..4]);
    FourBytes(f[4..8]);
    FourBytes(f[12..16]);
    assert f[0..4] == Header()[0..4] && f[4..8] == Header()[4..8] && f[12..16] == Header()[12..16];
  }

  /** One byte is read of frame A, then B is published 2^31 times, then the rest is read of B. */
  lemma TornAfterFullTurn() returns (run: seq<State>)
    ensures IsRun(run)
    ensures var s := run[|run| - 1];
            |s.accepted| == 1 && forall f :: f in s.history.finished ==> !SameBody(s.accepted[0].snapshot, f)
  {
    hide Stamped, Word, Reaches, Leads;
    var s0 := State(0, Zeros(SIZE), Down, Resting, History(0, []), []);
    LeadsStep(s0, Start);
    var s1 := Do(s0, Start);
    SameHeader(FrameA());
    SameHeader(FrameB());
    PublishOnce(s1, FrameA());
    var s2 := Published(s1, FrameA());
    LeadsOn(s0, s1, s2);
    LeadsThen(s0, s2, Call);
    var s3 := Do(s2, Call);
    LeadsThen(s0, s3, LoadSequence);
    var s4 := Do(s3, LoadSequence);
    LeadsThen(s0, s4, ReadByte(60, 1));
    var s5 := Do(s4, ReadByte(60, 1));
    var s6 := PublishMany(s5, FrameB(), 0x8000_0000);
    LeadsOn(s0, s5, s6);
    var rest := AllBytes() - {60};
    ReadAll(s6, rest);
    var s7 := s6.(reader := s6.reader.(copy := Overlay(s6.reader.copy, s6.data, rest), got := s6.reader.got + rest));
    LeadsOn(s0, s6, s7);
    var torn := s7.reader.copy;
    assert torn[60] == 1 && torn[61] == 1;
    SameHeader(torn);
    LeadsThen(s0, s7, Recheck);
    var s8 := Do(s7, Recheck);
    assert Body(60) && Body(61);
    assert s8.accepted[0].snapshot == torn;
    var n := LeadsCount(s0, s8);
    run := ReachesPath(s0, s8, n);
  }

  lemma LeadsCount(s: State, t: State) returns (n: nat)
    requires Leads(s, t)
    ensures Reaches(s, t, n)
  {
    n :| Reaches(s, t, n);
  }
}
