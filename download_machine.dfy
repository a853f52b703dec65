/**
 The state machine of one SDO download as a pure transition function. The
 client's callback reacts to two kinds of event: an indication from the server
 (the decoded `[command, index, error]`) and the expiry of its timer. The state
 is what the source keeps in the closure of `download` (bytes sent, toggle),
 the shared 8-byte buffer, the frames handed to the channel, how the promise
 settled, whether the callback is still registered and the timer still armed,
 and whether the entry has been overwritten with the new value.
 */
module DownloadMachine {
  import opened SdoFrame

  /** Why a download's promise is rejected. */
  datatype Rejection =
    | Aborted(error: ErrorField)  // the server sent an abort (command 0x80)
    | TimedOut                    // "SDO protocol timed out"
    | NotADataObject              // the device has no entry of that name or index
    | NameNotUnique               // the name resolves to several entries, or to none of a list
    | NoSubIndex                  // a non-zero subindex: the source reads an undeclared variable and throws

  /** A promise settles once; a later resolve or reject has no effect. */
  datatype Outcome = Pending | Resolved | Rejected(why: Rejection)

  datatype Event = Receive(ind: Indication) | Expire

  /** What a download sends: the entry's index and the (size, raw) pair the value codec produced. */
  datatype Request = Request(index: nat, size: nat, raw: seq<Byte>)

  datatype State = State(
    buf: seq<Byte>,
    sent: seq<seq<Byte>>,
    bytesSent: nat,
    toggle: Bit,
    outcome: Outcome,
    listening: bool,
    timerArmed: bool,
    stored: bool)

  function Settle(o: Outcome, next: Outcome): Outcome
  {
    if o.Pending? then next else o
  }

  /** The toggle after a segment goes out (the source's `toggle ^= 1`). */
  function Flip(b: Bit): Bit
  {
    1 - b
  }

  /**
   The acknowledgements the callback accepts: a segment response carrying the
   current toggle in bit 4 (the source's `0x20 | (toggle << 4)`), or an initiate response (0x60) for the entry's index, the
   latter at every step and not only after the initiate request.
   */
  predicate Accepts(q: Request, toggle: Bit, ind: Indication)
  {
    || ind.command as int == SegmentResponse as int + 16 * toggle
    || (ind.command == InitiateResponse && ind.index == q.index)
  }

  /** The state once the initiate request has been written into `buf` and sent. */
  function Start(q: Request, buf: seq<Byte>): State
    requires |buf| == 8
  {
    var f := InitiateFrame(buf, q.index, 0, q.size, q.raw);
    State(f, [f], if q.size <= 4 then q.size else 0, 1, Pending, true, true, false)
  }

  /** Writes the segment with the next bytes and the flipped toggle into the buffer and sends it. */
  function SendSegment(q: Request, s: State): State
    requires s.bytesSent < q.size
  {
    var f := SegmentFrame(q.raw, q.size, s.bytesSent, Flip(s.toggle));
    s.(buf := f, sent := s.sent + [f],
       bytesSent := s.bytesSent + Min(7, q.size - s.bytesSent), toggle := Flip(s.toggle))
  }

  /** One event, as the callback (for an indication) or the timer handler (for an expiry) handles it. */
  function Next(q: Request, s: State, ev: Event): State
  {
    match ev
    case Expire =>
      if !s.timerArmed then s
      else s.(timerArmed := false, outcome := Settle(s.outcome, Rejected(TimedOut)))
    case Receive(ind) =>
      if !s.listening then s
      else if ind.command == AbortCommand then
        s.(timerArmed := false, listening := false, outcome := Settle(s.outcome, Rejected(Aborted(ind.error))))
      else if Accepts(q, s.toggle, ind) then
        if s.bytesSent < q.size then SendSegment(q, s)
        else
          s.(timerArmed := false, listening := false, stored := true, outcome := Settle(s.outcome, Resolved))
      else s
  }

  function Run(q: Request, s: State, evs: seq<Event>): State
    decreases |evs|
  {
    if evs == [] then s else Run(q, Next(q, s, evs[0]), evs[1..])
  }

  /*
   * The segments a download sends, as a reference sequence
   */

  /** The number of segments a value of `size` bytes needs: none when it goes expedited, else ceil(size / 7). */
  function SegmentTotal(size: nat): nat
  {
    if size <= 4 then 0 else (size + 6) / 7
  }

  /** Segment `j` (from 0): bytes 7j.. of the value, toggle bit j mod 2. */
  function SegmentAt(q: Request, j: nat): seq<Byte>
    requires 7 * j < q.size
  {
    SegmentFrame(q.raw, q.size, 7 * j, j % 2)
  }

  function Segments(q: Request, k: nat): (fs: seq<seq<Byte>>)
    requires k == 0 || 7 * (k - 1) < q.size
    ensures |fs| == k
    ensures forall j :: 0 <= j < k ==> fs[j] == SegmentAt(q, j)
  {
    seq(k, j requires 0 <= j < k => SegmentAt(q, j))
  }

  /** The bytes a server collects from a sequence of segments. */
  function Collected(fs: seq<seq<Byte>>): seq<Byte>
  {
    if fs == [] then [] else Collected(fs[..|fs| - 1]) + SegmentData(fs[|fs| - 1])
  }

  /**
   What holds in every state a download reaches: the frames sent are the
   initiate request followed by the first k reference segments; bytesSent
   counts their data; the toggle is what the next acknowledgement must echo;
   the entry is written only on completion; whenever the callback is gone the
   timer is too, and a pending promise still has both.
   */
  ghost predicate Inv(q: Request, s: State)
  {
    && |s.buf| == 8
    && 1 <= |s.sent|
    && s.bytesSent <= q.size
    && (q.size <= 4 ==> |s.sent| == 1 && s.bytesSent == q.size && s.toggle == 1)
    && (4 < q.size ==>
          var k := |s.sent| - 1;
          && (k == 0 || 7 * (k - 1) < q.size)
          && s.bytesSent == Min(q.size, 7 * k)
          && s.toggle == (if k % 2 == 0 then 1 else 0)
          && s.sent[1..] == Segments(q, k))
    && (s.stored ==> s.bytesSent == q.size && !s.listening)
    && (!s.listening ==> !s.timerArmed)
    && (s.outcome.Pending? ==> s.listening && s.timerArmed)
    && (s.outcome.Resolved? ==> s.stored)
  }

  lemma StartInv(q: Request, buf: seq<Byte>)
    requires |buf| == 8
    ensures Inv(q, Start(q, buf))
  {
  }

  /** Sending a segment appends the next reference segment. */
  lemma SendSegmentInv(q: Request, s: State)
    requires Inv(q, s) && s.bytesSent < q.size
    ensures Inv(q, SendSegment(q, s))
  {
    var k := |s.sent| - 1;
    var t := SendSegment(q, s);
    assert 4 < q.size;
    assert s.bytesSent == 7 * k;
    assert k % 2 == Flip(s.toggle);
    assert t.sent[1..] == s.sent[1..] + [SegmentAt(q, k)];
    assert t.sent[1..] == Segments(q, k + 1);
  }

  lemma NextInv(q: Request, s: State, ev: Event)
    requires Inv(q, s)
    ensures Inv(q, Next(q, s, ev))
  {
    if ev.Receive? && s.listening && ev.ind.command != AbortCommand
       && Accepts(q, s.toggle, ev.ind) && s.bytesSent < q.size {
      SendSegmentInv(q, s);
    }
  }

  lemma {:induction false} RunInv(q: Request, s: State, evs: seq<Event>)
    requires Inv(q, s)
    ensures Inv(q, Run(q, s, evs))
    decreases |evs|
  {
    if evs != [] {
      NextInv(q, s, evs[0]);
      RunInv(q, Next(q, s, evs[0]), evs[1..]);
    }
  }

  /** The invariant holds after any sequence of events that follows the initiate request. */
  lemma ReachableInv(q: Request, buf: seq<Byte>, evs: seq<Event>)
    requires |buf| == 8
    ensures Inv(q, Run(q, Start(q, buf), evs))
  {
    StartInv(q, buf);
    RunInv(q, Start(q, buf), evs);
  }

  /*
   * One event at a time
   */

  /** A frame that is neither an abort nor an accepted acknowledgement changes nothing, nor does any frame once the callback is gone. */
  lemma IgnoredIndication(q: Request, s: State, ind: Indication)
    requires !s.listening || (ind.command != AbortCommand && !Accepts(q, s.toggle, ind))
    ensures Next(q, s, Receive(ind)) == s
  {
  }

  /** An abort settles a pending download as rejected with the looked-up reason, in any state, and releases timer and callback. */
  lemma AbortSettles(q: Request, s: State, ind: Indication)
    requires s.listening && ind.command == AbortCommand
    ensures var t := Next(q, s, Receive(ind));
      && !t.listening && !t.timerArmed && t.stored == s.stored
      && t.outcome == (if s.outcome.Pending? then Rejected(Aborted(ind.error)) else s.outcome)
      && t.buf == s.buf && t.sent == s.sent && t.bytesSent == s.bytesSent && t.toggle == s.toggle
  {
  }

  /** An accepted acknowledgement while bytes remain sends the next segment, with the flipped toggle. */
  lemma AcceptedSendsSegment(q: Request, s: State, ind: Indication)
    requires s.listening && ind.command != AbortCommand && Accepts(q, s.toggle, ind)
    requires s.bytesSent < q.size
    ensures var t := Next(q, s, Receive(ind));
      && t.sent == s.sent + [t.buf]
      && t.buf == SegmentFrame(q.raw, q.size, s.bytesSent, Flip(s.toggle))
      && SegmentToggle(t.buf[0]) == t.toggle == Flip(s.toggle)
      && t.bytesSent == s.bytesSent + SegmentCount(t.buf[0]) <= q.size
      && (SegmentLast(t.buf[0]) <==> t.bytesSent == q.size)
      && t.outcome == s.outcome && t.listening && t.timerArmed == s.timerArmed && t.stored == s.stored
  {
  }

  /** An accepted acknowledgement once every byte is out completes the download: the entry is written and timer and callback are released. */
  lemma AcceptedCompletes(q: Request, s: State, ind: Indication)
    requires Inv(q, s)
    requires s.listening && ind.command != AbortCommand && Accepts(q, s.toggle, ind)
    requires s.bytesSent == q.size
    ensures var t := Next(q, s, Receive(ind));
      && t.stored && !t.listening && !t.timerArmed
      && t.outcome == Settle(s.outcome, Resolved)
      && t.sent == s.sent && t.buf == s.buf
  {
  }

  /** The timer only rejects: it leaves the callback registered and sends nothing. */
  lemma ExpireOnlyRejects(q: Request, s: State)
    ensures var t := Next(q, s, Expire);
      && !t.timerArmed && t.listening == s.listening && t.stored == s.stored
      && t.outcome == (if s.timerArmed && s.outcome.Pending? then Rejected(TimedOut) else s.outcome)
      && t.buf == s.buf && t.sent == s.sent && t.bytesSent == s.bytesSent && t.toggle == s.toggle
  {
  }

  /*
   * Whole runs
   */

  /** Once settled, the outcome never changes (the first settle wins). */
  lemma {:induction false} SettledIsFinal(q: Request, s: State, evs: seq<Event>)
    requires !s.outcome.Pending?
    ensures Run(q, s, evs).outcome == s.outcome
    decreases |evs|
  {
    if evs != [] {
      SettledIsFinal(q, Next(q, s, evs[0]), evs[1..]);
    }
  }

  /** bytesSent never decreases, frames are only appended, and the entry once written stays written. */
  lemma {:induction false} RunOnlyGrows(q: Request, s: State, evs: seq<Event>)
    ensures var t := Run(q, s, evs);
      && s.bytesSent <= t.bytesSent
      && s.sent <= t.sent
      && (s.stored ==> t.stored)
    decreases |evs|
  {
    if evs != [] {
      RunOnlyGrows(q, Next(q, s, evs[0]), evs[1..]);
    }
  }

  /** The first frame of every run is the initiate request written over the buffer the download started from. */
  lemma FirstFrameIsInitiate(q: Request, buf: seq<Byte>, evs: seq<Event>)
    requires |buf| == 8
    ensures var t := Run(q, Start(q, buf), evs);
      1 <= |t.sent| && t.sent[0] == InitiateFrame(buf, q.index, 0, q.size, q.raw)
  {
    RunOnlyGrows(q, Start(q, buf), evs);
  }

  /** Two consecutive slices of `p` join into one. */
  lemma SliceJoin<T>(c: seq<T>, d: seq<T>, p: seq<T>, a: nat, b: nat)
    requires a <= b <= |p| && c == p[..a] && d == p[a..b]
    ensures c + d == p[..b]
  {
  }

  /** One more segment adds its data at the end of what the server has collected. */
  lemma CollectedAppend(q: Request, j: nat)
    requires 7 * j < q.size
    ensures Collected(Segments(q, j + 1)) == Collected(Segments(q, j)) + SegmentData(SegmentAt(q, j))
  {
    var fs := Segments(q, j + 1);
    assert fs[..j] == Segments(q, j);
  }

  /** The induction step of CollectedSegments: segment j extends the collected prefix by its 7 (or fewer) bytes. */
  lemma CollectedStep(q: Request, j: nat)
    requires 7 * j < q.size
    requires Collected(Segments(q, j)) == Payload(q.raw, q.size)[..7 * j]
    ensures Collected(Segments(q, j + 1)) == Payload(q.raw, q.size)[..Min(q.size, 7 * (j + 1))]
  {
    var p := Payload(q.raw, q.size);
    var a, b := 7 * j, Min(q.size, 7 * (j + 1));
    var c, d := Collected(Segments(q, j)), SegmentData(SegmentAt(q, j));
    CollectedAppend(q, j);
    SegmentDataIsNextChunk(q.raw, q.size, a, j % 2);
    assert a + Min(7, q.size - a) == b;
    SliceJoin(c, d, p, a, b);
  }

  /** The data of the first k segments are the first min(size, 7k) bytes of the value. */
  lemma {:induction false} CollectedSegments(q: Request, k: nat)
    requires k == 0 || 7 * (k - 1) < q.size
    ensures Collected(Segments(q, k)) == Payload(q.raw, q.size)[..Min(q.size, 7 * k)]
  {
    if k > 0 {
      CollectedSegments(q, k - 1);
      assert Min(q.size, 7 * (k - 1)) == 7 * (k - 1);
      CollectedStep(q, k - 1);
    }
  }

  /**
   A segmented download that has sent every byte has sent exactly ceil(size / 7)
   segments, whose data together are the value, whose toggle bits alternate from
   0 and of which only the last carries the completion bit.
   */
  lemma SegmentedDelivery(q: Request, s: State)
    requires Inv(q, s) && 4 < q.size && s.bytesSent == q.size
    ensures |s.sent| == 1 + SegmentTotal(q.size)
    ensures Collected(s.sent[1..]) == Payload(q.raw, q.size)
    ensures forall j :: 1 <= j < |s.sent| ==> SegmentToggle(s.sent[j][0]) == (j - 1) % 2
    ensures forall j :: 1 <= j < |s.sent| ==> (SegmentLast(s.sent[j][0]) <==> j == |s.sent| - 1)
  {
    var k := |s.sent| - 1;
    CollectedSegments(q, k);
    assert k == SegmentTotal(q.size);
    assert Payload(q.raw, q.size)[..q.size] == Payload(q.raw, q.size);
    forall j | 1 <= j < |s.sent|
      ensures SegmentToggle(s.sent[j][0]) == (j - 1) % 2
      ensures SegmentLast(s.sent[j][0]) <==> j == |s.sent| - 1
    {
      assert s.sent[j] == s.sent[1..][j - 1] == SegmentAt(q, j - 1);
    }
  }

  /** An expedited download sends the initiate request only, with the value in bytes 4.., and no segment. */
  lemma ExpeditedDelivery(q: Request, buf: seq<Byte>, evs: seq<Event>)
    requires |buf| == 8 && q.size <= 4
    ensures var t := Run(q, Start(q, buf), evs);
      && t.sent == [Start(q, buf).buf]
      && t.sent[0][0] == ExpeditedCommand(q.size)
      && t.sent[0][4..4 + q.size] == Payload(q.raw, q.size)
  {
    ReachableInv(q, buf, evs);
    RunOnlyGrows(q, Start(q, buf), evs);
    var f := Start(q, buf).buf;
    assert f[4..4 + q.size] == Payload(q.raw, q.size);
  }

  /*
   * Scenarios
   */

  /** The server's replies in the 20-byte scenario: the initiate response, then segment responses with toggles 0, 1, 0. */
  function ScenarioAcks(index: nat): seq<Event>
  {
    [Receive(Indication(0x60, index, NoError)), Receive(Indication(0x20, 0, NoError)),
     Receive(Indication(0x30, 0, NoError)), Receive(Indication(0x20, 0, NoError))]
  }

  lemma ScenarioRun(index: nat, raw: seq<Byte>, buf: seq<Byte>)
    requires |raw| == 20 && |buf| == 8 && index < 0x1_0000
    ensures var q := Request(index, 20, raw);
      Run(q, Start(q, buf), ScenarioAcks(index)) ==
        State(SegmentAt(q, 2), [Start(q, buf).buf, SegmentAt(q, 0), SegmentAt(q, 1), SegmentAt(q, 2)],
              20, 0, Resolved, false, false, true)
  {
    var q := Request(index, 20, raw);
    var evs := ScenarioAcks(index);
    var s0 := Start(q, buf);
    var s1 := Next(q, s0, evs[0]);
    assert s1.bytesSent == 7 && s1.toggle == 0;
    var s2 := Next(q, s1, evs[1]);
    assert s2.bytesSent == 14 && s2.toggle == 1;
    var s3 := Next(q, s2, evs[2]);
    assert s3.bytesSent == 20 && s3.toggle == 0;
    var s4 := Next(q, s3, evs[3]);
    assert evs[1..][1..][1..][1..] == [];
    assert Run(q, s3, evs[1..][1..][1..]) == s4;
    assert Run(q, s2, evs[1..][1..]) == s4;
    assert Run(q, s1, evs[1..]) == s4;
  }

  lemma ScenarioFrames(index: nat, raw: seq<Byte>, buf: seq<Byte>)
    requires |raw| == 20 && |buf| == 8
    ensures var q := Request(index, 20, raw);
      && Start(q, buf).buf[0] == 0x21 && ReadU32LE(Start(q, buf).buf, 4) == 20
      && SegmentAt(q, 0)[0] == 0x00 && SegmentAt(q, 1)[0] == 0x10 && SegmentAt(q, 2)[0] == 0x03
  {
    var q := Request(index, 20, raw);
    assert SegmentAt(q, 0)[0] == SegmentCommand(0, 7, false) == 0x00;
    assert SegmentAt(q, 1)[0] == SegmentCommand(1, 7, false) == 0x10;
    assert SegmentAt(q, 2)[0] == SegmentCommand(0, 6, true) == 0x03;
  }

  lemma ScenarioData(index: nat, raw: seq<Byte>)
    requires |raw| == 20
    ensures var q := Request(index, 20, raw);
      Collected([SegmentAt(q, 0), SegmentAt(q, 1), SegmentAt(q, 2)]) == raw
  {
    var q := Request(index, 20, raw);
    assert [SegmentAt(q, 0), SegmentAt(q, 1), SegmentAt(q, 2)] == Segments(q, 3);
    CollectedSegments(q, 3);
    assert Payload(raw, 20) == raw;
  }

  /**
   A 20-byte value: the initiate request 0x21 announces 20 bytes, then three
   segments of 7, 7 and 6 bytes go out with toggle bits 0, 1, 0 (commands 0x00,
   0x10, 0x03), the last with its completion bit, and the fourth accepted
   acknowledgement resolves the download.
   */
  lemma SegmentedScenario(index: nat, raw: seq<Byte>, buf: seq<Byte>)
    requires |raw| == 20 && |buf| == 8 && index < 0x1_0000
    ensures var q := Request(index, 20, raw);
      var t := Run(q, Start(q, buf), ScenarioAcks(index));
      && t.outcome == Resolved && t.stored && !t.listening && !t.timerArmed
      && |t.sent| == 4 && (forall f :: f in t.sent ==> |f| == 8)
      && t.sent[0][0] == 0x21 && ReadU32LE(t.sent[0], 4) == 20
      && t.sent[1][0] == 0x00 && t.sent[2][0] == 0x10 && t.sent[3][0] == 0x03
      && Collected(t.sent[1..]) == raw
  {
    var q := Request(index, 20, raw);
    ScenarioRun(index, raw, buf);
    ScenarioFrames(index, raw, buf);
    ScenarioData(index, raw);
    var t := Run(q, Start(q, buf), ScenarioAcks(index));
    assert t.sent[1..] == [SegmentAt(q, 0), SegmentAt(q, 1), SegmentAt(q, 2)];
  }

  /** A 4-byte value goes out as one frame with command 0x23 and is complete on the first initiate response for its index. */
  lemma ExpeditedScenario(index: nat, raw: seq<Byte>, buf: seq<Byte>)
    requires |raw| == 4 && |buf| == 8 && index < 0x1_0000
    ensures var q := Request(index, 4, raw);
      var t := Run(q, Start(q, buf), [Receive(Indication(0x60, index, NoError))]);
      && t.outcome == Resolved && t.stored && !t.listening && !t.timerArmed
      && |t.sent| == 1 && |t.sent[0]| == 8 && t.sent[0][0] == 0x23 && t.sent[0][4..] == raw
  {
    var q := Request(index, 4, raw);
    var e := Receive(Indication(0x60, index, NoError));
    assert [e][1..] == [];
    assert Run(q, Start(q, buf), [e]) == Next(q, Start(q, buf), e);
    assert Start(q, buf).buf[4..] == raw;
  }

  /**
   The timer rejects but leaves the callback registered, so an acknowledgement
   that arrives later still completes the transfer and writes the entry, while
   the promise stays rejected as timed out.
   */
  lemma LateAckAfterTimeout(index: nat, raw: seq<Byte>, buf: seq<Byte>)
    requires |raw| == 2 && |buf| == 8 && index < 0x1_0000
    ensures var q := Request(index, 2, raw);
      var t := Run(q, Start(q, buf), [Expire, Receive(Indication(0x60, index, NoError))]);
      && t.outcome == Rejected(TimedOut) && t.stored && !t.listening
  {
    var q := Request(index, 2, raw);
    var e := Receive(Indication(0x60, index, NoError));
    var s1 := Next(q, Start(q, buf), Expire);
    assert s1.listening && s1.outcome == Rejected(TimedOut);
    assert [Expire, e][1..] == [e] && [e][1..] == [];
    assert Run(q, s1, [e]) == Next(q, s1, e);
    assert Run(q, Start(q, buf), [Expire, e]) == Run(q, s1, [e]);
  }
}
