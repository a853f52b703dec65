/**
 The SDO client object of one device. It owns the 8-byte data buffer of its
 request message, which every download reuses and rewrites byte by byte; a
 download is a Transfer object holding what the source's closure captured
 (bytes sent, toggle), how its promise settled, and whether its callback and
 timer are still live. Each method is tied to the pure state machine of
 DownloadMachine, whose invariant every Transfer keeps.
 */
module SdoClient {
  import opened Wrappers
  import opened SdoFrame
  import opened DownloadMachine

  /** An object-dictionary entry as the device holds it; a completed download overwrites value, size and raw. */
  class Entry<V> {
    const index: nat
    var value: V
    var size: nat
    var raw: seq<Byte>

    constructor (index: nat, value: V, size: nat, raw: seq<Byte>)
      ensures this.index == index && this.value == value && this.size == size && this.raw == raw
    {
      this.index := index;
      this.value := value;
      this.size := size;
      this.raw := raw;
    }
  }

  /** What the device's lookup of a name or index returns: nothing, one entry, or the list of entries with that name. */
  datatype Target<V> = Missing | Single(entry: Entry<V>) | Several(entries: seq<Entry<V>>)

  /**
   The entry a download writes. The first failing check decides the rejection:
   no entry, then a name that does not pick out exactly one entry, then a
   non-zero subindex (which makes the source throw).
   */
  function Resolve<V>(t: Target<V>, subIndex: nat): (r: Result<Entry<V>, Rejection>)
    ensures r.Ok? <==> subIndex == 0 && (t.Single? || (t.Several? && |t.entries| == 1))
    ensures r.Ok? && t.Single? ==> r.value == t.entry
    ensures r.Ok? && t.Several? ==> r.value == t.entries[0]
    ensures t.Missing? ==> r == Err(NotADataObject)
    ensures t.Several? && |t.entries| != 1 ==> r == Err(NameNotUnique)
    ensures !t.Missing? && !(t.Several? && |t.entries| != 1) && subIndex != 0 ==> r == Err(NoSubIndex)
  {
    match t
    case Missing => Err(NotADataObject)
    case Several(es) =>
      if |es| != 1 then Err(NameNotUnique)
      else if subIndex != 0 then Err(NoSubIndex)
      else Ok(es[0])
    case Single(e) =>
      if subIndex != 0 then Err(NoSubIndex) else Ok(e)
  }

  class Sdo {
    /** The CAN identifier of this client's requests. */
    const id: int
    /** The data field of the request message, shared by every transfer of this client. */
    const data: array<Byte>

    constructor (deviceId: int)
      ensures id == RequestBase + deviceId
      ensures fresh(data) && data[..] == [0, 0, 0, 0, 0, 0, 0, 0]
    {
      id := RequestBase + deviceId;
      data := new Byte[8](_ => 0);
    }

    /** Writes the initiate-download request into the buffer. */
    method WriteInitiate(index: nat, subIndex: nat, size: nat, raw: seq<Byte>)
      requires data.Length == 8
      modifies data
      ensures data[..] == InitiateFrame(old(data[..]), index, subIndex, size, raw)
    {
      ghost var buf := data[..];
      data[1] := LowByte(index);
      data[2] := LowByte(index / 0x100);
      data[3] := LowByte(subIndex);
      if size <= 4 {
        // expedited: the value itself, in bytes 4..; the bytes after it are left as they were
        data[0] := ExpeditedCommand(size);
        for i := 0 to size
          invariant data[0] == ExpeditedCommand(size)
          invariant data[1] == LowByte(index) && data[2] == LowByte(index / 0x100) && data[3] == LowByte(subIndex)
          invariant forall j :: 4 <= j < 4 + i ==> data[j] == ByteAt(raw, j - 4)
          invariant forall j :: 4 + i <= j < 8 ==> data[j] == buf[j]
        {
          data[4 + i] := ByteAt(raw, i);
        }
      } else {
        // segmented: the size, in bytes 4-7
        data[0] := SegmentedInitiateCommand;
        data[4] := LowByte(size);
        data[5] := LowByte(size / 0x100);
        data[6] := LowByte(size / 0x1_0000);
        data[7] := LowByte(size / 0x100_0000);
      }
      assert data[..] == InitiateFrame(buf, index, subIndex, size, raw);
    }

    /** Writes the download segment that carries the bytes of `raw` from `sent` on, with toggle bit `toggle`. */
    method WriteSegment(raw: seq<Byte>, size: nat, sent: nat, toggle: Bit)
      requires data.Length == 8 && sent < size
      modifies data
      ensures data[..] == SegmentFrame(raw, size, sent, toggle)
    {
      var count := Min(7, size - sent);
      for i := 0 to count
        invariant forall j :: 1 <= j <= i ==> data[j] == ByteAt(raw, sent + j - 1)
      {
        data[i + 1] := ByteAt(raw, i + sent);
      }
      for i := count to 7
        invariant forall j :: 1 <= j <= count ==> data[j] == ByteAt(raw, sent + j - 1)
        invariant forall j :: count + 1 <= j <= i ==> data[j] == 0
      {
        data[i + 1] := 0;
      }
      data[0] := SegmentCommand(toggle, count, sent + count == size);
      assert data[..] == SegmentFrame(raw, size, sent, toggle);
    }

    /**
     Starts a download: resolves the target, writes the initiate request,
     arms the timer, registers the callback and sends the request. A failed
     resolution rejects at once and leaves the buffer as it was.
     */
    method Download<V>(target: Target<V>, subIndex: nat, value: V, size: nat, raw: seq<Byte>)
      returns (r: Result<Transfer<V>, Rejection>)
      requires data.Length == 8
      modifies data
      ensures r.Err? <==> Resolve(target, subIndex).Err?
      ensures r.Err? ==> r.error == Resolve(target, subIndex).error && data[..] == old(data[..])
      ensures r.Ok? ==>
        && fresh(r.value) && r.value.Valid()
        && r.value.sdo == this && r.value.entry == Resolve(target, subIndex).value
        && r.value.value == value && r.value.size == size && r.value.raw == raw
        && r.value.Model() == Start(r.value.Req(), old(data[..]))
    {
      var resolved := Resolve(target, subIndex);
      if resolved.Err? {
        return Err(resolved.error);
      }
      var entry := resolved.value;
      ghost var buf := data[..];
      WriteInitiate(entry.index, subIndex, size, raw);
      var t := new Transfer(this, entry, value, size, raw, buf);
      r := Ok(t);
    }

    /** The upload operation is a stub: it resolves at once and sends nothing. */
    method Upload(index: nat, subIndex: nat) returns (o: Outcome)
      ensures o == Resolved
    {
      o := Resolved;
    }
  }

  class Transfer<V> {
    const sdo: Sdo
    const entry: Entry<V>
    /** The (value, size, raw) triple the value codec produced for this download. */
    const value: V
    const size: nat
    const raw: seq<Byte>

    var bytesSent: nat
    var toggle: Bit
    var outcome: Outcome
    /** The callback is registered for the device's SDO indications. */
    var listening: bool
    /** The timeout has been neither cleared nor fired. */
    var timerArmed: bool
    /** The frames handed to the channel, oldest first. */
    var sent: seq<seq<Byte>>
    /** The entry has been overwritten with the new value. */
    ghost var stored: bool

    function Req(): Request
    {
      Request(entry.index, size, raw)
    }

    ghost function Model(): State
      reads this, sdo.data
    {
      State(sdo.data[..], sent, bytesSent, toggle, outcome, listening, timerArmed, stored)
    }

    ghost predicate Valid()
      reads this, sdo.data
    {
      sdo.data.Length == 8 && Inv(Req(), Model())
    }

    /** The transfer just after its initiate request, written over `buf`, has been sent. */
    constructor (sdo: Sdo, entry: Entry<V>, value: V, size: nat, raw: seq<Byte>, ghost buf: seq<Byte>)
      requires |buf| == 8 && sdo.data[..] == InitiateFrame(buf, entry.index, 0, size, raw)
      ensures this.sdo == sdo && this.entry == entry
      ensures this.value == value && this.size == size && this.raw == raw
      ensures Valid() && Model() == Start(Req(), buf)
    {
      this.sdo := sdo;
      this.entry := entry;
      this.value := value;
      this.size := size;
      this.raw := raw;
      bytesSent := if size <= 4 then size else 0;
      toggle := 1;
      outcome := Pending;
      listening := true;
      timerArmed := true;
      sent := [sdo.data[..]];
      stored := false;
      new;
      StartInv(Req(), buf);
    }

    /**
     The callback, run for an indication the device delivers while it is
     registered: an abort rejects; an accepted acknowledgement sends the
     next segment or, with every byte out, writes the entry and resolves;
     anything else is ignored.
     */
    method Deliver(ind: Indication)
      requires Valid()
      modifies this, sdo.data, entry
      ensures Valid()
      ensures Model() == Next(Req(), old(Model()), Receive(ind))
      ensures stored != old(stored) ==> entry.value == value && entry.size == size && entry.raw == raw
      ensures stored == old(stored) ==> unchanged(entry)
    {
      ghost var s := Model();
      NextInv(Req(), s, Receive(ind));
      if !listening {
        return;
      }
      if ind.command == AbortCommand {
        timerArmed, listening := false, false;
        if outcome.Pending? {
          outcome := Rejected(Aborted(ind.error));
        }
      } else if ind.command as int == SegmentResponse as int + 16 * toggle
             || (ind.command == InitiateResponse && ind.index == entry.index) {
        if bytesSent < size {
          var count := Min(7, size - bytesSent);
          sdo.WriteSegment(raw, size, bytesSent, Flip(toggle));
          bytesSent := bytesSent + count;
          toggle := Flip(toggle);
          sent := sent + [sdo.data[..]];
          assert Model() == SendSegment(Req(), s);
        } else {
          timerArmed, listening := false, false;
          entry.value, entry.size, entry.raw := value, size, raw;
          stored := true;
          if outcome.Pending? {
            outcome := Resolved;
          }
        }
      }
    }

    /** The timeout handler: it rejects a pending download but leaves the callback registered. */
    method TimerFired()
      requires Valid()
      modifies this
      ensures Valid()
      ensures Model() == Next(Req(), old(Model()), Expire)
    {
      NextInv(Req(), Model(), Expire);
      if timerArmed {
        timerArmed := false;
        if outcome.Pending? {
          outcome := Rejected(TimedOut);
        }
      }
    }
  }
}
