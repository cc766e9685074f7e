/** One mote's session: the resync controller that tracks the mote's circular
    log pointer, the loop that decodes the sixteen records of a datagram
    against the session's relative clock, and the release packet
    (main.go:19-26, 72-81, 119-275). */
module Sessions {
  import opened Bytes
  import Records
  import Ack

  /** Length of the mote's circular log; the read pointer wraps here. */
  const LOG_SIZE: int := 0x1e0000
  /** Records in every datagram. */
  const BATCH: nat := 16
  /** Bytes of read pointer in front of the records. */
  const HEADER: nat := 3
  /** Seconds from the Unix epoch to the device epoch, 2015-01-01 00:00:00 UTC. */
  const EPOCH_OFFSET: nat := 1420070400
  /** Added to a boot record's image identifier before it is stored. */
  const IMAGE_OFFSET: nat := 0x50000
  /** The read pointer of a session that has not yet seen a datagram. */
  const UNSYNCED: int := -1

  /** The mutable state of one mote's session. The map from stream names to
      stream identifiers is resolved over the network and is not modelled. */
  datatype Session = Session(
    currentTime: uint32,     // device-epoch seconds of the last record decoded
    haveTime: bool,          // an absolute timestamp anchors currentTime
    haveInitialTime: bool,   // some absolute timestamp was ever seen
    readPtr: int,            // last accepted log pointer, or UNSYNCED
    corruptRecords: nat      // blank and unknown records seen so far
  )

  /** The state of a freshly created session (main.go:81). */
  function NewSession(): (s: Session)
    ensures !Synced(s) && !s.haveTime && !s.haveInitialTime && s.corruptRecords == 0
  {
    Session(0, false, false, UNSYNCED, 0)
  }

  predicate Synced(s: Session)
  {
    s.readPtr != UNSYNCED
  }

  /** What every reachable session satisfies: the pointer is a 24-bit header
      value once synchronised, the current time is only anchored once some
      timestamp was seen, and an unsynchronised session is a fresh one. */
  predicate Valid(s: Session)
  {
    && (s.readPtr == UNSYNCED || 0 <= s.readPtr < TWO_24)
    && (s.haveTime ==> s.haveInitialTime)
    && (!Synced(s) ==> s == NewSession())
  }

  lemma NewSessionValid()
    ensures Valid(NewSession())
  {
  }

  /** Unix milliseconds of the session's current device time. The sum is a
      `uint64` in the source and never wraps. */
  function GetTime(s: Session): (ms: nat)
    ensures ms < TWO_64
    ensures ms % 1000 == 0 && ms / 1000 - EPOCH_OFFSET == s.currentTime
  {
    (s.currentTime + EPOCH_OFFSET) * 1000
  }

  /** Later device times give later wall times. */
  lemma GetTimeMonotonic(a: Session, b: Session)
    requires a.currentTime < b.currentTime
    ensures GetTime(a) < GetTime(b)
  {
  }

  /** The streams the session publishes readings to. */
  datatype Stream =
    | LogPtr | Occupancy | Humidity | Temperature
    | SeatHeat | BackHeat | SeatFan | BackFan
    | Battery | BatteryOk | Resets | FwVersion

  /** What processing a datagram sends to the outside world. */
  datatype Event =
      /** An integer reading at a Unix-millisecond timestamp. Humidity,
          temperature and battery carry the raw value the source converts
          to a floating-point quantity. */
    | Publish(stream: Stream, timeMs: nat, value: int)
      /** A reading of the observer's clock stamped with the device time, on the
          wall-time-in-remote-time stream; the clock value itself is not modelled. */
    | CrossCheck(timeMs: nat)
      /** A row written to the boot-record table. */
    | BootPersisted(serial: uint16, resets: nat, image: nat, version: nat, nodeTimeMs: nat)

  /** An event stamped with the device's reconstructed time. */
  predicate Reading(e: Event)
  {
    e.CrossCheck? || (e.Publish? && e.stream != LogPtr)
  }

  predicate NoReadings(events: seq<Event>)
  {
    forall i :: 0 <= i < |events| ==> !Reading(events[i])
  }

  /** The session after some records, and what those records emitted. */
  datatype Step = Step(ses: Session, events: seq<Event>)

  /** The `uint32` clock advanced by a record's relative-time field. */
  function Advance(s: Session, delta: nat): (t: Session)
    ensures t.currentTime == (s.currentTime + delta) % TWO_32
    ensures t == s.(currentTime := t.currentTime)
  {
    s.(currentTime := (s.currentTime + delta) % TWO_32)
  }

  function Flag(b: bool): int
  {
    if b then 1 else 0
  }

  /** What a THO record publishes at wall time `ms` (main.go:177-194): a zero
      raw humidity or temperature is a failed measurement and is left out. */
  function ThoEvents(ms: nat, occupied: bool, humidity: nat, temperature: nat): (ev: seq<Event>)
    // the cross-check, the occupancy, and one reading per non-zero measurement; nothing else
    ensures |ev| == 2 + Flag(humidity != 0) + Flag(temperature != 0) && ev[0] == CrossCheck(ms)
    // in the order of main.go: occupancy, then humidity, then temperature
    ensures ev[1] == Publish(Occupancy, ms, Flag(occupied))
    ensures humidity != 0 ==> ev[2] == Publish(Humidity, ms, humidity)
    ensures temperature != 0 ==> ev[|ev| - 1] == Publish(Temperature, ms, temperature)
    ensures Publish(Occupancy, ms, Flag(occupied)) in ev
    ensures Publish(Humidity, ms, humidity) in ev <==> humidity != 0
    ensures Publish(Temperature, ms, temperature) in ev <==> temperature != 0
    ensures forall i :: 0 <= i < |ev| && Reading(ev[i]) ==> ev[i].timeMs == ms
  {
    [CrossCheck(ms), Publish(Occupancy, ms, Flag(occupied))]
    + (if humidity != 0 then [Publish(Humidity, ms, humidity)] else [])
    + (if temperature != 0 then [Publish(Temperature, ms, temperature)] else [])
  }

  /** What a Settings record publishes at wall time `ms` (main.go:207-211):
      the cross-check and each of the four settings on its own stream. */
  function SettingsEvents(ms: nat, seatHeat: nat, backHeat: nat, seatFan: nat, backFan: nat): (ev: seq<Event>)
    ensures |ev| == 5 && ev[0] == CrossCheck(ms)
    ensures ev[1..] == [Publish(SeatHeat, ms, seatHeat), Publish(BackHeat, ms, backHeat),
                        Publish(SeatFan, ms, seatFan), Publish(BackFan, ms, backFan)]
    ensures Publish(SeatHeat, ms, seatHeat) in ev && Publish(BackHeat, ms, backHeat) in ev
    ensures Publish(SeatFan, ms, seatFan) in ev && Publish(BackFan, ms, backFan) in ev
    ensures forall i :: 0 <= i < |ev| && Reading(ev[i]) ==> ev[i].timeMs == ms
  {
    [CrossCheck(ms), Publish(SeatHeat, ms, seatHeat), Publish(BackHeat, ms, backHeat),
     Publish(SeatFan, ms, seatFan), Publish(BackFan, ms, backFan)]
  }

  /** What a Battery record publishes at wall time `ms` (main.go:228-230). */
  function BatteryEvents(ms: nat, ok: bool, voltage: int): (ev: seq<Event>)
    ensures |ev| == 3 && ev[0] == CrossCheck(ms)
    ensures ev[1] == Publish(Stream.Battery, ms, voltage) && ev[2] == Publish(BatteryOk, ms, Flag(ok))
    ensures Publish(Stream.Battery, ms, voltage) in ev && Publish(BatteryOk, ms, Flag(ok)) in ev
    ensures forall i :: 0 <= i < |ev| && Reading(ev[i]) ==> ev[i].timeMs == ms
  {
    [CrossCheck(ms), Publish(Stream.Battery, ms, voltage), Publish(BatteryOk, ms, Flag(ok))]
  }

  /** What a Boot record publishes after its row when the clock is anchored
      (main.go:256-258). */
  function BootEvents(ms: nat, version: nat, resets: nat): (ev: seq<Event>)
    ensures |ev| == 3 && ev[0] == CrossCheck(ms)
    ensures ev[1] == Publish(Resets, ms, resets) && ev[2] == Publish(FwVersion, ms, version)
    ensures Publish(Resets, ms, resets) in ev && Publish(FwVersion, ms, version) in ev
    ensures forall i :: 0 <= i < |ev| && Reading(ev[i]) ==> ev[i].timeMs == ms
  {
    [CrossCheck(ms), Publish(Resets, ms, resets), Publish(FwVersion, ms, version)]
  }

  /** The effect of one decoded record on the session (one arm of the switch
      in main.go:150-262). */
  function ApplyRecord(s: Session, serial: uint16, rec: Records.Record): (r: Step)
    ensures r.ses.readPtr == s.readPtr
    ensures r.ses.corruptRecords == s.corruptRecords + Flag(Records.Corrupt(rec))
    ensures r.ses.haveTime == (s.haveTime || rec.Timestamp?)
    ensures r.ses.haveInitialTime == (s.haveInitialTime || rec.Timestamp?)
    // blank and unknown records are counted and change nothing else
    ensures Records.Corrupt(rec) ==> r.events == [] && r.ses == s.(corruptRecords := s.corruptRecords + 1)
    // a timestamp re-anchors the clock whatever the state before
    ensures rec.Timestamp? ==> r.ses.currentTime == rec.seconds && r.events == [CrossCheck(GetTime(r.ses))]
    // a record with a relative-time field advances an anchored clock, and is dropped otherwise
    ensures Records.TimeDependent(rec) && s.haveTime ==>
              r.ses == Advance(s, rec.delta) && |r.events| >= 2 && r.events[0] == CrossCheck(GetTime(r.ses))
    ensures Records.TimeDependent(rec) && !s.haveTime ==> r.ses == s && r.events == []
    // a zero raw humidity or temperature is a failed measurement and is not published
    ensures rec.Tho? && s.haveTime ==>
              && |r.events| == 2 + Flag(rec.humidity != 0) + Flag(rec.temperature != 0)
              && Publish(Occupancy, GetTime(r.ses), Flag(rec.occupied)) in r.events
              && (Publish(Humidity, GetTime(r.ses), rec.humidity) in r.events <==> rec.humidity != 0)
              && (Publish(Temperature, GetTime(r.ses), rec.temperature) in r.events <==> rec.temperature != 0)
    // every setting, the battery voltage and its flag reach their own streams
    ensures rec.Settings? && s.haveTime ==>
              && |r.events| == 5
              && Publish(SeatHeat, GetTime(r.ses), rec.seatHeat) in r.events
              && Publish(BackHeat, GetTime(r.ses), rec.backHeat) in r.events
              && Publish(SeatFan, GetTime(r.ses), rec.seatFan) in r.events
              && Publish(BackFan, GetTime(r.ses), rec.backFan) in r.events
    ensures rec.Battery? && s.haveTime ==>
              && |r.events| == 3
              && Publish(Stream.Battery, GetTime(r.ses), rec.voltage) in r.events
              && Publish(BatteryOk, GetTime(r.ses), Flag(rec.ok)) in r.events
    // a boot record is always persisted and never moves the clock
    ensures rec.Boot? ==> r.ses == s && |r.events| == if s.haveTime then 4 else 1
    ensures rec.Boot? ==> r.events[0] == BootPersisted(serial, rec.resets, rec.image + IMAGE_OFFSET, rec.version,
                                                       if s.haveTime then GetTime(s) else 0)
    ensures rec.Boot? && s.haveTime ==>
              && r.events[1] == CrossCheck(GetTime(s))
              && Publish(Resets, GetTime(s), rec.resets) in r.events
              && Publish(FwVersion, GetTime(s), rec.version) in r.events
    // without an absolute time nothing is stamped with the device clock
    ensures !r.ses.haveTime ==> NoReadings(r.events) && r.ses.currentTime == s.currentTime
    // every reading is stamped with the wall time of the record itself
    ensures forall i :: 0 <= i < |r.events| && Reading(r.events[i]) ==> r.events[i].timeMs == GetTime(r.ses)
  {
    match rec
    case Blank(_) => Step(s.(corruptRecords := s.corruptRecords + 1), [])
    case Timestamp(secs) =>
      var t := s.(currentTime := secs, haveTime := true, haveInitialTime := true);
      Step(t, [CrossCheck(GetTime(t))])
    case Tho(delta, occupied, humidity, temperature) =>
      if !s.haveTime then Step(s, [])
      else
        var t := Advance(s, delta);
        var ms := GetTime(t);
        Step(t, ThoEvents(ms, occupied, humidity, temperature))
    case Settings(delta, seatHeat, backHeat, seatFan, backFan) =>
      if !s.haveTime then Step(s, [])
      else
        var t := Advance(s, delta);
        var ms := GetTime(t);
        Step(t, SettingsEvents(ms, seatHeat, backHeat, seatFan, backFan))
    case Battery(ok, delta, voltage) =>
      if !s.haveTime then Step(s, [])
      else
        var t := Advance(s, delta);
        var ms := GetTime(t);
        Step(t, BatteryEvents(ms, ok, voltage))
    case Boot(version, resets, image) =>
      var persisted := BootPersisted(serial, resets, image + IMAGE_OFFSET, version,
                                     if s.haveTime then GetTime(s) else 0);
      if !s.haveTime then Step(s, [persisted])
      else
        Step(s, [persisted] + BootEvents(GetTime(s), version, resets))
    case Unknown(_) => Step(s.(corruptRecords := s.corruptRecords + 1), [])
  }

  /** A time-dependent record moves an anchored clock forward by at most its
      field's width: 7 seconds for THO, 3 for Settings, 2047 for Battery. */
  lemma DeltaBounded(s: Session, serial: uint16, rec: Records.Record)
    requires Records.WellFormed(rec) && Records.TimeDependent(rec) && s.haveTime
    ensures var t := ApplyRecord(s, serial, rec).ses;
            (t.currentTime - s.currentTime) % TWO_32 == rec.delta
    ensures rec.Tho? ==> rec.delta <= 7
    ensures rec.Settings? ==> rec.delta <= 3
    ensures rec.Battery? ==> rec.delta <= 2047
  {
  }

  /** The number of blank and unknown records in `recs`. */
  function CorruptCount(recs: seq<Records.Record>): (n: nat)
    ensures n <= |recs|
  {
    if recs == [] then 0 else Flag(Records.Corrupt(recs[0])) + CorruptCount(recs[1..])
  }

  /** Some record of `recs` is an absolute timestamp. */
  predicate HasTimestamp(recs: seq<Records.Record>)
  {
    recs != [] && (recs[0].Timestamp? || HasTimestamp(recs[1..]))
  }

  /** Decodes records in order, threading the session through them
      (the loop of main.go:147-263). */
  function DecodeAll(s: Session, serial: uint16, recs: seq<Records.Record>): (r: Step)
    ensures r.ses.readPtr == s.readPtr
    ensures r.ses.corruptRecords == s.corruptRecords + CorruptCount(recs)
    // nothing in a batch clears the time flags; only a timestamp record sets them
    ensures r.ses.haveTime == (s.haveTime || HasTimestamp(recs))
    ensures r.ses.haveInitialTime == (s.haveInitialTime || HasTimestamp(recs))
    // an empty batch changes nothing and publishes nothing
    ensures recs == [] ==> r == Step(s, [])
    decreases |recs|
  {
    if recs == [] then Step(s, [])
    else
      var first := ApplyRecord(s, serial, recs[0]);
      var rest := DecodeAll(first.ses, serial, recs[1..]);
      Step(rest.ses, first.events + rest.events)
  }

  lemma ConcatAssoc<T>(p: seq<T>, q: seq<T>, r: seq<T>)
    ensures p + (q + r) == (p + q) + r
  {
  }

  /** A batch of one record has exactly that record's effect. With
      `DecodeAllAppend` this fixes the session and the events of every batch:
      each record acts on the session the records before it left, and the
      events come out in record order. */
  lemma {:induction false} DecodeAllSingleton(s: Session, serial: uint16, rec: Records.Record)
    ensures DecodeAll(s, serial, [rec]) == ApplyRecord(s, serial, rec)
  {
    var first := ApplyRecord(s, serial, rec);
    assert [rec][1..] == [];
    assert first.events + [] == first.events;
  }

  /** Decoding a concatenation is decoding one part after the other. */
  lemma {:induction false} DecodeAllAppend(s: Session, serial: uint16, a: seq<Records.Record>, b: seq<Records.Record>)
    ensures var x := DecodeAll(s, serial, a);
            var y := DecodeAll(x.ses, serial, b);
            DecodeAll(s, serial, a + b) == Step(y.ses, x.events + y.events)
    decreases |a|
  {
    if a == [] {
      assert a + b == b;
    } else {
      var first := ApplyRecord(s, serial, a[0]);
      assert (a + b)[0] == a[0] && (a + b)[1..] == a[1..] + b;
      DecodeAllAppend(first.ses, serial, a[1..], b);
      var x := DecodeAll(first.ses, serial, a[1..]);
      var y := DecodeAll(x.ses, serial, b);
      assert DecodeAll(s, serial, a).events == first.events + x.events;
      ConcatAssoc(first.events, x.events, y.events);
    }
  }

  /** Until a timestamp record arrives, a session without an absolute time
      publishes no reading and its clock does not move: time-dependent records
      are dropped and boot records are only persisted. */
  lemma {:induction false} NoReadingsWithoutTime(s: Session, serial: uint16, recs: seq<Records.Record>)
    requires !s.haveTime
    requires forall i :: 0 <= i < |recs| ==> !recs[i].Timestamp?
    ensures var r := DecodeAll(s, serial, recs);
            && NoReadings(r.events)
            && !r.ses.haveTime
            && r.ses.currentTime == s.currentTime
            && r.ses.haveInitialTime == s.haveInitialTime
    decreases |recs|
  {
    if recs != [] {
      var first := ApplyRecord(s, serial, recs[0]);
      NoReadingsWithoutTime(first.ses, serial, recs[1..]);
      var rest := DecodeAll(first.ses, serial, recs[1..]);
      assert DecodeAll(s, serial, recs).events == first.events + rest.events;
    }
  }

  /** The byte at `j` of the receive buffer: the datagram, then the zeros the
      buffer was allocated with. */
  function BufferByte(msg: seq<byte>, j: nat): byte
  {
    if j < |msg| then msg[j] else 0
  }

  /** The four bytes of record `i`, read from the receive buffer. */
  function RecordBytes(msg: seq<byte>, i: nat): (q: Records.Quad)
    requires i < BATCH
    ensures HEADER + 4 * (i + 1) <= |msg| ==> q == msg[HEADER + 4 * i .. HEADER + 4 * (i + 1)]
    ensures |msg| <= HEADER + 4 * i ==> q == [0, 0, 0, 0]
    // a record straddling the end takes its leading bytes from the datagram, the rest are zero
    ensures forall j :: 0 <= j < 4 ==>
              q[j] == (if HEADER + 4 * i + j < |msg| then msg[HEADER + 4 * i + j] else 0)
  {
    var q: Records.Quad := [BufferByte(msg, HEADER + 4 * i), BufferByte(msg, HEADER + 4 * i + 1),
                           BufferByte(msg, HEADER + 4 * i + 2), BufferByte(msg, HEADER + 4 * i + 3)];
    q
  }

  /** The sixteen records of a datagram, decoded. */
  function BatchRecords(msg: seq<byte>): (recs: seq<Records.Record>)
    ensures |recs| == BATCH
    ensures forall i :: 0 <= i < BATCH ==> recs[i] == Records.Decode(RecordBytes(msg, i))
    ensures forall i :: 0 <= i < BATCH ==> Records.WellFormed(recs[i])
  {
    seq(BATCH, i requires 0 <= i < BATCH => Records.Decode(RecordBytes(msg, i)))
  }

  /** The read pointer in the datagram header, three bytes least significant first. */
  function HeaderPtr(msg: seq<byte>): (p: nat)
    requires |msg| >= HEADER
    ensures p < TWO_24
  {
    Le24(msg[0], msg[1], msg[2])
  }

  /** The pointer of the datagram that follows one at `readPtr`. */
  function NextPtr(readPtr: int): (p: int)
    ensures 0 <= p < LOG_SIZE
    ensures p != readPtr
  {
    (readPtr + BATCH) % LOG_SIZE
  }

  /** How the resync controller classifies an incoming pointer. */
  datatype Decision = Unsynced | InOrder | Duplicate | Desync

  /** The resync decision and the session it leaves for the record loop. */
  datatype Gate = Gate(decision: Decision, ses: Session)

  /** The resync controller (main.go:124-145). It always adopts the mote's
      pointer, refuses to decode a batch it has already accepted, and keeps
      the clock anchor only when the batch continues the one before. */
  function Resync(s: Session, ptr: nat): (g: Gate)
    ensures g.ses.readPtr == ptr
    ensures g.decision == Unsynced <==> !Synced(s)
    ensures g.decision == InOrder <==> Synced(s) && ptr == NextPtr(s.readPtr)
    ensures g.decision == Duplicate <==> Synced(s) && ptr == s.readPtr
    ensures g.decision == Duplicate ==> g.ses == s
    ensures g.ses.haveTime <==> s.haveTime && (g.decision == InOrder || g.decision == Duplicate)
    ensures g.ses.currentTime == s.currentTime
    ensures g.ses.haveInitialTime == s.haveInitialTime
    ensures g.ses.corruptRecords == s.corruptRecords
  {
    if !Synced(s) then
      Gate(Unsynced, s.(readPtr := ptr, haveTime := false))
    else if ptr == NextPtr(s.readPtr) then
      Gate(InOrder, s.(readPtr := ptr))
    else if ptr == s.readPtr then
      Gate(Duplicate, s)
    else
      Gate(Desync, s.(readPtr := ptr, haveTime := false))
  }

  /** What processing one datagram produces. */
  datatype Outcome = Outcome(ses: Session, events: seq<Event>, ack: seq<byte>)

  /** Processes one datagram (main.go:119-275). `wallMs` is the observer's
      clock when the pointer is logged and `nowSecs` its Unix seconds when the
      release packet is built. Bytes past the end of a short datagram are
      read as the zeros of the receive buffer. */
  function Process(s: Session, serial: uint16, msg: seq<byte>, wallMs: nat, nowSecs: int64): (o: Outcome)
    requires |msg| >= HEADER
    // the session converges on the mote's pointer, whatever it expected
    ensures o.ses.readPtr == HeaderPtr(msg)
    // the received pointer is always logged first
    ensures |o.events| >= 1 && o.events[0] == Publish(LogPtr, wallMs, HeaderPtr(msg))
    // a repeated datagram is acknowledged but not decoded again
    ensures Synced(s) && HeaderPtr(msg) == s.readPtr ==> o.ses == s && |o.events| == 1
    // the release echoes the header pointer, then the observer time truncated to 32 bits
    ensures |o.ack| == Ack.ACK_SIZE && o.ack[..HEADER] == msg[..HEADER]
    ensures Le32(o.ack[HEADER..]) == nowSecs % TWO_32
    // any other datagram has all sixteen of its records decoded: exactly its blank
    // and unknown records are counted, and the clock stays anchored only if the
    // batch continues the one before or carries an absolute timestamp
    ensures !(Synced(s) && HeaderPtr(msg) == s.readPtr) ==>
              var recs := BatchRecords(msg);
              && o.ses.corruptRecords == s.corruptRecords + CorruptCount(recs)
              && o.ses.haveTime == ((Synced(s) && HeaderPtr(msg) == NextPtr(s.readPtr) && s.haveTime)
                                    || HasTimestamp(recs))
              && o.ses.haveInitialTime == (s.haveInitialTime || HasTimestamp(recs))
    // and after the logged pointer it publishes what the record loop publishes,
    // run from the session the resync controller leaves
    ensures !(Synced(s) && HeaderPtr(msg) == s.readPtr) ==>
              o.events[1..] == DecodeAll(Resync(s, HeaderPtr(msg)).ses, serial, BatchRecords(msg)).events
    // and the session, its clock included, is the one the record loop leaves
    ensures !(Synced(s) && HeaderPtr(msg) == s.readPtr) ==>
              o.ses == DecodeAll(Resync(s, HeaderPtr(msg)).ses, serial, BatchRecords(msg)).ses
    ensures s.corruptRecords <= o.ses.corruptRecords <= s.corruptRecords + BATCH
    ensures s.haveInitialTime ==> o.ses.haveInitialTime
    ensures Valid(s) ==> Valid(o.ses)
  {
    var ptr := HeaderPtr(msg);
    var logged := Publish(LogPtr, wallMs, ptr);
    var g := Resync(s, ptr);
    var ack := Ack.AckPacket(ptr, nowSecs);
    Ack.AckEchoesHeader(msg[0], msg[1], msg[2], nowSecs);
    assert msg[..HEADER] == [msg[0], msg[1], msg[2]];
    if g.decision == Duplicate then
      Outcome(g.ses, [logged], ack)
    else
      var b := DecodeAll(g.ses, serial, BatchRecords(msg));
      Outcome(b.ses, [logged] + b.events, ack)
  }

  /** Delivering the same datagram twice decodes it once: the second delivery
      is a duplicate that leaves the session as the first left it and
      publishes only the logged pointer, and it is released with the same pointer. */
  lemma {:induction false} RedeliveryIsIdempotent(s: Session, serial: uint16, msg: seq<byte>,
                                                  wallMs1: nat, nowSecs1: int64, wallMs2: nat, nowSecs2: int64)
    requires |msg| >= HEADER
    ensures var o1 := Process(s, serial, msg, wallMs1, nowSecs1);
            var o2 := Process(o1.ses, serial, msg, wallMs2, nowSecs2);
            && o2.ses == o1.ses
            && o2.events == [Publish(LogPtr, wallMs2, HeaderPtr(msg))]
            && o2.ack[..HEADER] == o1.ack[..HEADER]
  {
    var o1 := Process(s, serial, msg, wallMs1, nowSecs1);
    assert Synced(o1.ses);
  }

  /** After a datagram, the mote's next datagram in log order is accepted in
      order, so the clock anchor survives and its records are decoded. */
  lemma {:induction false} NextDatagramInOrder(s: Session, serial: uint16, msg: seq<byte>, next: seq<byte>,
                                               wallMs: nat, nowSecs: int64)
    requires |msg| >= HEADER && |next| >= HEADER
    requires HeaderPtr(next) == NextPtr(HeaderPtr(msg))
    ensures var o := Process(s, serial, msg, wallMs, nowSecs);
            Resync(o.ses, HeaderPtr(next)) == Gate(InOrder, o.ses.(readPtr := HeaderPtr(next)))
  {
    var o := Process(s, serial, msg, wallMs, nowSecs);
    assert Synced(o.ses);
  }

  /** A datagram that resynchronises the session (a first contact or a
      pointer jump) publishes no reading and leaves the clock where it was
      when none of its records is an absolute timestamp. */
  lemma {:induction false} ResyncWithoutTimestampPublishesNothing(s: Session, serial: uint16, msg: seq<byte>,
                                                                  wallMs: nat, nowSecs: int64)
    requires |msg| >= HEADER
    requires Resync(s, HeaderPtr(msg)).decision in {Unsynced, Desync}
    requires forall i :: 0 <= i < BATCH ==> !Records.Decode(RecordBytes(msg, i)).Timestamp?
    ensures var o := Process(s, serial, msg, wallMs, nowSecs);
            NoReadings(o.events) && !o.ses.haveTime && o.ses.currentTime == s.currentTime
  {
    var g := Resync(s, HeaderPtr(msg));
    var recs := BatchRecords(msg);
    NoReadingsWithoutTime(g.ses, serial, recs);
    var o := Process(s, serial, msg, wallMs, nowSecs);
    assert o.events == [o.events[0]] + o.events[1..];
  }

  /** Within a batch that starts without an absolute time, the records before
      the first timestamp record publish nothing. */
  lemma {:induction false} NothingPublishedBeforeFirstTimestamp(s: Session, serial: uint16,
                                                                recs: seq<Records.Record>, k: nat)
    requires !s.haveTime && k <= |recs|
    requires forall i :: 0 <= i < k ==> !recs[i].Timestamp?
    ensures var prefix := DecodeAll(s, serial, recs[..k]).events;
            && prefix <= DecodeAll(s, serial, recs).events
            && NoReadings(prefix)
  {
    assert recs == recs[..k] + recs[k..];
    DecodeAllAppend(s, serial, recs[..k], recs[k..]);
    NoReadingsWithoutTime(s, serial, recs[..k]);
  }

  /** Records past the end of a short datagram are read from the zeroed
      receive buffer, so each decodes as a THO record with every field zero. */
  lemma ShortDatagramReadsEmptyRecords(msg: seq<byte>, i: nat)
    requires i < BATCH && |msg| <= HEADER + 4 * i
    ensures BatchRecords(msg)[i] == Records.Tho(0, false, 0, 0)
  {
    Records.ZeroRecordIsEmptyTho();
  }

  /** The record `02 00 40 00` has a zero raw temperature and a non-zero raw
      humidity, so with an anchored clock it publishes occupancy and humidity
      and suppresses the temperature reading. */
  lemma ThoWithZeroTemperature(s: Session, serial: uint16)
    requires s.haveTime
    ensures Records.Decode([0x02, 0x00, 0x40, 0x00]) == Records.Tho(0, false, 2049, 0)
    ensures var ms := GetTime(s);
            ApplyRecord(s, serial, Records.Tho(0, false, 2049, 0))
              == Step(s, [CrossCheck(ms), Publish(Occupancy, ms, 0), Publish(Humidity, ms, 2049)])
  {
  }
}
