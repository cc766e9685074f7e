/** The per-packet path from the socket to a session (main.go:276-291): the
    mote's serial is read from its IPv6 address, its session is fetched or
    created, and the datagram is processed by that session. */
module Gateway {
  import opened Bytes
  import opened Sessions
  import Ack

  /** Bytes in an IPv6 address. */
  const IPV6_SIZE: nat := 16

  /** The serial number of a mote: the last two bytes of its IPv6 address,
      most significant first (main.go:278). */
  function SerialOf(ip: seq<byte>): (serial: uint16)
    requires |ip| >= IPV6_SIZE
    ensures serial / 256 == ip[14] && serial % 256 == ip[15]
  {
    (ip[14] as int) * 256 + ip[15]
  }

  /** Two addresses name the same mote exactly when their last two bytes agree. */
  lemma SerialIdentifiesMote(a: seq<byte>, b: seq<byte>)
    requires |a| >= IPV6_SIZE && |b| >= IPV6_SIZE
    ensures SerialOf(a) == SerialOf(b) <==> a[14] == b[14] && a[15] == b[15]
  {
    var x, y := SerialOf(a), SerialOf(b);
    if x == y {
      assert x / 256 == y / 256 && x % 256 == y % 256;
    }
  }

  /** The sessions of all motes heard from so far, by serial. */
  type Registry = map<uint16, Session>

  predicate ValidRegistry(reg: Registry)
  {
    forall serial :: serial in reg ==> Valid(reg[serial])
  }

  /** The session for `serial`, created fresh on first contact (main.go:279-285). */
  function GetOrCreate(reg: Registry, serial: uint16): (s: Session)
    ensures serial in reg ==> s == reg[serial]
    ensures serial !in reg ==> s == NewSession()
    ensures ValidRegistry(reg) ==> Valid(s)
  {
    if serial in reg then reg[serial] else NewSession()
  }

  /** How handling a packet ends. */
  datatype Handled =
      /** The datagram is shorter than its pointer header: reading the header
          panics, and the panic ends the whole program. */
    | Panicked
    | Handled(registry: Registry, events: seq<Event>, ack: seq<byte>)

  /** Handles one received datagram from address `ip` (main.go:276-291). */
  function HandlePacket(reg: Registry, ip: seq<byte>, msg: seq<byte>, wallMs: nat, nowSecs: int64): (h: Handled)
    requires |ip| >= IPV6_SIZE
    ensures h.Panicked? <==> |msg| < HEADER
    // the sender's session now follows the sender's pointer
    ensures h.Handled? ==> h.registry.Keys == reg.Keys + {SerialOf(ip)}
    ensures h.Handled? ==> h.registry[SerialOf(ip)].readPtr == HeaderPtr(msg)
    // a known mote's session carries on from where its last datagram left it
    ensures h.Handled? && SerialOf(ip) in reg ==>
              h.registry[SerialOf(ip)] == Process(reg[SerialOf(ip)], SerialOf(ip), msg, wallMs, nowSecs).ses
    // a new mote starts from a fresh, unsynchronised session
    ensures h.Handled? && SerialOf(ip) !in reg ==>
              h.registry[SerialOf(ip)] == Process(NewSession(), SerialOf(ip), msg, wallMs, nowSecs).ses
    // what is published and released is what the sender's session produces
    ensures h.Handled? ==>
              var o := Process(GetOrCreate(reg, SerialOf(ip)), SerialOf(ip), msg, wallMs, nowSecs);
              h.events == o.events && h.ack == o.ack
    ensures h.Handled? ==> |h.ack| == Ack.ACK_SIZE && h.ack[..HEADER] == msg[..HEADER]
    // no other mote's session is touched
    ensures h.Handled? ==> forall serial :: serial in reg && serial != SerialOf(ip) ==> h.registry[serial] == reg[serial]
    ensures h.Handled? && ValidRegistry(reg) ==> ValidRegistry(h.registry)
  {
    if |msg| < HEADER then Panicked
    else
      var serial := SerialOf(ip);
      var o := Process(GetOrCreate(reg, serial), serial, msg, wallMs, nowSecs);
      Handled(reg[serial := o.ses], o.events, o.ack)
  }

  /** A datagram delivered twice through the gateway is decoded once: the
      second delivery finds the mote's session where the first left it,
      changes no session, and publishes only the logged pointer. */
  lemma {:induction false} GatewayRedeliveryIsIdempotent(reg: Registry, ip: seq<byte>, msg: seq<byte>,
                                                         wallMs1: nat, nowSecs1: int64, wallMs2: nat, nowSecs2: int64)
    requires |ip| >= IPV6_SIZE && |msg| >= HEADER
    ensures var h1 := HandlePacket(reg, ip, msg, wallMs1, nowSecs1);
            && h1.Handled?
            && var h2 := HandlePacket(h1.registry, ip, msg, wallMs2, nowSecs2);
            && h2.Handled?
            && h2.registry == h1.registry
            && h2.events == [Publish(LogPtr, wallMs2, HeaderPtr(msg))]
  {
    var serial := SerialOf(ip);
    var h1 := HandlePacket(reg, ip, msg, wallMs1, nowSecs1);
    RedeliveryIsIdempotent(GetOrCreate(reg, serial), serial, msg, wallMs1, nowSecs1, wallMs2, nowSecs2);
    assert h1.registry[serial := h1.registry[serial]] == h1.registry;
  }

  /** A mote heard from for the first time is accepted at whatever pointer it
      reports, and its whole batch is decoded without a clock anchor. */
  lemma {:induction false} FirstContactAcceptsAnyPointer(reg: Registry, ip: seq<byte>, msg: seq<byte>,
                                                        wallMs: nat, nowSecs: int64)
    requires |ip| >= IPV6_SIZE && |msg| >= HEADER
    requires SerialOf(ip) !in reg
    ensures var g := Resync(GetOrCreate(reg, SerialOf(ip)), HeaderPtr(msg));
            g.decision == Unsynced && g.ses == NewSession().(readPtr := HeaderPtr(msg))
    // its whole batch is decoded from that session, after the logged pointer
    ensures var h := HandlePacket(reg, ip, msg, wallMs, nowSecs);
            var b := DecodeAll(NewSession().(readPtr := HeaderPtr(msg)), SerialOf(ip), BatchRecords(msg));
            && h.Handled?
            && h.registry[SerialOf(ip)] == b.ses
            && h.events == [Publish(LogPtr, wallMs, HeaderPtr(msg))] + b.events
  {
    var h := HandlePacket(reg, ip, msg, wallMs, nowSecs);
    assert h.events == [h.events[0]] + h.events[1..];
  }
}
