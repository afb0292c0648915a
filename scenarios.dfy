/**
 * Whole exchanges with a server, from start-up: each method starts a
 * fresh server, feeds it datagrams, timer ticks or a shutdown, and states
 * what the client and the kernel see in the end.
 */
module Scenarios {
  import opened Wrappers
  import opened Bytes
  import opened Uhid
  import opened Server
  import Datagram
  import Discovery

  /** A server that opened /dev/uhid and listens on both ports. */
  method StartedServer(uhidOpened: bool) returns (s: UhidServer)
    ensures fresh(s) && s.Valid()
    ensures s.file == (if uhidOpened then Opened else NoFile) && s.running
    ensures !s.deviceCreated && !s.connected && s.written == []
    ensures s.info == DeviceInfo("192.168.1.20", "AGamePad-UDP", 0)
  {
    s := new UhidServer("AGamePad-UDP", "192.168.1.20", 0);
    var _ := s.Start(uhidOpened, true);
  }

  /** Two handshakes: both are acknowledged, and the kernel is asked to
      create the device once, from the first descriptor whose CREATE2 it
      accepts; the stored descriptor is always the latest. */
  method RepeatedHandshake(first: seq<byte>, second: seq<byte>, firstOk: bool, secondOk: bool)
    returns (acks: seq<seq<byte>>, stored: seq<byte>, events: seq<seq<byte>>)
    requires first != [] && second != []
    ensures acks == [Datagram.DescOk, Datagram.DescOk]
    ensures stored == second
    ensures events ==
      if |first| <= MaxDescriptorSize && firstOk then [Create2Event(first)]
      else if |second| <= MaxDescriptorSize && secondOk then [Create2Event(second)]
      else []
  {
    var s := StartedServer(true);
    Datagram.HandshakeRoundTrip(first);
    Datagram.HandshakeRoundTrip(second);
    var a1 := s.HandleDatagram(Datagram.HandshakePacket(first), 1, firstOk);
    var a2 := s.HandleDatagram(Datagram.HandshakePacket(second), 2, secondOk);
    acks, stored, events := [a1.value, a2.value], s.descriptor, s.written;
  }

  /** After a handshake, a report reaches the kernel as an INPUT2 event that
      carries it intact, report id first; the CREATE2 before it carries the
      descriptor. */
  method ReportAfterHandshake(desc: seq<byte>, report: seq<byte>)
    returns (events: seq<seq<byte>>)
    requires desc != [] && |desc| <= MaxDescriptorSize
    requires (|report| == 8 || |report| == 10) && report[..4] != Datagram.Magic
    ensures events == [Create2Event(desc), Input2Event(report)]
    ensures DecodeCreate2(events[0]).Some? && DecodeCreate2(events[0]).value.descriptor == desc
    ensures DecodeInput2(events[1]) == Some(report)
  {
    var s := StartedServer(true);
    Datagram.HandshakeRoundTrip(desc);
    Datagram.ReportRecognised(report);
    var _ := s.HandleDatagram(Datagram.HandshakePacket(desc), 1, true);
    var _ := s.HandleDatagram(report, 2, true);
    events := s.written;
    Create2RoundTrip(desc);
    Input2RoundTrip(report);
  }

  /** A report before any handshake connects the client but reaches no
      device: nothing is written to the kernel. */
  method ReportBeforeHandshake(report: seq<byte>) returns (connected: bool, events: seq<seq<byte>>)
    requires (|report| == 8 || |report| == 10) && report[..4] != Datagram.Magic
    ensures connected && events == []
  {
    var s := StartedServer(true);
    Datagram.ReportRecognised(report);
    var _ := s.HandleDatagram(report, 1, true);
    connected, events := s.connected, s.written;
  }

  /** Without /dev/uhid a handshake is still acknowledged, and nothing is
      created or written. */
  method HandshakeWithoutUhid(desc: seq<byte>) returns (ack: Option<seq<byte>>, created: bool, events: seq<seq<byte>>)
    requires desc != []
    ensures ack == Some(Datagram.DescOk)
    ensures !created && events == []
  {
    var s := StartedServer(false);
    Datagram.HandshakeRoundTrip(desc);
    ack := s.HandleDatagram(Datagram.HandshakePacket(desc), 1, true);
    created, events := s.deviceCreated, s.written;
  }

  /** A tick `silence` nanoseconds after the last report: the server
      advertises itself again exactly when the silence exceeds the
      connection timeout, and then counts the client as gone. */
  method SilenceResumesBroadcast(report: seq<byte>, last: int, silence: int)
    returns (broadcast: Option<DeviceInfo>, connected: bool)
    requires (|report| == 8 || |report| == 10) && report[..4] != Datagram.Magic
    ensures broadcast.Some? <==> silence > ConnectionTimeout
    ensures connected <==> broadcast.None?
    ensures broadcast.Some? ==> broadcast.value.timestamp == Unix(last + silence)
  {
    var s := StartedServer(true);
    Datagram.ReportRecognised(report);
    var _ := s.HandleDatagram(report, last, true);
    broadcast := s.Tick(last + silence, None);
    connected := s.connected;
  }

  /** Until a client has sent a report, every tick broadcasts. */
  method IdleServerBroadcasts(now: int, localIp: Option<string>) returns (broadcast: Option<DeviceInfo>)
    ensures broadcast.Some?
    ensures broadcast.value.ip == (if localIp.Some? then localIp.value else "192.168.1.20")
    ensures broadcast.value.timestamp == Unix(now)
  {
    var s := StartedServer(true);
    broadcast := s.Tick(now, localIp);
  }

  /** "discover", in any case and with any white space around it, is
      answered with the advertisement stamped at the current second. */
  method DiscoverIsAnswered(pre: string, word: string, post: string, now: int) returns (reply: Option<DeviceInfo>)
    requires Discovery.AllSpace(pre) && Discovery.AllSpace(post)
    requires Discovery.ToLower(word) == "discover"
    ensures reply == Some(DeviceInfo("192.168.1.20", "AGamePad-UDP", Unix(now)))
  {
    var s := StartedServer(true);
    Discovery.DiscoverInAnyCase(pre, word, post);
    reply := s.HandleBroadcastMessage(pre + word + post, now);
  }

  /** Shutting down destroys the created device before closing the handle.
      A handshake read just before the shutdown but handled after it (the
      read loop runs beside `Stop`) still gets its acknowledgment from the
      handler but creates nothing, since the handle is closed. */
  method ShutdownDestroys(desc: seq<byte>, late: seq<byte>)
    returns (ack: Option<seq<byte>>, created: bool, events: seq<seq<byte>>)
    requires desc != [] && |desc| <= MaxDescriptorSize && late != []
    ensures ack == Some(Datagram.DescOk)
    ensures !created
    ensures events == [Create2Event(desc), DestroyEvent()]
  {
    var s := StartedServer(true);
    Datagram.HandshakeRoundTrip(desc);
    Datagram.HandshakeRoundTrip(late);
    var _ := s.HandleDatagram(Datagram.HandshakePacket(desc), 1, true);
    s.Stop(true);
    ack := s.HandleDatagram(Datagram.HandshakePacket(late), 2, true);
    created, events := s.deviceCreated, s.written;
  }
}
