/**
 * The UHID server: the state a running server keeps between datagrams and
 * timer ticks, and the handlers that change it. The handle on /dev/uhid,
 * the device-created flag, the connection state and the advertised device
 * information are fields updated in place, as in the server; `written`
 * records every event the kernel accepted through the handle, oldest first.
 *
 * Time is a parameter, in nanoseconds since the Unix epoch. Whether a write
 * to /dev/uhid succeeds is a parameter too: a write succeeds only through an
 * open handle, and then exactly when the kernel accepts it.
 */
module Server {
  import opened Wrappers
  import opened Bytes
  import opened Uhid
  import opened KernelLog
  import Datagram
  import Discovery

  const NanosPerSecond: int := 1_000_000_000
  /** Input older than this (five seconds) counts as a lost connection. */
  const ConnectionTimeout: int := 5 * NanosPerSecond

  /** What the server advertises on the discovery port. */
  datatype DeviceInfo = DeviceInfo(ip: string, deviceName: string, timestamp: int)

  /** The handle on /dev/uhid: never opened, open, or closed by `Stop`. */
  datatype UhidFile = NoFile | Opened | Closed

  /** Go's `Time.Unix`: whole seconds since the epoch, rounded down. */
  function Unix(now: int): (sec: int)
    ensures sec * NanosPerSecond <= now < (sec + 1) * NanosPerSecond
  {
    now / NanosPerSecond
  }

  /** The test of the advertising loop: broadcast while nobody is connected,
      or when the last input is more than ConnectionTimeout old. */
  predicate BroadcastDue(connected: bool, lastInputTime: int, now: int)
  {
    !connected || now - lastInputTime > ConnectionTimeout
  }

  class UhidServer {
    var file: UhidFile
    var info: DeviceInfo
    var running: bool
    var descriptor: seq<byte>
    var descriptorSet: bool
    var deviceCreated: bool
    var lastInputTime: int
    var connected: bool
    var written: seq<seq<byte>>

    /** The server's invariant: what the kernel accepted keeps the device
        protocol and agrees with `deviceCreated`; nothing was written
        without a handle; a device exists only behind a handle; it is
        created at most once, and destroyed only once the handle is closed
        (destruction happens only in `Stop`, which then closes the handle). */
    ghost predicate Valid()
      reads this
    {
      && LiveAfter(written) == Some(deviceCreated)
      && (file == NoFile ==> written == [] && !deviceCreated)
      && (file != Closed ==> Count(written, Code(Destroy)) == 0)
      && Count(written, Code(Create2)) <= 1
    }

    /** `NewUHIDServer` once the local address is known: nothing is open,
        nothing is running, and the advertisement is stamped with the
        current second. */
    constructor (deviceName: string, ip: string, now: int)
      ensures Valid()
      ensures info == DeviceInfo(ip, deviceName, Unix(now))
      ensures file == NoFile && !running
      ensures descriptor == [] && !descriptorSet && !deviceCreated
      ensures !connected && lastInputTime == 0 && written == []
    {
      file := NoFile;
      info := DeviceInfo(ip, deviceName, Unix(now));
      running := false;
      descriptor := [];
      descriptorSet := false;
      deviceCreated := false;
      lastInputTime := 0;
      connected := false;
      written := [];
    }

    /** The set-up part of `Start`. A failure to open /dev/uhid is only
        reported and the server goes on without it; a failure to listen on
        either port ends `Start` with an error before the server runs. */
    method Start(uhidOpened: bool, listening: bool) returns (ok: bool)
      requires Valid() && file == NoFile && !running
      modifies this`file, this`running
      ensures Valid()
      ensures file == (if uhidOpened then Opened else NoFile)
      ensures ok == listening && running == listening
    {
      if uhidOpened {
        file := Opened;
      }
      if !listening {
        return false;
      }
      running := true;
      ok := true;
    }

    /** `uhidFile.Write`: accepted only through an open handle, and then
        exactly when the kernel accepts it. */
    method WriteEvent(event: array<byte>, writeOk: bool) returns (ok: bool)
      modifies this`written
      ensures ok == (file == Opened && writeOk)
      ensures written == if ok then old(written) + [event[..]] else old(written)
    {
      ok := file == Opened && writeOk;
      if ok {
        written := written + [event[..]];
      }
    }

    /** `createUHIDDeviceWithDescriptor`: a descriptor over 4096 bytes is
        refused before anything is written; otherwise the CREATE2 event is
        written and the result is the write's. */
    method CreateDeviceWithDescriptor(desc: seq<byte>, writeOk: bool) returns (err: Option<CreateError>)
      modifies this`written
      ensures err == if |desc| > MaxDescriptorSize then Some(DescriptorTooLarge(|desc|))
                     else if file == Opened && writeOk then None
                     else Some(WriteFailed)
      ensures written == if err.None? then old(written) + [Create2Event(desc)] else old(written)
    {
      var r := EncodeCreate2(desc);
      if r.Failure? {
        return Some(r.error);
      }
      var ok := WriteEvent(r.value, writeOk);
      err := if ok then None else Some(WriteFailed);
    }

    /** `handleDescriptorPacket`: the descriptor is stored whatever happens;
        the device is created from it only when a handle exists and no
        device was created yet; the acknowledgment is always "DESC_OK". */
    method HandleDescriptorPacket(data: seq<byte>, writeOk: bool) returns (ack: seq<byte>)
      requires Valid()
      modifies this`descriptor, this`descriptorSet, this`deviceCreated, this`written
      ensures Valid()
      ensures ack == Datagram.DescOk
      ensures descriptor == data && descriptorSet
      ensures var create := file == Opened && !old(deviceCreated) && |data| <= MaxDescriptorSize && writeOk;
        && deviceCreated == (old(deviceCreated) || create)
        && written == if create then old(written) + [Create2Event(data)] else old(written)
    {
      descriptor := data;
      descriptorSet := true;
      if file != NoFile && !deviceCreated {
        ghost var before := written;
        var err := CreateDeviceWithDescriptor(data, writeOk);
        if err.None? {
          AppendCreate(before, data);
          deviceCreated := true;
        }
      }
      ack := Datagram.DescOk;
    }

    /** `processGamepadInput`: any report marks the client connected at
        `now`; it is forwarded as an INPUT2 event only through a handle, to
        a created device, and when it is not empty. The result is whether
        the kernel accepted it. */
    method ProcessGamepadInput(data: seq<byte>, now: int, writeOk: bool) returns (forwarded: bool)
      requires Valid()
      modifies this`lastInputTime, this`connected, this`written
      ensures Valid()
      ensures lastInputTime == now && connected
      ensures forwarded == (file == Opened && deviceCreated && |data| >= 1 && writeOk)
      ensures written == if forwarded then old(written) + [Input2Event(data)] else old(written)
    {
      lastInputTime := now;
      connected := true;
      if file == NoFile || !deviceCreated || |data| < 1 {
        return false;
      }
      ghost var before := written;
      var event := EncodeInput2(data);
      forwarded := WriteEvent(event, writeOk);
      if forwarded {
        AppendInput(before, data);
      }
    }

    /** `destroyUHIDDevice`: writes DESTROY; the device is gone only when
        the kernel accepted it. */
    method DestroyDevice(writeOk: bool) returns (ok: bool)
      modifies this`deviceCreated, this`written
      ensures ok == (file == Opened && writeOk)
      ensures deviceCreated == (old(deviceCreated) && !ok)
      ensures written == if ok then old(written) + [DestroyEvent()] else old(written)
    {
      var event := EncodeDestroy();
      ok := WriteEvent(event, writeOk);
      if ok {
        deviceCreated := false;
      }
    }

    /** `Stop`: the server stops running; a created device is destroyed
        before the handle is closed. */
    method Stop(writeOk: bool)
      requires Valid()
      modifies this`running, this`deviceCreated, this`written, this`file
      ensures Valid()
      ensures !running
      ensures var destroy := old(file) == Opened && old(deviceCreated) && writeOk;
        && deviceCreated == (old(deviceCreated) && !destroy)
        && written == if destroy then old(written) + [DestroyEvent()] else old(written)
      ensures file == if old(file) == NoFile then NoFile else Closed
    {
      running := false;
      if file != NoFile && deviceCreated {
        ghost var before := written;
        var ok := DestroyDevice(writeOk);
        if ok {
          AppendDestroy(before);
        }
      }
      if file != NoFile {
        file := Closed;
      }
    }

    /** One tick of `activeBroadcast`: the advertised address follows the
        local address when it can be found; when a broadcast is due the
        connection is dropped, the advertisement is stamped and broadcast. */
    method Tick(now: int, localIp: Option<string>) returns (broadcast: Option<DeviceInfo>)
      modifies this`info, this`connected
      ensures broadcast.Some? <==> BroadcastDue(old(connected), lastInputTime, now)
      ensures broadcast.Some? ==> !connected && broadcast.value == info
      ensures broadcast.None? ==> connected
      ensures info == old(info).(
        ip := if localIp.Some? then localIp.value else old(info.ip),
        timestamp := if broadcast.Some? then Unix(now) else old(info.timestamp))
    {
      if localIp.Some? {
        info := info.(ip := localIp.value);
      }
      if BroadcastDue(connected, lastInputTime, now) {
        connected := false;
        info := info.(timestamp := Unix(now));
        return Some(info);
      }
      broadcast := None;
    }

    /** `handleBroadcastMessages` and `respondToDiscovery` for one received
        message: a discovery request is answered with the advertisement,
        stamped with the current second; anything else is ignored. */
    method HandleBroadcastMessage(message: string, now: int) returns (reply: Option<DeviceInfo>)
      modifies this`info
      ensures reply.Some? <==> Discovery.IsDiscoveryRequest(message)
      ensures reply.Some? ==> info == old(info).(timestamp := Unix(now)) && reply.value == info
      ensures reply.None? ==> info == old(info)
    {
      if Discovery.IsDiscoveryRequest(message) {
        info := info.(timestamp := Unix(now));
        return Some(info);
      }
      reply := None;
    }

    /** `handleUDPMessages` for one received datagram: a handshake is
        acknowledged, a report is processed, anything else is dropped. */
    method HandleDatagram(data: seq<byte>, now: int, writeOk: bool) returns (ack: Option<seq<byte>>)
      requires Valid()
      modifies this`descriptor, this`descriptorSet, this`deviceCreated, this`written
      modifies this`lastInputTime, this`connected
      ensures Valid()
      ensures ack.Some? <==> Datagram.Classify(data).Handshake?
      ensures ack.Some? ==> ack.value == Datagram.DescOk && descriptor == Datagram.Classify(data).descriptor
      ensures Datagram.Classify(data).Handshake? ==>
        && descriptorSet && lastInputTime == old(lastInputTime) && connected == old(connected)
      ensures Datagram.Classify(data).Report? ==>
        && lastInputTime == now && connected && deviceCreated == old(deviceCreated)
        && descriptor == old(descriptor) && descriptorSet == old(descriptorSet)
      ensures written == old(written) + Accepted(old(deviceCreated), data, writeOk)
      ensures Datagram.Classify(data).Dropped? ==>
        && descriptor == old(descriptor) && descriptorSet == old(descriptorSet)
        && deviceCreated == old(deviceCreated) && lastInputTime == old(lastInputTime)
        && connected == old(connected)
    {
      match Datagram.Classify(data)
      case Handshake(desc) =>
        var a := HandleDescriptorPacket(desc, writeOk);
        ack := Some(a);
      case Report(report) =>
        var _ := ProcessGamepadInput(report, now, writeOk);
        ack := None;
      case Dropped(_) =>
        ack := None;
    }

    /** The events the kernel accepts for one datagram, given whether a
        device existed before it. */
    ghost function Accepted(created: bool, data: seq<byte>, writeOk: bool): seq<seq<byte>>
      reads this
    {
      match Datagram.Classify(data)
      case Handshake(desc) =>
        if file == Opened && !created && |desc| <= MaxDescriptorSize && writeOk then [Create2Event(desc)] else []
      case Report(report) =>
        if file == Opened && created && writeOk then [Input2Event(report)] else []
      case Dropped(_) => []
    }
  }
}
