/**
 * The events the kernel has accepted from the server, in order, and the
 * device lifecycle they describe: CREATE2 brings the virtual device into
 * existence, INPUT2 feeds it a report, DESTROY removes it. The server keeps
 * to this protocol; these definitions let that be stated and proved.
 */
module KernelLog {
  import opened Wrappers
  import opened Bytes
  import opened Uhid

  /** Whether the device exists after one more accepted event, or None when
      the event is out of place (a second CREATE2, an INPUT2 or DESTROY with no
      device, or any other type). */
  function Transition(live: bool, event: seq<byte>): Option<bool>
  {
    var t := ReadEventType(event);
    if t == Some(Code(Create2)) && !live then Some(true)
    else if t == Some(Code(Input2)) && live then Some(true)
    else if t == Some(Code(Destroy)) && live then Some(false)
    else None
  }

  /** Whether the device exists after the kernel accepted `log`, oldest event
      first; None when `log` breaks the protocol somewhere. */
  function LiveAfter(log: seq<seq<byte>>): Option<bool>
  {
    if log == [] then Some(false)
    else
      match LiveAfter(log[..|log| - 1])
      case None => None
      case Some(live) => Transition(live, log[|log| - 1])
  }

  /** Appending one event to a log. */
  lemma LiveAfterAppend(log: seq<seq<byte>>, event: seq<byte>)
    ensures LiveAfter(log + [event])
      == if LiveAfter(log).Some? then Transition(LiveAfter(log).value, event) else None
  {
    assert (log + [event])[..|log|] == log;
  }

  /** How many events in `log` carry the type word `c`. */
  function Count(log: seq<seq<byte>>, c: int): (n: nat)
    ensures n <= |log|
  {
    if log == [] then 0
    else Count(log[..|log| - 1], c) + (if ReadEventType(log[|log| - 1]) == Some(c) then 1 else 0)
  }

  /** In a log that keeps the protocol, creations and destructions alternate:
      there is one more CREATE2 than DESTROY exactly while the device exists. */
  lemma {:induction false} LifecycleBalance(log: seq<seq<byte>>)
    requires LiveAfter(log).Some?
    ensures Count(log, Code(Create2))
      == Count(log, Code(Destroy)) + (if LiveAfter(log).value then 1 else 0)
  {
    if log != [] {
      LifecycleBalance(log[..|log| - 1]);
    }
  }

  /** Until the device is destroyed, it is created at most once, and it exists
      exactly when it was created. */
  lemma CreatedAtMostOnce(log: seq<seq<byte>>)
    requires LiveAfter(log).Some? && Count(log, Code(Destroy)) == 0
    ensures Count(log, Code(Create2)) <= 1
    ensures Count(log, Code(Create2)) == 1 <==> LiveAfter(log) == Some(true)
  {
    LifecycleBalance(log);
  }

  /** Every INPUT2 event of a log that keeps the protocol reached a device
      that existed. */
  lemma {:induction false} InputOnlyToLiveDevice(log: seq<seq<byte>>, i: int)
    requires LiveAfter(log).Some?
    requires 0 <= i < |log| && ReadEventType(log[i]) == Some(Code(Input2))
    ensures LiveAfter(log[..i]) == Some(true)
  {
    var init := log[..|log| - 1];
    if i < |log| - 1 {
      assert init[i] == log[i] && init[..i] == log[..i];
      InputOnlyToLiveDevice(init, i);
    } else {
      assert log[..i] == init;
    }
  }

  /** Appending one event to a log adds one to the count of its own type
      and nothing to the others. */
  lemma CountAppend(log: seq<seq<byte>>, event: seq<byte>, c: int)
    ensures Count(log + [event], c) == Count(log, c) + (if ReadEventType(event) == Some(c) then 1 else 0)
  {
    assert (log + [event])[..|log|] == log;
  }

  /** A CREATE2 accepted while no device exists, and none was ever destroyed,
      is the first and only one. */
  lemma AppendCreate(log: seq<seq<byte>>, desc: seq<byte>)
    requires |desc| <= MaxDescriptorSize
    requires LiveAfter(log) == Some(false) && Count(log, Code(Destroy)) == 0
    ensures LiveAfter(log + [Create2Event(desc)]) == Some(true)
    ensures Count(log + [Create2Event(desc)], Code(Create2)) == 1
    ensures Count(log + [Create2Event(desc)], Code(Destroy)) == 0
  {
    var e := Create2Event(desc);
    EventTypeWords(desc, []);
    LiveAfterAppend(log, e);
    CountAppend(log, e, Code(Create2));
    CountAppend(log, e, Code(Destroy));
    CreatedAtMostOnce(log);
  }

  /** An INPUT2 accepted while the device exists keeps it, and changes
      neither count. */
  lemma AppendInput(log: seq<seq<byte>>, data: seq<byte>)
    requires LiveAfter(log) == Some(true)
    ensures LiveAfter(log + [Input2Event(data)]) == Some(true)
    ensures Count(log + [Input2Event(data)], Code(Create2)) == Count(log, Code(Create2))
    ensures Count(log + [Input2Event(data)], Code(Destroy)) == Count(log, Code(Destroy))
  {
    var e := Input2Event(data);
    EventTypeWords([], data);
    LiveAfterAppend(log, e);
    CountAppend(log, e, Code(Create2));
    CountAppend(log, e, Code(Destroy));
  }

  /** A DESTROY accepted while the device exists removes it. */
  lemma AppendDestroy(log: seq<seq<byte>>)
    requires LiveAfter(log) == Some(true)
    ensures LiveAfter(log + [DestroyEvent()]) == Some(false)
    ensures Count(log + [DestroyEvent()], Code(Create2)) == Count(log, Code(Create2))
    ensures Count(log + [DestroyEvent()], Code(Destroy)) == Count(log, Code(Destroy)) + 1
  {
    var e := DestroyEvent();
    EventTypeWords([], []);
    LiveAfterAppend(log, e);
    CountAppend(log, e, Code(Create2));
    CountAppend(log, e, Code(Destroy));
  }
}
