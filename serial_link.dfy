/** The serial port as the UART flasher sees it: every line change, write, read
    and clear the host performs is logged, and the bytes the device sends back
    wait in a receive buffer until they are read. What the device answers is an
    oracle: a function of everything the host did so far, consulted after each
    write. Timing is not modelled; a read finds whatever the device has sent. */
module SerialLink {
  import opened Base

  /** Something the host did on the port. */
  datatype Event =
    | Rts(level: bool)        // write_request_to_send
    | Dtr(level: bool)        // write_data_terminal_ready
    | Wrote(bytes: seq<u8>)   // write
    | Got(bytes: seq<u8>)     // a read that returned bytes
    | TimedOut                // a read that returned none
    | Cleared                 // clear(ClearBuffer::All)

  /** What the device sends back after the host's latest write. */
  type Device = seq<Event> -> seq<u8>

  /** The host's side of the port: the log of events, the payloads of the
      writes among them, and the unread bytes. */
  datatype Port = Port(trace: seq<Event>, sent: seq<seq<u8>>, rx: seq<u8>) {

    /** A write: the bytes go out, and the device's answer arrives. */
    function Write(device: Device, bytes: seq<u8>): (r: Port)
      ensures r.sent == sent + [bytes] && rx <= r.rx
    {
      var t := trace + [Wrote(bytes)];
      Port(t, sent + [bytes], rx + device(t))
    }

    /** A read into a buffer of `max` bytes: whatever is waiting, up to `max`
        bytes, or a timeout when nothing is waiting. */
    function Read(max: nat): (r: Reply<seq<u8>>)
      requires max >= 1
      ensures r.result.Ok? <==> rx != []
      ensures r.result.Ok? ==> 1 <= |r.result.value| <= max && r.result.value + r.port.rx == rx
      ensures r.result.Ok? && |rx| >= max ==> |r.result.value| == max
      ensures !r.result.Ok? ==> r.result == Err(Timeout) && r.port.rx == rx
      ensures r.port.sent == sent
    {
      if rx == [] then Reply(Err(Timeout), Port(trace + [TimedOut], sent, rx))
      else
        var n := Min(|rx|, max);
        assert rx[..n] + rx[n..] == rx;
        Reply(Ok(rx[..n]), Port(trace + [Got(rx[..n])], sent, rx[n..]))
    }

    /** `clear(ClearBuffer::All)`: the unread bytes are dropped. */
    function Clear(): (r: Port)
      ensures r.sent == sent && r.rx == []
    {
      Port(trace + [Cleared], sent, [])
    }

    function SetRts(level: bool): (r: Port)
      ensures r.sent == sent && r.rx == rx
    {
      Port(trace + [Rts(level)], sent, rx)
    }

    function SetDtr(level: bool): (r: Port)
      ensures r.sent == sent && r.rx == rx
    {
      Port(trace + [Dtr(level)], sent, rx)
    }
  }

  /** The port after an operation, and what the operation returned. */
  datatype Reply<+T> = Reply(result: Outcome<T>, port: Port)

  /** The events logged since `p`, when `q` came from `p` by further operations. */
  function Since(p: Port, q: Port): seq<Event>
    requires p.trace <= q.trace
  {
    q.trace[|p.trace|..]
  }

  /** The serial port handle: its log and receive buffer change in place. */
  class Link {
    var trace: seq<Event>
    var sent: seq<seq<u8>>
    var rx: seq<u8>
    const device: Device

    constructor(device: Device)
      ensures State() == Port([], [], []) && this.device == device
    {
      this.device := device;
      trace := [];
      sent := [];
      rx := [];
    }

    function State(): Port
      reads this
    {
      Port(trace, sent, rx)
    }

    method Write(bytes: seq<u8>)
      modifies this
      ensures State() == old(State()).Write(device, bytes)
    {
      trace := trace + [Wrote(bytes)];
      sent := sent + [bytes];
      rx := rx + device(trace);
    }

    method Read(max: nat) returns (r: Outcome<seq<u8>>)
      requires max >= 1
      modifies this
      ensures Reply(r, State()) == old(State()).Read(max)
    {
      if rx == [] {
        trace := trace + [TimedOut];
        return Err(Timeout);
      }
      var n := Min(|rx|, max);
      r := Ok(rx[..n]);
      trace := trace + [Got(rx[..n])];
      rx := rx[n..];
    }

    method Clear()
      modifies this
      ensures State() == old(State()).Clear()
    {
      trace := trace + [Cleared];
      rx := [];
    }

    method WriteRequestToSend(level: bool)
      modifies this
      ensures State() == old(State()).SetRts(level)
    {
      trace := trace + [Rts(level)];
    }

    method WriteDataTerminalReady(level: bool)
      modifies this
      ensures State() == old(State()).SetDtr(level)
    {
      trace := trace + [Dtr(level)];
    }
  }
}
