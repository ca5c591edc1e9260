/** Flashing over a plain UART with the ROM bootloader protocol of the
    STM32-compatible chips (ST application note AN3155): every command is a
    byte followed by its complement, every frame is acknowledged by the byte
    0x79, and address and data frames end in the XOR of their bytes. */
module Uart {
  import opened Base
  import opened SerialLink
  import AirIsp

  // ---------------------------------------------------------------------------
  // Bytes on the wire.

  datatype Command =
    | Get | GetVersion | GetId | GetDeviceId | ReadMemory | Go
    | WriteMemory | ExtendedErase | WriteProtect | WriteUnprotect | ReadProtect | ReadUnprotect

  function Opcode(c: Command): u8
  {
    match c
    case Get => 0x00
    case GetVersion => 0x01
    case GetId => 0x02
    case GetDeviceId => 0x03
    case ReadMemory => 0x11
    case Go => 0x21
    case WriteMemory => 0x31
    case ExtendedErase => 0x44
    case WriteProtect => 0x63
    case WriteUnprotect => 0x73
    case ReadProtect => 0x82
    case ReadUnprotect => 0x92
  }

  /** The command a bootloader reads from an opcode byte. */
  function CommandOf(b: u8): Option<Command>
  {
    match b
    case 0x00 => Some(Get)
    case 0x01 => Some(GetVersion)
    case 0x02 => Some(GetId)
    case 0x03 => Some(GetDeviceId)
    case 0x11 => Some(ReadMemory)
    case 0x21 => Some(Go)
    case 0x31 => Some(WriteMemory)
    case 0x44 => Some(ExtendedErase)
    case 0x63 => Some(WriteProtect)
    case 0x73 => Some(WriteUnprotect)
    case 0x82 => Some(ReadProtect)
    case 0x92 => Some(ReadUnprotect)
    case _ => None
  }

  const Ack: u8 := 0x79
  const Nack: u8 := 0x1F
  /** The byte that lets the bootloader measure the baud rate. */
  const Sync: u8 := 0x7F
  /** The most bytes one Write Memory command carries. */
  const ChunkSize: nat := 256
  /** How many times Get ID is tried after the handshake. */
  const GetIdRetries: nat := 5

  /** A command as sent: the opcode and its bitwise complement. */
  function CommandFrame(c: Command): seq<u8>
  {
    [Opcode(c), Not8(Opcode(c))]
  }

  /** What a bootloader makes of a two-byte command frame. */
  function CommandOfFrame(f: seq<u8>): Option<Command>
  {
    if |f| == 2 && f[1] == Not8(f[0]) then CommandOf(f[0]) else None
  }

  lemma CommandFrameRoundTrip(c: Command)
    ensures CommandOfFrame(CommandFrame(c)) == Some(c)
  {
    match c
    case Get =>
    case GetVersion =>
    case GetId =>
    case GetDeviceId =>
    case ReadMemory =>
    case Go =>
    case WriteMemory =>
    case ExtendedErase =>
    case WriteProtect =>
    case WriteUnprotect =>
    case ReadProtect =>
    case ReadUnprotect =>
  }

  /** A command frame is the only frame a bootloader reads as that command. */
  lemma CommandFrameUnique(f: seq<u8>, c: Command)
    requires CommandOfFrame(f) == Some(c)
    ensures f == CommandFrame(c)
  {
    CommandFrameRoundTrip(c);
    assert Opcode(c) == f[0];
  }

  /** An address, most significant byte first. */
  function BigEndian(a: u32): (r: seq<u8>)
    ensures |r| == 4
  {
    [a / 0x100_0000, (a / 0x1_0000) % 0x100, (a / 0x100) % 0x100, a % 0x100]
  }

  /** The number four bytes denote, most significant first. */
  function WordOf(b: seq<u8>): nat
    requires |b| == 4
  {
    ((b[0] as int * 0x100 + b[1]) * 0x100 + b[2]) * 0x100 + b[3]
  }

  lemma BigEndianRoundTrip(a: u32)
    ensures WordOf(BigEndian(a)) == a
  {
    var b := BigEndian(a);
    assert b[0] as int * 0x100 + b[1] == a / 0x1_0000;
    assert a / 0x1_0000 * 0x100 + b[2] == a / 0x100;
  }

  lemma WordOfRoundTrip(b: seq<u8>)
    requires |b| == 4
    ensures WordOf(b) < 0x1_0000_0000 && BigEndian(WordOf(b)) == b
  {
    var w := WordOf(b);
    var w1 := (b[0] as int * 0x100 + b[1]) * 0x100 + b[2];
    var w2 := b[0] as int * 0x100 + b[1];
    assert w / 0x100 == w1 && w % 0x100 == b[3];
    assert w1 / 0x100 == w2 && w1 % 0x100 == b[2];
    assert w2 / 0x100 == b[0] && w2 % 0x100 == b[1];
    assert w / 0x1_0000 == w2;
    assert w / 0x100_0000 == b[0];
  }

  /** The address frame of Write Memory: the address and its XOR checksum. */
  function AddressFrame(a: u32): (r: seq<u8>)
    ensures |r| == 5 && r[..4] == BigEndian(a)
  {
    BigEndian(a) + [XorAll(BigEndian(a))]
  }

  /** What a bootloader makes of a five-byte address frame. */
  function AddressOfFrame(f: seq<u8>): Option<nat>
  {
    if |f| == 5 && XorAll(f) == 0 then Some(WordOf(f[..4])) else None
  }

  lemma AddressFrameRoundTrip(a: u32)
    ensures AddressOfFrame(AddressFrame(a)) == Some(a)
  {
    XorAllWithChecksum(BigEndian(a));
    BigEndianRoundTrip(a);
  }

  /** An address frame the bootloader accepts is the frame of its address. */
  lemma AddressFrameUnique(f: seq<u8>)
    requires AddressOfFrame(f).Some?
    ensures AddressOfFrame(f).value < 0x1_0000_0000
    ensures f == AddressFrame(AddressOfFrame(f).value)
  {
    WordOfRoundTrip(f[..4]);
    assert f == f[..4] + [f[4]];
    XorUnique(f[..4], f[4]);
  }

  /** The data frame of Write Memory: the byte count less one, the bytes, and
      the XOR of everything before it. */
  function DataFrame(chunk: seq<u8>): (r: seq<u8>)
    requires 1 <= |chunk| <= ChunkSize
    ensures |r| == |chunk| + 2
  {
    var body := [(|chunk| - 1) as u8] + chunk;
    body + [XorAll(body)]
  }

  /** What a bootloader makes of a data frame. */
  function DataOfFrame(f: seq<u8>): Option<seq<u8>>
  {
    if |f| >= 3 && f[0] as int + 3 == |f| && XorAll(f) == 0 then Some(f[1..|f| - 1]) else None
  }

  lemma DataFrameRoundTrip(chunk: seq<u8>)
    requires 1 <= |chunk| <= ChunkSize
    ensures DataOfFrame(DataFrame(chunk)) == Some(chunk)
  {
    var body := [(|chunk| - 1) as u8] + chunk;
    XorAllWithChecksum(body);
    assert DataFrame(chunk)[1..|chunk| + 1] == chunk;
  }

  lemma DataFrameUnique(f: seq<u8>)
    requires DataOfFrame(f).Some?
    ensures 1 <= |DataOfFrame(f).value| <= ChunkSize
    ensures f == DataFrame(DataOfFrame(f).value)
  {
    var chunk := f[1..|f| - 1];
    var body := [(|chunk| - 1) as u8] + chunk;
    assert f[..|f| - 1] == body;
    assert f == body + [f[|f| - 1]];
    XorUnique(body, f[|f| - 1]);
  }

  // ---------------------------------------------------------------------------
  // The protocol, as functions of the port.

  /** `get_ack`: one byte is read; ACK succeeds, any other byte clears the
      port and fails, and a timeout fails without clearing. Nothing is
      written. */
  function ReadAck(p: Port): (r: Reply<()>)
    ensures r.port.sent == p.sent
    ensures r.result.Ok? <==> p.rx != [] && p.rx[0] == Ack
    ensures r.result.Ok? ==> r.port.rx == p.rx[1..]
    ensures p.rx == [] ==> r.result == Err(Timeout) && r.port.rx == []
    ensures p.rx != [] && p.rx[0] != Ack ==> r.result == Err(AckError) && r.port.rx == []
  {
    var b := p.Read(1);
    if !b.result.Ok? then Reply(b.result.PropagateFailure(), b.port)
    else if b.result.value[0] == Ack then Reply(Ok(()), b.port)
    else Reply(Err(AckError), b.port.Clear())
  }

  /** A frame written and acknowledged: the frame is the one thing written,
      and the outcome is an ACK or an error. */
  function Exchange(p: Port, device: Device, frame: seq<u8>): (r: Reply<()>)
    ensures r.port.sent == p.sent + [frame]
    ensures r.result.Ok? || r.result.Err?
  {
    ReadAck(p.Write(device, frame))
  }

  /** The address of the chunk at offset `i`, as a wrapping 32-bit sum. */
  function ChunkAddress(address: u32, i: nat): u32
  {
    (address + i) % 0x1_0000_0000
  }

  /** The chunk of `data` at offset `i`: 256 bytes, or what is left. */
  function ChunkAt(data: seq<u8>, i: nat): (r: seq<u8>)
    requires i < |data|
    ensures 1 <= |r| <= ChunkSize
  {
    data[i..Min(i + ChunkSize, |data|)]
  }

  /** `write_flash` from offset `i`: per chunk a Write Memory command, its
      address and its data, each acknowledged; the first failure ends it. */
  function FlashFrom(p: Port, device: Device, address: u32, data: seq<u8>, i: nat): Reply<()>
    decreases |data| - i
  {
    if i >= |data| then Reply(Ok(()), p)
    else
      var c := Exchange(p, device, CommandFrame(WriteMemory));
      if !c.result.Ok? then c
      else
        var a := Exchange(c.port, device, AddressFrame(ChunkAddress(address, i)));
        if !a.result.Ok? then a
        else
          var d := Exchange(a.port, device, DataFrame(ChunkAt(data, i)));
          if !d.result.Ok? then d
          else FlashFrom(d.port, device, address, data, i + ChunkSize)
  }

  /** The frames that write `data` from offset `i` to memory at `address`. */
  function Frames(address: u32, data: seq<u8>, i: nat): seq<seq<u8>>
    decreases |data| - i
  {
    if i >= |data| then []
    else
      [CommandFrame(WriteMemory), AddressFrame(ChunkAddress(address, i)), DataFrame(ChunkAt(data, i))]
        + Frames(address, data, i + ChunkSize)
  }

  /** Writing sends a prefix of the frames, and all of them when it succeeds;
      it never exits or panics. */
  lemma {:induction false} FlashFrames(p: Port, device: Device, address: u32, data: seq<u8>, i: nat)
    ensures Sends(p, FlashFrom(p, device, address, data, i).port, Frames(address, data, i))
    ensures FlashFrom(p, device, address, data, i).result.Ok? ==>
      FlashFrom(p, device, address, data, i).port.sent == p.sent + Frames(address, data, i)
    ensures FlashFrom(p, device, address, data, i).result.Ok? || FlashFrom(p, device, address, data, i).result.Err?
    decreases |data| - i
  {
    if i < |data| {
      var c := Exchange(p, device, CommandFrame(WriteMemory));
      var a := Exchange(c.port, device, AddressFrame(ChunkAddress(address, i)));
      var d := Exchange(a.port, device, DataFrame(ChunkAt(data, i)));
      var head := [CommandFrame(WriteMemory), AddressFrame(ChunkAddress(address, i)), DataFrame(ChunkAt(data, i))];
      var tail := Frames(address, data, i + ChunkSize);
      assert Frames(address, data, i) == head + tail;
      if !c.result.Ok? {
        SendsStep(p, c.port, head[..1], head + tail);
      } else if !a.result.Ok? {
        SendsStep(p, a.port, head[..2], head + tail);
      } else if !d.result.Ok? {
        SendsStep(p, d.port, head, head + tail);
      } else {
        assert d.port.sent == p.sent + head;
        FlashFrames(d.port, device, address, data, i + ChunkSize);
        SendsAfter(p, d.port, FlashFrom(d.port, device, address, data, i + ChunkSize).port, head, tail);
      }
    } else {
      SendsStep(p, p, [], []);
    }
  }

  /** From `p` to `q` the port wrote a prefix of `frames`. */
  predicate Sends(p: Port, q: Port, frames: seq<seq<u8>>)
  {
    p.sent <= q.sent && q.sent[|p.sent|..] <= frames
  }

  lemma SendsStep(p: Port, q: Port, w: seq<seq<u8>>, frames: seq<seq<u8>>)
    requires q.sent == p.sent + w && w <= frames
    ensures Sends(p, q, frames)
  {
    assert q.sent[|p.sent|..] == w;
  }

  lemma SendsAfter(p: Port, q: Port, r: Port, head: seq<seq<u8>>, tail: seq<seq<u8>>)
    requires q.sent == p.sent + head && Sends(q, r, tail)
    ensures Sends(p, r, head + tail)
    ensures r.sent == q.sent + tail ==> r.sent == p.sent + (head + tail)
  {
    var w := r.sent[|q.sent|..];
    assert r.sent == q.sent + w;
    assert r.sent[|p.sent|..] == head + w;
  }

  /** The chunks of `data` from offset `i`. */
  function Chunks(data: seq<u8>, i: nat): seq<seq<u8>>
    decreases |data| - i
  {
    if i >= |data| then [] else [ChunkAt(data, i)] + Chunks(data, i + ChunkSize)
  }

  function Flatten(chunks: seq<seq<u8>>): seq<u8>
  {
    if chunks == [] then [] else chunks[0] + Flatten(chunks[1..])
  }

  /** The chunks cover the data, in order, in ceil(n / 256) pieces. */
  lemma {:induction false} ChunksCover(data: seq<u8>, i: nat)
    requires i <= |data|
    ensures Flatten(Chunks(data, i)) == data[i..]
    ensures |Chunks(data, i)| == (|data| - i + ChunkSize - 1) / ChunkSize
    decreases |data| - i
  {
    if i < |data| {
      var j := Min(i + ChunkSize, |data|);
      ChunksCover(data, j);
      assert data[i..] == data[i..j] + data[j..];
      assert [ChunkAt(data, i)] + Chunks(data, i + ChunkSize) == [ChunkAt(data, i)] + Chunks(data, j);
    }
  }

  /** The frames are, chunk by chunk, a command, the chunk's address and the
      chunk's data. */
  function ChunkFrames(address: u32, i: nat, chunks: seq<seq<u8>>): seq<seq<u8>>
    requires forall k :: 0 <= k < |chunks| ==> 1 <= |chunks[k]| <= ChunkSize
    decreases |chunks|
  {
    if chunks == [] then []
    else
      [CommandFrame(WriteMemory), AddressFrame(ChunkAddress(address, i)), DataFrame(chunks[0])]
        + ChunkFrames(address, i + ChunkSize, chunks[1..])
  }

  lemma {:induction false} ChunksSized(data: seq<u8>, i: nat)
    ensures forall k :: 0 <= k < |Chunks(data, i)| ==> 1 <= |Chunks(data, i)[k]| <= ChunkSize
    decreases |data| - i
  {
    if i < |data| {
      ChunksSized(data, i + ChunkSize);
    }
  }

  lemma {:induction false} FramesOfChunks(address: u32, data: seq<u8>, i: nat)
    ensures forall k :: 0 <= k < |Chunks(data, i)| ==> 1 <= |Chunks(data, i)[k]| <= ChunkSize
    ensures Frames(address, data, i) == ChunkFrames(address, i, Chunks(data, i))
    decreases |data| - i
  {
    ChunksSized(data, i);
    if i < |data| {
      FramesOfChunks(address, data, i + ChunkSize);
      assert Chunks(data, i)[1..] == Chunks(data, i + ChunkSize);
    }
  }

  /** 300 bytes go out as two chunks: 256 bytes at the start address, then
      the last 44 at 0x100 past it. */
  lemma ThreeHundredBytes(address: u32, data: seq<u8>)
    requires |data| == 300 && address + 0x100 < 0x1_0000_0000
    ensures Frames(address, data, 0) ==
      [CommandFrame(WriteMemory), AddressFrame(address), DataFrame(data[..256]),
       CommandFrame(WriteMemory), AddressFrame(address + 0x100), DataFrame(data[256..])]
    ensures |data[256..]| == 44
  {
    assert ChunkAddress(address, 0) == address && ChunkAddress(address, 256) == address + 0x100;
    assert ChunkAt(data, 0) == data[..256] && ChunkAt(data, 256) == data[256..];
    assert Frames(address, data, 512) == [];
    assert Frames(address, data, 256) ==
      [CommandFrame(WriteMemory), AddressFrame(address + 0x100), DataFrame(data[256..])];
  }

  // Get ID.

  /** The buffer `read` fills: the bytes read, then the zeros it started with. */
  function Filled(got: seq<u8>, n: nat): (r: seq<u8>)
    requires |got| <= n
    ensures |r| == n && r[..|got|] == got
  {
    got + seq(n - |got|, _ => 0)
  }

  /** `get_chip_id`: the Get ID command and its ACK, then the answer. The
      command is the one thing written, and it never exits or panics. */
  function ChipIdReply(p: Port, device: Device): (r: Reply<seq<u8>>)
    ensures r.port.sent == p.sent + [CommandFrame(GetId)]
    ensures r.result.Ok? || r.result.Err?
  {
    var a := Exchange(p, device, CommandFrame(GetId));
    if !a.result.Ok? then Reply(a.result.PropagateFailure(), a.port)
    else IdBytes(a.port)
  }

  /** The answer to Get ID: the count byte N, then one read of up to N + 2
      bytes into a zeroed buffer; the chip ID reported is its first N + 1. */
  function IdBytes(p: Port): (r: Reply<seq<u8>>)
    ensures r.port.sent == p.sent
    ensures r.result.Ok? || r.result.Err?
    ensures r.result.Ok? ==> p.rx != [] && |r.result.value| == p.rx[0] as int + 1
  {
    var n := p.Read(1);
    if !n.result.Ok? then Reply(n.result.PropagateFailure(), n.port)
    else
      var len := n.result.value[0] as int + 1;
      var d := n.port.Read(len + 1);
      if !d.result.Ok? then Reply(d.result.PropagateFailure(), d.port)
      else Reply(Ok(Filled(d.result.value, len + 1)[..len]), d.port)
  }

  /** A read finds the bytes waiting, as many as the buffer holds. */
  lemma ReadPrefix(p: Port, max: nat, got: seq<u8>, rest: seq<u8>)
    requires max >= 1 && p.rx == got + rest
    requires |got| == max || (rest == [] && 1 <= |got| <= max)
    ensures p.Read(max).result == Ok(got) && p.Read(max).port.rx == rest
  {
    assert p.rx[..|got|] == got;
  }

  /** A count byte N followed by `body` reports `body`'s first N + 1 bytes,
      padded with zeros when fewer than N + 2 came. */
  lemma IdBytesAnswer(p: Port, n: u8, body: seq<u8>, rest: seq<u8>)
    requires p.rx == [n] + body + rest
    requires |body| == n as int + 2 || (rest == [] && 1 <= |body| <= n as int + 2)
    ensures IdBytes(p).result == Ok(Filled(body, n as int + 2)[..n as int + 1])
    ensures IdBytes(p).port.rx == rest
  {
    ReadPrefix(p, 1, [n], body + rest);
    ReadPrefix(p.Read(1).port, n as int + 2, body, rest);
  }

  /** A device that answers ACK, N and then `body` gets `body`'s first N + 1
      bytes reported. */
  lemma ChipIdAnswer(p: Port, device: Device, n: u8, body: seq<u8>, rest: seq<u8>)
    requires p.Write(device, CommandFrame(GetId)).rx == [Ack, n] + body + rest
    requires |body| == n as int + 2 || (rest == [] && 1 <= |body| <= n as int + 2)
    ensures ChipIdReply(p, device).result == Ok(Filled(body, n as int + 2)[..n as int + 1])
    ensures ChipIdReply(p, device).port.rx == rest
  {
    var q := p.Write(device, CommandFrame(GetId));
    assert q.rx[1..] == [n] + body + rest;
    IdBytesAnswer(ReadAck(q).port, n, body, rest);
  }

  /** The answer AN3155 prescribes (ACK, N, the N + 1 ID bytes, ACK) reports
      exactly the ID bytes and consumes the whole answer. */
  lemma ChipIdOfAnswer(p: Port, device: Device, pid: seq<u8>, rest: seq<u8>)
    requires 1 <= |pid| <= 0x100
    requires p.Write(device, CommandFrame(GetId)).rx == [Ack, (|pid| - 1) as u8] + (pid + [Ack]) + rest
    ensures ChipIdReply(p, device).result == Ok(pid)
    ensures ChipIdReply(p, device).port.rx == rest
  {
    var n := (|pid| - 1) as u8;
    ChipIdAnswer(p, device, n, pid + [Ack], rest);
    assert Filled(pid + [Ack], n as int + 2) == pid + [Ack];
    assert (pid + [Ack])[..n as int + 1] == pid;
  }

  /** The Get ID retries after the handshake: on a failure other than the
      last, one extra sync byte is sent and the port cleared. */
  function IdAttempts(p: Port, device: Device, i: nat): Reply<()>
    requires i < GetIdRetries
    decreases GetIdRetries - i
  {
    var r := ChipIdReply(p, device);
    if r.result.Ok? then Reply(Ok(()), r.port)
    else if i == GetIdRetries - 1 then Reply(Exit(ExitFailure), r.port)
    else IdAttempts(r.port.Write(device, [Sync]).Clear(), device, i + 1)
  }

  /** Every Get ID command of attempt `i` onwards, with the sync bytes
      between them. */
  function RetryFrames(i: nat): seq<seq<u8>>
    requires i < GetIdRetries
    decreases GetIdRetries - i
  {
    if i == GetIdRetries - 1 then [CommandFrame(GetId)]
    else [CommandFrame(GetId), [Sync]] + RetryFrames(i + 1)
  }

  /** The retries end in success or in exit(1). */
  lemma {:induction false} IdAttemptsOutcome(p: Port, device: Device, i: nat)
    requires i < GetIdRetries
    ensures IdAttempts(p, device, i).result.Ok? || IdAttempts(p, device, i).result == Exit(ExitFailure)
    decreases GetIdRetries - i
  {
    var r := ChipIdReply(p, device);
    if !r.result.Ok? && i < GetIdRetries - 1 {
      IdAttemptsOutcome(r.port.Write(device, [Sync]).Clear(), device, i + 1);
    }
  }

  /** The retries write a prefix of the retry frames, and all of them when
      they give up. */
  lemma {:induction false} IdAttemptsFrames(p: Port, device: Device, i: nat)
    requires i < GetIdRetries
    ensures Sends(p, IdAttempts(p, device, i).port, RetryFrames(i))
    ensures IdAttempts(p, device, i).result.Exit? ==> IdAttempts(p, device, i).port.sent == p.sent + RetryFrames(i)
    decreases GetIdRetries - i
  {
    var r := ChipIdReply(p, device);
    if r.result.Ok? || i == GetIdRetries - 1 {
      SendsStep(p, r.port, [CommandFrame(GetId)], RetryFrames(i));
    } else {
      var q := r.port.Write(device, [Sync]).Clear();
      var head := [CommandFrame(GetId), [Sync]];
      assert q.sent == p.sent + head;
      IdAttemptsFrames(q, device, i + 1);
      SendsAfter(p, q, IdAttempts(q, device, i + 1).port, head, RetryFrames(i + 1));
    }
  }

  lemma RetryFramesCount()
    ensures |RetryFrames(0)| == 2 * GetIdRetries - 1
  {
  }

  // The handshake.

  /** The circuits that put the chip into its bootloader: one driving BOOT0
      and reset through an XOR of RTS and DTR, and one wired straight. */
  datatype Circuit = DefaultReset | DirectConnect

  function CircuitOf(before: string): Option<Circuit>
  {
    if before == "default_reset" then Some(DefaultReset)
    else if before == "direct_connect" then Some(DirectConnect)
    else None
  }

  /** The RTS and DTR sequence of a circuit. */
  function Drive(p: Port, c: Circuit): (r: Port)
    ensures r.sent == p.sent && r.rx == p.rx
  {
    match c
    case DefaultReset => DefaultResetLines(p)
    case DirectConnect => DirectConnectLines(p)
  }

  function DefaultResetLines(p: Port): (r: Port)
    ensures r.sent == p.sent && r.rx == p.rx
  {
    p.SetRts(false).SetDtr(false).SetDtr(true).SetRts(false).SetRts(true)
      .SetDtr(false).SetRts(false).SetDtr(true).SetDtr(false)
  }

  function DirectConnectLines(p: Port): (r: Port)
    ensures r.sent == p.sent && r.rx == p.rx
  {
    p.SetDtr(true).SetRts(false).SetRts(true).SetDtr(false).SetRts(false)
      .SetDtr(true).SetDtr(false)
  }

  /** Driving the lines logs exactly the circuit's signal changes. */
  lemma DriveSignals(p: Port, c: Circuit)
    ensures p.trace <= Drive(p, c).trace
    ensures c == DefaultReset ==> Since(p, Drive(p, c)) == [Rts(false), Dtr(false), Dtr(true),
      Rts(false), Rts(true), Dtr(false), Rts(false), Dtr(true), Dtr(false)]
    ensures c == DirectConnect ==> Since(p, Drive(p, c)) == [Dtr(true), Rts(false), Rts(true),
      Dtr(false), Rts(false), Dtr(true), Dtr(false)]
  {
  }

  /** The handshake from attempt `i` of `n`: drive the lines, send the sync
      byte and wait for ACK; exit(1) when the last attempt fails, and panic on
      an unknown circuit. */
  function SyncAttempts(p: Port, device: Device, before: string, i: nat, n: nat): Reply<()>
    decreases n - i
  {
    if i >= n then Reply(Ok(()), p)
    else match CircuitOf(before)
      case None => Reply(Panic, p)
      case Some(c) =>
        var a := Exchange(Drive(p, c), device, [Sync]);
        if a.result.Ok? then a
        else if i == n - 1 then Reply(Exit(ExitFailure), a.port)
        else SyncAttempts(a.port, device, before, i + 1, n)
  }

  /** `k` sync bytes. */
  function SyncFrames(k: nat): (r: seq<seq<u8>>)
    ensures |r| == k && forall j :: 0 <= j < k ==> r[j] == [Sync]
  {
    seq(k, _ => [Sync])
  }

  /** The handshake succeeds, panics or exits with status 1, and never
      returns an error. */
  lemma {:induction false} SyncAttemptsOutcome(p: Port, device: Device, before: string, i: nat, n: nat)
    ensures SyncAttempts(p, device, before, i, n).result in {Ok(()), Exit(ExitFailure), Panic}
    decreases n - i
  {
    if i < n - 1 && CircuitOf(before).Some? {
      var a := Exchange(Drive(p, CircuitOf(before).value), device, [Sync]);
      if !a.result.Ok? {
        SyncAttemptsOutcome(a.port, device, before, i + 1, n);
      }
    }
  }

  /** The handshake writes nothing but sync bytes, at most one per remaining
      attempt and exactly one per attempt when it gives up. */
  lemma {:induction false} SyncAttemptsFrames(p: Port, device: Device, before: string, i: nat, n: nat)
    requires i <= n
    ensures Sends(p, SyncAttempts(p, device, before, i, n).port, SyncFrames(n - i))
    ensures SyncAttempts(p, device, before, i, n).result.Exit? ==>
      SyncAttempts(p, device, before, i, n).port.sent == p.sent + SyncFrames(n - i)
    decreases n - i
  {
    var r := SyncAttempts(p, device, before, i, n);
    if i < n && CircuitOf(before).Some? {
      var c := CircuitOf(before).value;
      var a := Exchange(Drive(p, c), device, [Sync]);
      assert SyncFrames(n - i) == [[Sync]] + SyncFrames(n - i - 1);
      if a.result.Ok? || i == n - 1 {
        SendsStep(p, a.port, [[Sync]], SyncFrames(n - i));
      } else {
        SyncAttemptsFrames(a.port, device, before, i + 1, n);
        SendsAfter(p, a.port, r.port, [[Sync]], SyncFrames(n - i - 1));
      }
    } else {
      SendsStep(p, p, [], SyncFrames(n - i));
    }
  }

  /** An unknown circuit panics at the first attempt, before anything is
      written or driven; with no attempts due it is never looked at. */
  lemma SyncAttemptsPanic(p: Port, device: Device, before: string, i: nat, n: nat)
    ensures SyncAttempts(p, device, before, i, n).result == Panic <==> i < n && CircuitOf(before).None?
    ensures SyncAttempts(p, device, before, i, n).result == Panic ==> SyncAttempts(p, device, before, i, n).port == p
    decreases n - i
  {
    if i < n && CircuitOf(before).Some? && i < n - 1 {
      var a := Exchange(Drive(p, CircuitOf(before).value), device, [Sync]);
      if !a.result.Ok? {
        SyncAttemptsPanic(a.port, device, before, i + 1, n);
      }
    }
  }

  /** `reset_bootloader`: the handshake, then the Get ID retries. */
  function EnterBootloader(p: Port, device: Device, before: string, attempts: u32): Reply<()>
  {
    var s := SyncAttempts(p, device, before, 0, attempts);
    if !s.result.Ok? then s else IdAttempts(s.port, device, 0)
  }

  /** With no connect attempts the handshake is skipped, whatever circuit is
      named, and the flasher goes straight to Get ID. */
  lemma NoAttemptsSkipsHandshake(p: Port, device: Device, before: string)
    ensures EnterBootloader(p, device, before, 0) == IdAttempts(p, device, 0)
  {
  }

  /** Entering the bootloader succeeds, panics or exits with status 1; it
      never returns an error. */
  lemma EnterBootloaderOutcome(p: Port, device: Device, before: string, attempts: u32)
    ensures EnterBootloader(p, device, before, attempts).result in {Ok(()), Exit(ExitFailure), Panic}
  {
    SyncAttemptsOutcome(p, device, before, 0, attempts);
    var s := SyncAttempts(p, device, before, 0, attempts);
    if s.result.Ok? {
      IdAttemptsOutcome(s.port, device, 0);
    }
  }

  /** It panics exactly when a handshake is due and the circuit is unknown. */
  lemma EnterBootloaderPanics(p: Port, device: Device, before: string, attempts: u32)
    ensures EnterBootloader(p, device, before, attempts).result == Panic <==> attempts > 0 && CircuitOf(before).None?
  {
    SyncAttemptsPanic(p, device, before, 0, attempts);
    var s := SyncAttempts(p, device, before, 0, attempts);
    if s.result.Ok? {
      IdAttemptsOutcome(s.port, device, 0);
    }
  }

  // ---------------------------------------------------------------------------
  // The peripheral as written.

  /** The frame builders of `write_flash`, as its loops compute them. */
  method DataBuffer(data: seq<u8>, i: nat) returns (frame: seq<u8>)
    requires i < |data|
    ensures frame == DataFrame(ChunkAt(data, i))
  {
    var dataLen := 256;
    if i + 256 > |data| {
      dataLen := |data| - i;
    }
    dataLen := dataLen + 2;
    var buf := new u8[dataLen](_ => 0);
    buf[0] := (dataLen - 3) as u8;
    buf[dataLen - 1] := buf[0];
    ghost var chunk := data[i..i + dataLen - 2];
    assert chunk == ChunkAt(data, i);
    ghost var acc := [buf[0]];
    XorAllSingle(buf[0]);
    for j := 0 to dataLen - 2
      invariant |acc| == j + 1 && acc[0] == (dataLen - 3) as u8
      invariant forall k :: 1 <= k <= j ==> acc[k] == chunk[k - 1]
      invariant forall k :: 0 <= k <= j ==> buf[k] == acc[k]
      invariant buf[dataLen - 1] == XorAll(acc)
    {
      buf[j + 1] := data[i + j];
      assert buf[j + 1] == chunk[j];
      XorAllSnoc(acc, buf[j + 1]);
      buf[dataLen - 1] := Xor8(buf[dataLen - 1], buf[j + 1]);
      acc := acc + [buf[j + 1]];
    }
    frame := buf[..];
    FrameOf(frame, acc, chunk);
  }

  lemma FrameOf(frame: seq<u8>, acc: seq<u8>, chunk: seq<u8>)
    requires 1 <= |chunk| <= ChunkSize && |acc| == |chunk| + 1 && |frame| == |chunk| + 2
    requires acc[0] == (|chunk| - 1) as u8
    requires forall k :: 1 <= k < |acc| ==> acc[k] == chunk[k - 1]
    requires forall k :: 0 <= k < |acc| ==> frame[k] == acc[k]
    requires frame[|acc|] == XorAll(acc)
    ensures frame == DataFrame(chunk)
  {
    assert acc == [(|chunk| - 1) as u8] + chunk;
    assert frame == acc + [XorAll(acc)];
  }

  lemma XorAllSnoc(s: seq<u8>, x: u8)
    ensures XorAll(s + [x]) == Xor8(XorAll(s), x)
  {
    assert (s + [x])[..|s|] == s;
  }

  method AddressBuffer(address: u32, i: nat) returns (frame: seq<u8>)
    ensures frame == AddressFrame(ChunkAddress(address, i))
  {
    var a := ChunkAddress(address, i);
    var buf := new u8[5](_ => 0);
    buf[0] := a / 0x100_0000;
    buf[1] := (a / 0x1_0000) % 0x100;
    buf[2] := (a / 0x100) % 0x100;
    buf[3] := a % 0x100;
    buf[4] := Xor8(Xor8(Xor8(buf[0], buf[1]), buf[2]), buf[3]);
    ghost var b := BigEndian(a);
    assert buf[..4] == b;
    XorFour(b);
    frame := buf[..];
    assert frame == buf[..4] + [buf[4]];
  }

  lemma XorFour(b: seq<u8>)
    requires |b| == 4
    ensures XorAll(b) == Xor8(Xor8(Xor8(b[0], b[1]), b[2]), b[3])
  {
    assert XorAll(b) == Xor8(XorAll(b[..3]), b[3]);
    assert b[..3][..2] == b[..2];
    assert XorAll(b[..3]) == Xor8(XorAll(b[..2]), b[2]);
    assert b[..2][..1] == [b[0]];
    assert XorAll(b[..2]) == Xor8(XorAll([b[0]]), b[1]);
    XorAllSingle(b[0]);
  }

  class GeneralUart {
    const config: AirIsp.Config
    const handle: Link

    /** `new` once the port is open; opening it is not modelled. */
    constructor(config: AirIsp.Config, handle: Link)
      ensures this.config == config && this.handle == handle
    {
      this.config := config;
      this.handle := handle;
    }

    method GetAck() returns (r: Outcome<()>)
      modifies handle
      ensures Reply(r, handle.State()) == ReadAck(old(handle.State()))
    {
      var b := handle.Read(1);
      if !b.Ok? {
        return b.PropagateFailure();
      }
      if b.value[0] == Ack {
        return Ok(());
      }
      handle.Clear();
      return Err(AckError);
    }

    /** One frame and its acknowledgement. */
    method Send(frame: seq<u8>) returns (r: Outcome<()>)
      modifies handle
      ensures Reply(r, handle.State()) == Exchange(old(handle.State()), handle.device, frame)
    {
      handle.Write(frame);
      r := GetAck();
    }

    /** `write_flash`; progress printing is not modelled. */
    method WriteFlash(address: u32, data: seq<u8>, progress: AirIsp.Progress) returns (r: Outcome<()>)
      modifies handle
      ensures Reply(r, handle.State()) == FlashFrom(old(handle.State()), handle.device, address, data, 0)
    {
      ghost var p0 := handle.State();
      var cmd := CommandFrame(WriteMemory);
      var i := 0;
      while i < |data|
        invariant FlashFrom(p0, handle.device, address, data, 0) == FlashFrom(handle.State(), handle.device, address, data, i)
        decreases |data| - i
      {
        var dataBuf := DataBuffer(data, i);
        var ack := Send(cmd);
        if !ack.Ok? {
          return ack;
        }
        var addressBuf := AddressBuffer(address, i);
        ack := Send(addressBuf);
        if !ack.Ok? {
          return ack;
        }
        ack := Send(dataBuf);
        if !ack.Ok? {
          return ack;
        }
        i := i + 256;
      }
      return Ok(());
    }

    /** `get_chip_id`; the ID it prints is returned. */
    method GetChipId() returns (r: Outcome<seq<u8>>)
      modifies handle
      ensures Reply(r, handle.State()) == ChipIdReply(old(handle.State()), handle.device)
    {
      var ack := Send(CommandFrame(GetId));
      if !ack.Ok? {
        return ack.PropagateFailure();
      }
      r := ReadIdBytes();
    }

    /** The reads of `get_chip_id` after the ACK. */
    method ReadIdBytes() returns (r: Outcome<seq<u8>>)
      modifies handle
      ensures Reply(r, handle.State()) == IdBytes(old(handle.State()))
    {
      var count := handle.Read(1);
      if !count.Ok? {
        return count.PropagateFailure();
      }
      var dataLen := count.value[0] as int + 1;
      var dataBuf := new u8[dataLen + 1](_ => 0);
      var got := handle.Read(dataLen + 1);
      if !got.Ok? {
        return got.PropagateFailure();
      }
      forall k | 0 <= k < |got.value| {
        dataBuf[k] := got.value[k];
      }
      assert dataBuf[..] == Filled(got.value, dataLen + 1);
      return Ok(dataBuf[..dataLen]);
    }

    /** The handshake part of `reset_bootloader`. */
    method Handshake() returns (r: Outcome<()>)
      modifies handle
      ensures Reply(r, handle.State()) ==
        SyncAttempts(old(handle.State()), handle.device, config.before, 0, config.connectAttempts)
    {
      ghost var p0 := handle.State();
      var n := config.connectAttempts;
      var i := 0;
      while i < n
        invariant i <= n
        invariant SyncAttempts(p0, handle.device, config.before, 0, n) ==
          SyncAttempts(handle.State(), handle.device, config.before, i, n)
        decreases n - i
      {
        if config.before == "default_reset" {
          PulseDefaultReset();
        } else if config.before == "direct_connect" {
          PulseDirectConnect();
        } else {
          return Panic;
        }
        var ack := Send([Sync]);
        if ack.Ok? {
          return Ok(());
        }
        if i == n - 1 {
          return Exit(ExitFailure);
        }
        i := i + 1;
      }
      return Ok(());
    }

    /** The line changes for the XOR circuit; the pauses between them are not
        modelled. */
    method PulseDefaultReset()
      modifies handle
      ensures handle.State() == DefaultResetLines(old(handle.State()))
    {
      handle.WriteRequestToSend(false);
      handle.WriteDataTerminalReady(false);
      handle.WriteDataTerminalReady(true);
      handle.WriteRequestToSend(false);
      handle.WriteRequestToSend(true);
      handle.WriteDataTerminalReady(false);
      handle.WriteRequestToSend(false);
      handle.WriteDataTerminalReady(true);
      handle.WriteDataTerminalReady(false);
    }

    /** The line changes for the direct circuit. */
    method PulseDirectConnect()
      modifies handle
      ensures handle.State() == DirectConnectLines(old(handle.State()))
    {
      handle.WriteDataTerminalReady(true);
      handle.WriteRequestToSend(false);
      handle.WriteRequestToSend(true);
      handle.WriteDataTerminalReady(false);
      handle.WriteRequestToSend(false);
      handle.WriteDataTerminalReady(true);
      handle.WriteDataTerminalReady(false);
    }

    /** The Get ID part of `reset_bootloader`. */
    method ReadChipId() returns (r: Outcome<()>)
      modifies handle
      ensures Reply(r, handle.State()) == IdAttempts(old(handle.State()), handle.device, 0)
    {
      ghost var p0 := handle.State();
      var retry := 5;
      var i := 0;
      while i < retry
        invariant i < retry
        invariant IdAttempts(p0, handle.device, 0) == IdAttempts(handle.State(), handle.device, i)
        decreases retry - i
      {
        var id := GetChipId();
        if id.Ok? {
          return Ok(());
        }
        if i == retry - 1 {
          return Exit(ExitFailure);
        }
        handle.Write([Sync]);
        handle.Clear();
        i := i + 1;
      }
      assert false;
    }

    /** `reset_bootloader`: the handshake, then Get ID. */
    method ResetBootloader() returns (r: Outcome<()>)
      modifies handle
      ensures Reply(r, handle.State()) ==
        EnterBootloader(old(handle.State()), handle.device, config.before, config.connectAttempts)
    {
      r := Handshake();
      if !r.Ok? {
        return r;
      }
      r := ReadChipId();
    }
  }
}
