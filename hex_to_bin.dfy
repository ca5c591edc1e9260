/** The Intel-HEX decoder of `src/hex_to_bin.rs`: a text of records is turned
    into a list of contiguous segments (`Bin`s), one per extended linear
    address record (type 04), each with its own 32-bit base address.  Gaps
    inside a segment are filled with 0xFF, data before the first 04 record
    is ignored, and an end-of-file record (type 01) stops the decoder. */
module HexToBin {
  import opened Base

  /** The byte written into the holes between two data records. */
  const FillByte: u8 := 0xFF

  /** One contiguous image: the address of its first byte and its bytes. */
  datatype Bin = Bin(address: u32, data: seq<u8>)

  // ---------------------------------------------------------------------------
  // Splitting the text into lines and cleaning a line.

  /** Index of the first '\n' in `s`, or `|s|` when there is none. */
  function NewlineIndex(s: string): (i: nat)
    ensures i <= |s|
    ensures i < |s| ==> s[i] == '\n'
    ensures forall j :: 0 <= j < i ==> s[j] != '\n'
  {
    if s == [] || s[0] == '\n' then 0 else 1 + NewlineIndex(s[1..])
  }

  /** A line ending "\r\n" loses its '\r' with its '\n'. */
  function DropCarriageReturn(s: string): string
  {
    if s != [] && s[|s| - 1] == '\r' then s[..|s| - 1] else s
  }

  /** `str::lines`: pieces between '\n's, without a trailing empty piece. */
  function Lines(text: string): (r: seq<string>)
    ensures forall k :: 0 <= k < |r| ==> '\n' !in r[k]
    decreases |text|
  {
    if text == [] then []
    else
      var i := NewlineIndex(text);
      if i == |text| then [text]
      else
        assert forall j :: 0 <= j < i ==> text[..i][j] != '\n';
        [DropCarriageReturn(text[..i])] + Lines(text[i + 1..])
  }

  /** The line with every ':' and every ' ' removed. */
  function Strip(line: string): (r: string)
    ensures ':' !in r && ' ' !in r
    ensures |r| <= |line|
  {
    if line == [] then []
    else (if line[0] == ':' || line[0] == ' ' then [] else [line[0]]) + Strip(line[1..])
  }

  // ---------------------------------------------------------------------------
  // Fields of a record.  Slicing past the end of the line is a panic; a
  // slice that is not a hex numeral is the parse error `?` propagates.

  datatype Header = Header(dataLength: nat, offsetAddress: nat, recordType: nat)

  function HexField(hl: string, lo: nat, hi: nat, max: nat): (r: Outcome<nat>)
    requires lo <= hi
    ensures r.Ok? ==> r.value <= max
    ensures r.Panic? <==> |hl| < hi
  {
    if |hl| < hi then Panic
    else
      var v := FromStrRadix(hl[lo..hi], 16, max);
      if v.Some? then Ok(v.value) else Err(InvalidDigit)
  }

  /** Byte count, offset and record type, each read as a `usize`. */
  function ParseHeader(hl: string): Outcome<Header>
  {
    var len :- HexField(hl, 0, 2, UsizeMax);
    var offset :- HexField(hl, 2, 6, UsizeMax);
    var recordType :- HexField(hl, 6, 8, UsizeMax);
    Ok(Header(len, offset, recordType))
  }

  /** The `i`-th data byte of a record. */
  function DataByte(hl: string, i: nat): Outcome<u8>
  {
    var b :- HexField(hl, 8 + 2 * i, 10 + 2 * i, U8Max);
    Ok(b)
  }

  /** The first `n` data bytes; the first failing byte decides the error. */
  function DataBytes(hl: string, n: nat): (r: Outcome<seq<u8>>)
    ensures r.Ok? ==> |r.value| == n
  {
    if n == 0 then Ok([])
    else
      var init :- DataBytes(hl, n - 1);
      var b :- DataByte(hl, n - 1);
      Ok(init + [b])
  }

  /** The base address of a segment from its "0x....0000" text. */
  function ParseAddress(digits: string): (r: Outcome<u32>)
  {
    var v := FromStrRadix(digits, 16, U32Max);
    if v.Some? then Ok(v.value) else Err(InvalidDigit)
  }

  /** `Vec::resize(n, fill)`: truncates, or pads with `fill`. */
  function Resize(data: seq<u8>, n: nat, fill: u8): (r: seq<u8>)
    ensures |r| == n
    ensures forall i :: 0 <= i < n ==> r[i] == if i < |data| then data[i] else fill
  {
    if n <= |data| then data[..n] else data + seq(n - |data|, _ => fill)
  }

  // ---------------------------------------------------------------------------
  // The decoder as a state machine over lines.

  /** The decoder's locals: the segment text ("-1" until the first 04
      record), whether no 04 record was seen, the next offset, the segment
      being filled and the finished segments. */
  datatype State = State(startAddress: string, isFirst: bool, currentAddress: nat,
                         bin: Bin, vecBin: seq<Bin>)

  const Start: State := State("-1", true, 0, Bin(0, []), [])

  datatype Step = Continue(state: State) | Stop(state: State)

  /** What one line does to the state. */
  function StepLine(s: State, line: string): Outcome<Step>
  {
    var hl := Strip(line);
    var h :- ParseHeader(hl);
    RecordStep(s, hl, h)
  }

  /** What a record with header `h` does, dispatched on its type. */
  function RecordStep(s: State, hl: string, h: Header): Outcome<Step>
  {
    if h.recordType == 0 then
      if s.startAddress != "-1" then DataStep(s, hl, h) else Ok(Continue(s))
    else if h.recordType == 1 then Ok(Stop(s))
    else if h.recordType == 4 then SegmentStep(s, hl)
    else Ok(Continue(s))
  }

  /** A data record inside a segment: pad up to its offset, then append its bytes. */
  function DataStep(s: State, hl: string, h: Header): Outcome<Step>
  {
    var data := if s.currentAddress < h.offsetAddress
                then Resize(s.bin.data, h.offsetAddress, FillByte) else s.bin.data;
    var bytes :- DataBytes(hl, h.dataLength);
    Ok(Continue(s.(currentAddress := s.currentAddress + h.dataLength,
                   bin := s.bin.(data := data + bytes))))
  }

  /** An extended linear address record: close the open segment, open an empty one. */
  function SegmentStep(s: State, hl: string): Outcome<Step>
  {
    var s1 := if s.isFirst then s.(isFirst := false) else s.(vecBin := s.vecBin + [s.bin]);
    if |hl| < 12 then Panic
    else
      var start := "0x" + hl[8..12] + "0000";
      var address :- ParseAddress(start[2..]);
      Ok(Continue(s1.(startAddress := start, currentAddress := 0, bin := Bin(address, []))))
  }

  function Finish(s: State): seq<Bin>
  {
    s.vecBin + [s.bin]
  }

  function DecodeLines(s: State, lines: seq<string>): Outcome<seq<Bin>>
    decreases |lines|
  {
    if lines == [] then Ok(Finish(s))
    else
      var step :- StepLine(s, lines[0]);
      if step.Stop? then Ok(Finish(step.state)) else DecodeLines(step.state, lines[1..])
  }

  /** `hex_to_bin`: the segments of a whole file. */
  function Decode(hex: string): Outcome<seq<Bin>>
  {
    DecodeLines(Start, Lines(hex))
  }

  // ---------------------------------------------------------------------------
  // The decoder as written: one pass over the lines updating its locals.

  method HexToBinary(hex: string) returns (r: Outcome<seq<Bin>>)
    ensures r == Decode(hex)
  {
    var vecBin: seq<Bin> := [];
    var startAddress := "-1";
    var currentAddress: nat := 0;
    var bin := Bin(0, []);
    var isFirst := true;
    var lines := Lines(hex);
    var k := 0;
    while k < |lines|
      invariant 0 <= k <= |lines|
      invariant Decode(hex) == DecodeLines(State(startAddress, isFirst, currentAddress, bin, vecBin), lines[k..])
    {
      DecodeLinesAt(State(startAddress, isFirst, currentAddress, bin, vecBin), lines, k);
      var step := DecodeRecord(State(startAddress, isFirst, currentAddress, bin, vecBin), lines[k]);
      if step.IsFailure() { return step.PropagateFailure(); }
      startAddress, isFirst, currentAddress, bin, vecBin :=
        step.value.state.startAddress, step.value.state.isFirst, step.value.state.currentAddress,
        step.value.state.bin, step.value.state.vecBin;
      if step.value.Stop? { break; }
      k := k + 1;
    }
    vecBin := vecBin + [bin];
    r := Ok(vecBin);
  }

  /** The body of the decoder's loop: one line against the decoder's locals. */
  method DecodeRecord(s: State, line: string) returns (r: Outcome<Step>)
    ensures r == StepLine(s, line)
  {
    var hexLine := Strip(line);
    var f := HexField(hexLine, 0, 2, UsizeMax);
    if f.IsFailure() { return f.PropagateFailure(); }
    var dataLength := f.value;
    f := HexField(hexLine, 2, 6, UsizeMax);
    if f.IsFailure() { return f.PropagateFailure(); }
    var offsetAddress := f.value;
    f := HexField(hexLine, 6, 8, UsizeMax);
    if f.IsFailure() { return f.PropagateFailure(); }
    var recordType := f.value;
    var h := Header(dataLength, offsetAddress, recordType);
    assert ParseHeader(hexLine) == Ok(h);
    if recordType == 0 {
      if s.startAddress != "-1" {
        r := AppendData(s, hexLine, h);
      } else {
        r := Ok(Continue(s));
      }
    } else if recordType == 1 {
      r := Ok(Stop(s));
    } else if recordType == 4 {
      r := StartSegment(s, hexLine);
    } else {
      r := Ok(Continue(s));
    }
  }

  /** A data record: resize up to the offset, then push the bytes one by one. */
  method AppendData(s: State, hexLine: string, h: Header) returns (r: Outcome<Step>)
    ensures r == DataStep(s, hexLine, h)
  {
    var currentAddress, bin := s.currentAddress, s.bin;
    if currentAddress < h.offsetAddress {
      bin := bin.(data := Resize(bin.data, h.offsetAddress, FillByte));
    }
    ghost var before := bin.data;
    var i := 0;
    while i < h.dataLength
      invariant 0 <= i <= h.dataLength
      invariant DataBytes(hexLine, i).Ok?
      invariant bin == Bin(s.bin.address, before + DataBytes(hexLine, i).value)
      invariant currentAddress == s.currentAddress + i
    {
      var b := DataByte(hexLine, i);
      if b.IsFailure() {
        DataBytesFailure(hexLine, i, h.dataLength);
        return b.PropagateFailure();
      }
      assert DataBytes(hexLine, i + 1) == Ok(DataBytes(hexLine, i).value + [b.value]);
      bin := bin.(data := bin.data + [b.value]);
      currentAddress := currentAddress + 1;
      i := i + 1;
    }
    r := Ok(Continue(s.(currentAddress := currentAddress, bin := bin)));
  }

  /** An extended linear address record: push the open segment unless it is the first, then
      start an empty one at the record's address. */
  method StartSegment(s: State, hexLine: string) returns (r: Outcome<Step>)
    ensures r == SegmentStep(s, hexLine)
  {
    var isFirst, vecBin, bin := s.isFirst, s.vecBin, s.bin;
    if isFirst {
      isFirst := false;
    } else {
      vecBin := vecBin + [bin];
    }
    if |hexLine| < 12 { return Panic; }
    var highAddress := hexLine[8..12];
    var startAddress := "0x" + highAddress + "0000";
    var currentAddress := 0;
    var a := ParseAddress(startAddress[2..]);
    if a.IsFailure() { return a.PropagateFailure(); }
    bin := bin.(address := a.value);
    bin := bin.(data := []);
    r := Ok(Continue(State(startAddress, isFirst, currentAddress, bin, vecBin)));
  }

  lemma DataRecordStep(s: State, line: string, h: Header)
    requires ParseHeader(Strip(line)) == Ok(h) && h.recordType == 0 && s.startAddress != "-1"
    requires DataBytes(Strip(line), h.dataLength).Ok?
    ensures StepLine(s, line) ==
            Ok(Continue(s.(currentAddress := s.currentAddress + h.dataLength,
                           bin := s.bin.(data := (if s.currentAddress < h.offsetAddress
                                                  then Resize(s.bin.data, h.offsetAddress, FillByte) else s.bin.data)
                                                 + DataBytes(Strip(line), h.dataLength).value))))
  {
    assert StepLine(s, line) == DataStep(s, Strip(line), h);
    DataStepValue(s, Strip(line), h);
  }

  lemma DataStepValue(s: State, hl: string, h: Header)
    requires DataBytes(hl, h.dataLength).Ok?
    ensures DataStep(s, hl, h) ==
            Ok(Continue(s.(currentAddress := s.currentAddress + h.dataLength,
                           bin := s.bin.(data := (if s.currentAddress < h.offsetAddress
                                                  then Resize(s.bin.data, h.offsetAddress, FillByte) else s.bin.data)
                                                 + DataBytes(hl, h.dataLength).value))))
  {
  }


  /** What `StepLine` does with an extended linear address record whose address parses. */
  lemma ExtendedStep(s: State, line: string, h: Header, address: nat)
    requires ParseHeader(Strip(line)) == Ok(h) && h.recordType == 4 && |Strip(line)| >= 12
    requires ParseAddress(Strip(line)[8..12] + "0000") == Ok(address)
    ensures StepLine(s, line) ==
            Ok(Continue(State("0x" + Strip(line)[8..12] + "0000", false, 0, Bin(address, []), Closed(s))))
  {
    var hl := Strip(line);
    assert ("0x" + hl[8..12] + "0000")[2..] == hl[8..12] + "0000";
  }

  /** Decoding the lines from `k` on is one step followed by the rest. */
  lemma DecodeLinesAt(s: State, lines: seq<string>, k: nat)
    requires k < |lines|
    ensures DecodeLines(s, lines[k..]) ==
            match StepLine(s, lines[k])
            case Ok(step) => if step.Stop? then Ok(Finish(step.state)) else DecodeLines(step.state, lines[k + 1..])
            case Err(e) => Err(e)
            case Exit(x) => Exit(x)
            case Panic => Panic
  {
    assert lines[k..][0] == lines[k] && lines[k..][1..] == lines[k + 1..];
  }

  /** Once byte `i` fails, every longer prefix fails the same way. */
  lemma {:induction false} DataBytesFailure(hl: string, i: nat, n: nat)
    requires i < n && DataBytes(hl, i).Ok? && DataByte(hl, i).IsFailure()
    ensures DataBytes(hl, n) == DataByte(hl, i).PropagateFailure()
    decreases n
  {
    if n > i + 1 {
      DataBytesFailure(hl, i, n - 1);
    }
  }

  // ---------------------------------------------------------------------------
  // Properties of the decoder.

  /** What a decoding state keeps: the segment text is "-1" exactly while no
      04 record was seen, and then nothing has been collected; the next
      offset never runs past the collected data. */
  ghost predicate Inv(s: State)
  {
    (s.startAddress == "-1") == s.isFirst
    && (s.isFirst ==> s.bin == Bin(0, []) && s.vecBin == [])
    && s.currentAddress <= |s.bin.data|
  }

  lemma StartInv()
    ensures Inv(Start)
  {
  }

  lemma StepPreservesInv(s: State, line: string)
    requires Inv(s) && StepLine(s, line).Ok?
    ensures Inv(StepLine(s, line).value.state)
  {
    var hl := Strip(line);
    var h := ParseHeader(hl).value;
    if h.recordType == 4 {
      var start := "0x" + hl[8..12] + "0000";
      assert start[0] == '0';
    }
  }

  /** The record type of a line whose header parses. */
  function RecordType(line: string): Option<nat>
  {
    var h := ParseHeader(Strip(line));
    if h.Ok? then Some(h.value.recordType) else None
  }

  /** The number of 04 records up to the first 01 record. */
  function ExtendedRecords(lines: seq<string>): nat
  {
    if lines == [] || RecordType(lines[0]) == Some(1) then 0
    else (if RecordType(lines[0]) == Some(4) then 1 else 0) + ExtendedRecords(lines[1..])
  }

  /** One segment per extended address record, and always at least one. */
  lemma {:induction false} SegmentCountFrom(s: State, lines: seq<string>)
    requires Inv(s) && DecodeLines(s, lines).Ok?
    ensures |DecodeLines(s, lines).value| ==
            |s.vecBin| + (if s.isFirst then Max(1, ExtendedRecords(lines)) else 1 + ExtendedRecords(lines))
    decreases |lines|
  {
    if lines != [] {
      var step := StepLine(s, lines[0]).value;
      StepPreservesInv(s, lines[0]);
      if step.Continue? {
        SegmentCountFrom(step.state, lines[1..]);
      }
    }
  }

  lemma SegmentCount(hex: string)
    requires Decode(hex).Ok?
    ensures |Decode(hex).value| == Max(1, ExtendedRecords(Lines(hex)))
  {
    SegmentCountFrom(Start, Lines(hex));
  }

  /** Appending hex zeros multiplies the value by sixteen per digit. */
  lemma DigitsValueZeros(d: string)
    ensures DigitsValue(d + "0000", 16) ==
            if DigitsValue(d, 16).Some? then Some(DigitsValue(d, 16).value * 0x10000) else None
  {
    var d1, d2, d3 := d + "0", (d + "0") + "0", ((d + "0") + "0") + "0";
    assert d + "0000" == d3 + "0";
    ZeroDigit(d);
    ZeroDigit(d1);
    ZeroDigit(d2);
    ZeroDigit(d3);
  }

  /** Appending a '0' digit multiplies the value by 16. */
  lemma ZeroDigit(s: string)
    ensures DigitsValue(s + "0", 16) == if DigitsValue(s, 16).Some? then Some(DigitsValue(s, 16).value * 16) else None
  {
    DigitsValueSnoc(s, '0', 16);
    assert s + "0" == s + ['0'];
  }


  /** The segment text "0x" + HHHH + "0000" names address HHHH * 0x10000. */
  lemma ShiftedAddress(high: string)
    requires |high| == 4
    ensures ParseAddress(high + "0000") ==
            if FromStrRadix(high, 16, U16Max).Some?
            then Ok(FromStrRadix(high, 16, U16Max).value * 0x10000) else Err(InvalidDigit)
  {
    var t := high + "0000";
    assert t[0] == high[0];
    var d := if high[0] == '+' then high[1..] else high;
    assert (if t[0] == '+' then t[1..] else t) == d + "0000";
    DigitsValueZeros(d);
    if DigitsValue(d, 16).Some? {
      DigitsValueBound(d, 16);
      PowMonotone(16, |d|, 4);
      assert Pow(16, 4) == 0x10000;
    }
  }

  /** A 04 record closes the current segment (unless it is the first) and
      opens an empty one at its upper 16 address bits. */
  lemma ExtendedAddressRecord(s: State, line: string)
    requires RecordType(line) == Some(4) && StepLine(s, line).Ok?
    ensures var t := StepLine(s, line).value;
            var hl := Strip(line);
            && t.Continue? && |hl| >= 12
            && FromStrRadix(hl[8..12], 16, U16Max).Some?
            && t.state.bin == Bin(FromStrRadix(hl[8..12], 16, U16Max).value * 0x10000, [])
            && t.state.currentAddress == 0
            && !t.state.isFirst
            && t.state.vecBin == (if s.isFirst then s.vecBin else s.vecBin + [s.bin])
  {
    var hl := Strip(line);
    var start := "0x" + hl[8..12] + "0000";
    assert start[2..] == hl[8..12] + "0000";
    ShiftedAddress(hl[8..12]);
  }

  /** A data record appends its bytes at its offset, filling a gap with
      0xFF; it advances the offset by the byte count only. */
  lemma DataRecordPlacement(s: State, line: string)
    requires Inv(s) && s.startAddress != "-1" && RecordType(line) == Some(0) && StepLine(s, line).Ok?
    requires ParseHeader(Strip(line)).value.offsetAddress >= |s.bin.data|
    ensures var h := ParseHeader(Strip(line)).value;
            var t := StepLine(s, line).value.state;
            var bytes := DataBytes(Strip(line), h.dataLength);
            && bytes.Ok?
            && t.bin.address == s.bin.address
            && t.bin.data == s.bin.data + seq(h.offsetAddress - |s.bin.data|, _ => FillByte) + bytes.value
            && t.bin.data[h.offsetAddress..] == bytes.value
            && t.currentAddress == s.currentAddress + h.dataLength
            && t.vecBin == s.vecBin
  {
    var h := ParseHeader(Strip(line)).value;
    DataRecordOk(s, line);
    DataRecordStep(s, line, h);
    var gap := seq(h.offsetAddress - |s.bin.data|, _ => FillByte);
    if s.currentAddress < h.offsetAddress {
      if h.offsetAddress > |s.bin.data| {
        assert Resize(s.bin.data, h.offsetAddress, FillByte) == s.bin.data + gap;
      } else {
        assert Resize(s.bin.data, h.offsetAddress, FillByte) == s.bin.data;
      }
    } else {
      assert gap == [];
    }
  }

  /** A data record whose offset lies behind the next offset but inside the
      collected data truncates the segment to that offset before appending;
      fill bytes never count towards the next offset. */
  lemma DataRecordTruncates(s: State, line: string)
    requires s.startAddress != "-1" && RecordType(line) == Some(0) && StepLine(s, line).Ok?
    requires s.currentAddress < ParseHeader(Strip(line)).value.offsetAddress < |s.bin.data|
    ensures var h := ParseHeader(Strip(line)).value;
            var t := StepLine(s, line).value.state;
            && DataBytes(Strip(line), h.dataLength).Ok?
            && t.bin.data == s.bin.data[..h.offsetAddress] + DataBytes(Strip(line), h.dataLength).value
            && t.currentAddress == s.currentAddress + h.dataLength
  {
    var h := ParseHeader(Strip(line)).value;
    DataRecordOk(s, line);
    DataRecordStep(s, line, h);
    assert Resize(s.bin.data, h.offsetAddress, FillByte) == s.bin.data[..h.offsetAddress];
  }

  lemma DataRecordOk(s: State, line: string)
    requires s.startAddress != "-1" && RecordType(line) == Some(0) && StepLine(s, line).Ok?
    ensures DataBytes(Strip(line), ParseHeader(Strip(line)).value.dataLength).Ok?
  {
  }

  /** Data before the first 04 record is dropped: without any 04 record the
      file decodes to one empty segment at address 0. */
  lemma {:induction false} NoExtendedRecordFrom(s: State, lines: seq<string>)
    requires s.startAddress == "-1"
    requires forall k :: 0 <= k < |lines| ==> RecordType(lines[k]) != Some(4)
    requires DecodeLines(s, lines).Ok?
    ensures DecodeLines(s, lines) == Ok(Finish(s))
    decreases |lines|
  {
    if lines != [] {
      assert RecordType(lines[0]) != Some(4);
      var step := StepLine(s, lines[0]).value;
      if step.Continue? {
        assert step.state == s;
        forall k | 0 <= k < |lines[1..]| ensures RecordType(lines[1..][k]) != Some(4) {
          assert lines[1..][k] == lines[k + 1];
        }
        NoExtendedRecordFrom(s, lines[1..]);
      }
    }
  }

  lemma NoExtendedRecord(hex: string)
    requires forall k :: 0 <= k < |Lines(hex)| ==> RecordType(Lines(hex)[k]) != Some(4)
    requires Decode(hex).Ok?
    ensures Decode(hex) == Ok([Bin(0, [])])
  {
    NoExtendedRecordFrom(Start, Lines(hex));
    assert Finish(Start) == [Bin(0, [])];
  }

  /** Nothing after an end-of-file record is read. */
  lemma {:induction false} EndOfFileStops(s: State, lines: seq<string>, k: nat)
    requires k < |lines| && RecordType(lines[k]) == Some(1)
    ensures DecodeLines(s, lines) == DecodeLines(s, lines[..k + 1])
    decreases k
  {
    assert lines[..k + 1][0] == lines[0];
    if k > 0 {
      assert lines[..k + 1][1..] == lines[1..][..k];
      var step := StepLine(s, lines[0]);
      if step.Ok? && step.value.Continue? {
        EndOfFileStops(step.value.state, lines[1..], k - 1);
      }
    }
  }

  /** Records of any type other than 00, 01 and 04 change nothing. */
  lemma OtherRecordIgnored(s: State, line: string)
    requires RecordType(line).Some? && RecordType(line).value !in {0, 1, 4}
    ensures StepLine(s, line) == Ok(Continue(s))
  {
  }

  /** A header is accepted exactly when its three fields are hex numerals;
      otherwise the line is an error and not a panic. */
  lemma HeaderWellFormed(line: string)
    requires |Strip(line)| >= 8
    ensures var hl := Strip(line);
            ParseHeader(hl).Ok? <==>
              IsNumeral(hl[0..2], 16) && IsNumeral(hl[2..6], 16) && IsNumeral(hl[6..8], 16)
    ensures ParseHeader(Strip(line)).Ok? || ParseHeader(Strip(line)) == Err(InvalidDigit)
  {
    var hl := Strip(line);
    assert Pow(16, 2) == 256;
    assert Pow(16, 4) == 0x10000;
    FromStrRadixOkIff(hl[0..2], 16, UsizeMax);
    FromStrRadixOkIff(hl[2..6], 16, UsizeMax);
    FromStrRadixOkIff(hl[6..8], 16, UsizeMax);
  }

  /** The data bytes of a complete record are accepted exactly when every
      byte is a hex numeral. */
  lemma {:induction false} DataBytesWellFormed(hl: string, n: nat)
    requires |hl| >= 8 + 2 * n
    ensures DataBytes(hl, n).Ok? <==>
            forall i :: 0 <= i < n ==> IsNumeral(hl[8 + 2 * i..10 + 2 * i], 16)
    ensures DataBytes(hl, n).Ok? || DataBytes(hl, n) == Err(InvalidDigit)
  {
    if n > 0 {
      DataBytesWellFormed(hl, n - 1);
      assert Pow(16, 2) == 256;
      FromStrRadixOkIff(hl[8 + 2 * (n - 1)..10 + 2 * (n - 1)], 16, U8Max);
    }
  }

  // ---------------------------------------------------------------------------
  // Records as a linker writes them, and the decoder reading them back.

  /** Two upper-case hex digits for one byte. */
  function HexByte(b: u8): (r: string)
    ensures |r| == 2
  {
    [DigitChar(b / 16), DigitChar(b % 16)]
  }

  /** Two upper-case hex digits per byte, most significant digit first. */
  function HexBytes(data: seq<u8>): (r: string)
    ensures |r| == 2 * |data|
  {
    seq(2 * |data|, i requires 0 <= i < 2 * |data| => HexByte(data[i / 2])[i % 2])
  }

  function ByteSum(data: seq<u8>): nat
  {
    if data == [] then 0 else ByteSum(data[..|data| - 1]) + data[|data| - 1]
  }

  /** The two's complement of the byte sum, which the decoder never checks. */
  function Checksum(body: seq<u8>): u8
  {
    (0x100 - ByteSum(body) % 0x100) % 0x100
  }

  /** Count, offset, type and data of a record: all but its checksum. */
  function RecordBody(offset: u16, recordType: u8, data: seq<u8>): (r: seq<u8>)
    requires |data| <= U8Max
    ensures |r| == 4 + |data|
    ensures r[0] == |data| && (r[1] as int) * 0x100 + r[2] == offset && r[3] == recordType
    ensures r[4..] == data
  {
    SplitWord(offset);
    [|data|, HighByte(offset), LowByte(offset), recordType] + data
  }

  function HighByte(x: u16): u8 { x / 0x100 }

  function LowByte(x: u16): u8 { x % 0x100 }

  lemma SplitWord(x: u16)
    ensures 0 <= x / 0x100 < 0x100 && 0 <= x % 0x100 < 0x100
    ensures (x / 0x100) * 0x100 + x % 0x100 == x
  {
  }

  /**
   * The text of a record: ':' and two upper-case hex digits per byte. The
   * checksum is a parameter because the decoder reads every record the same
   * whatever its checksum byte holds.
   */
  function Record(offset: u16, recordType: u8, data: seq<u8>, checksum: u8): string
    requires |data| <= U8Max
  {
    ":" + HexBytes(RecordBody(offset, recordType, data) + [checksum])
  }

  /** A record with the checksum a linker computes. */
  function LinkerRecord(offset: u16, recordType: u8, data: seq<u8>): string
    requires |data| <= U8Max
  {
    Record(offset, recordType, data, Checksum(RecordBody(offset, recordType, data)))
  }

  function ExtendedRecord(upper: u16): string
  {
    LinkerRecord(0, 4, [HighByte(upper), LowByte(upper)])
  }

  const EndOfFile: string := LinkerRecord(0, 1, [])

  lemma HexByteAt(d: seq<u8>, i: nat)
    requires i < |d|
    ensures HexBytes(d)[2 * i..2 * i + 2] == HexByte(d[i])
  {
    var s := HexBytes(d);
    assert s[2 * i] == HexByte(d[i])[0] by { assert (2 * i) / 2 == i && (2 * i) % 2 == 0; }
    assert s[2 * i + 1] == HexByte(d[i])[1] by { assert (2 * i + 1) / 2 == i && (2 * i + 1) % 2 == 1; }
  }

  lemma HexWordAt(d: seq<u8>, i: nat)
    requires i + 1 < |d|
    ensures HexBytes(d)[2 * i..2 * i + 4] == HexByte(d[i]) + HexByte(d[i + 1])
  {
    HexByteAt(d, i);
    HexByteAt(d, i + 1);
    var s := HexBytes(d);
    assert s[2 * i..2 * i + 4] == s[2 * i..2 * i + 2] + s[2 * (i + 1)..2 * (i + 1) + 2];
  }

  lemma HexByteDigits(b: u8)
    ensures DigitOf(HexByte(b)[0], 16) == Some(b / 16)
    ensures DigitOf(HexByte(b)[1], 16) == Some(b % 16)
  {
    DigitCharOf(b / 16, 16);
    DigitCharOf(b % 16, 16);
  }

  lemma HexBytesDigits(d: seq<u8>)
    ensures AllDigits(HexBytes(d), 16)
  {
    var s := HexBytes(d);
    forall i | 0 <= i < |s| ensures DigitOf(s[i], 16).Some? {
      HexByteDigits(d[i / 2]);
    }
  }

  /** Hex digits hold no separator, so stripping leaves them alone. */
  lemma {:induction false} StripDigits(x: string)
    requires AllDigits(x, 16)
    ensures Strip(x) == x
  {
    if x != [] {
      assert DigitOf(x[0], 16).Some?;
      assert AllDigits(x[1..], 16) by {
        forall i | 0 <= i < |x[1..]| ensures DigitOf(x[1..][i], 16).Some? {
          assert x[1..][i] == x[i + 1];
        }
      }
      StripDigits(x[1..]);
    }
  }

  lemma HexByteNumber(b: u8)
    ensures DigitsValue(HexByte(b), 16) == Some(b)
  {
    var s := HexByte(b);
    HexByteDigits(b);
    assert s[..1][..0] == [];
    assert DigitsValue(s[..1], 16) == Some(b / 16);
    assert (b / 16) * 16 + b % 16 == b;
  }

  lemma HexByteValue(b: u8, max: nat)
    requires b <= max
    ensures FromStrRadix(HexByte(b), 16, max) == Some(b)
  {
    HexByteNumber(b);
    HexByteDigits(b);
  }

  /** A hex pair of bytes reads as their big-endian 16-bit value. */
  lemma HexPairValue(hi: u8, lo: u8, max: nat)
    requires (hi as int) * 0x100 + lo <= max
    ensures FromStrRadix(HexByte(hi) + HexByte(lo), 16, max) == Some((hi as int) * 0x100 + lo)
  {
    HexByteNumber(hi);
    HexByteNumber(lo);
    DigitsValueAppend(HexByte(hi), HexByte(lo), 16);
    assert Pow(16, 2) == 0x100;
    HexByteDigits(hi);
  }

  /** The cleaned text of a record is the hex of its bytes. */
  lemma RecordText(offset: u16, recordType: u8, data: seq<u8>, checksum: u8)
    requires |data| <= U8Max
    ensures Strip(Record(offset, recordType, data, checksum)) ==
            HexBytes(RecordBody(offset, recordType, data) + [checksum])
  {
    var hl := HexBytes(RecordBody(offset, recordType, data) + [checksum]);
    assert Record(offset, recordType, data, checksum) == [':'] + hl;
    assert ([':'] + hl)[1..] == hl;
    HexBytesDigits(RecordBody(offset, recordType, data) + [checksum]);
    StripDigits(hl);
  }

  /** The header the decoder reads from the hex of a record's bytes. */
  lemma HexHeader(full: seq<u8>)
    requires |full| >= 4
    ensures ParseHeader(HexBytes(full)) == Ok(Header(full[0], (full[1] as int) * 0x100 + full[2], full[3]))
  {
    HexHeaderFields(full);
    HeaderOf(HexBytes(full), full[0], (full[1] as int) * 0x100 + full[2], full[3]);
  }

  lemma HexHeaderFields(full: seq<u8>)
    requires |full| >= 4
    ensures |HexBytes(full)| >= 8
    ensures FromStrRadix(HexBytes(full)[0..2], 16, UsizeMax) == Some(full[0])
    ensures FromStrRadix(HexBytes(full)[2..6], 16, UsizeMax) == Some((full[1] as int) * 0x100 + full[2])
    ensures FromStrRadix(HexBytes(full)[6..8], 16, UsizeMax) == Some(full[3])
  {
    HexByteField(full, 0, UsizeMax);
    HexWordField(full, 1);
    HexByteField(full, 3, UsizeMax);
  }

  /** Byte `i` of a record reads back from its two hex digits. */
  lemma HexByteField(full: seq<u8>, i: nat, max: nat)
    requires i < |full| && full[i] <= max
    ensures FromStrRadix(HexBytes(full)[2 * i..2 * i + 2], 16, max) == Some(full[i])
  {
    HexByteAt(full, i);
    HexByteValue(full[i], max);
  }

  /** Bytes `i` and `i + 1` of a record read back as a big-endian word from their four hex digits. */
  lemma HexWordField(full: seq<u8>, i: nat)
    requires i + 1 < |full|
    ensures FromStrRadix(HexBytes(full)[2 * i..2 * i + 4], 16, UsizeMax) == Some((full[i] as int) * 0x100 + full[i + 1])
  {
    HexWordAt(full, i);
    HexPairValue(full[i], full[i + 1], UsizeMax);
  }

  /** A header whose three fields parse. */
  lemma HeaderOf(hl: string, len: nat, offset: nat, recordType: nat)
    requires |hl| >= 8
    requires FromStrRadix(hl[0..2], 16, UsizeMax) == Some(len)
    requires FromStrRadix(hl[2..6], 16, UsizeMax) == Some(offset)
    requires FromStrRadix(hl[6..8], 16, UsizeMax) == Some(recordType)
    ensures ParseHeader(hl) == Ok(Header(len, offset, recordType))
  {
  }

  /** The first `n` data bytes the decoder reads from the hex of a record's bytes. */
  /** The data fields of `hl` hold the hex digits of `data`. */
  predicate DataDigits(hl: string, data: seq<u8>)
  {
    |hl| >= 8 + 2 * |data| &&
    forall j :: 0 <= j < |data| ==> FromStrRadix(hl[8 + 2 * j..10 + 2 * j], 16, U8Max) == Some(data[j])
  }

  lemma {:induction false} DataBytesOf(hl: string, data: seq<u8>, n: nat)
    requires DataDigits(hl, data) && n <= |data|
    ensures DataBytes(hl, n) == Ok(data[..n])
  {
    if n > 0 {
      DataBytesOf(hl, data, n - 1);
      DataByteOf(hl, n - 1, data[n - 1]);
      DataBytesSnoc(hl, n, data[..n - 1], data[n - 1]);
      assert data[..n] == data[..n - 1] + [data[n - 1]];
    } else {
      assert data[..0] == [];
    }
  }

  lemma HexDataDigits(full: seq<u8>, data: seq<u8>)
    requires |full| >= 4 + |data| && full[4..4 + |data|] == data
    ensures DataDigits(HexBytes(full), data)
  {
    forall j | 0 <= j < |data|
      ensures FromStrRadix(HexBytes(full)[8 + 2 * j..10 + 2 * j], 16, U8Max) == Some(data[j])
    {
      assert full[4 + j] == data[j];
      HexByteField(full, 4 + j, U8Max);
      assert 2 * (4 + j) == 8 + 2 * j;
    }
  }

  lemma DataByteOf(hl: string, i: nat, b: u8)
    requires |hl| >= 10 + 2 * i && FromStrRadix(hl[8 + 2 * i..10 + 2 * i], 16, U8Max) == Some(b)
    ensures DataByte(hl, i) == Ok(b)
  {
  }

  lemma DataBytesSnoc(hl: string, n: nat, init: seq<u8>, b: u8)
    requires n > 0 && DataBytes(hl, n - 1) == Ok(init) && DataByte(hl, n - 1) == Ok(b)
    ensures DataBytes(hl, n) == Ok(init + [b])
  {
  }

  /** The header of a record is read back as it was written, whatever its checksum. */
  lemma RecordHeader(offset: u16, recordType: u8, data: seq<u8>, checksum: u8)
    requires |data| <= U8Max
    ensures ParseHeader(Strip(Record(offset, recordType, data, checksum))) ==
            Ok(Header(|data|, offset, recordType))
  {
    var full := RecordBody(offset, recordType, data) + [checksum];
    RecordText(offset, recordType, data, checksum);
    HexHeader(full);
  }

  /** The data of a record is read back as it was written, whatever its checksum. */
  lemma RecordData(offset: u16, recordType: u8, data: seq<u8>, checksum: u8)
    requires |data| <= U8Max
    ensures DataBytes(Strip(Record(offset, recordType, data, checksum)), |data|) == Ok(data)
  {
    var full := RecordBody(offset, recordType, data) + [checksum];
    RecordText(offset, recordType, data, checksum);
    HexDataDigits(full, data);
    DataBytesOf(Strip(Record(offset, recordType, data, checksum)), data, |data|);
    assert data[..|data|] == data;
  }


  /** Reading a data record appends its bytes at its offset. */
  lemma DataRecordRead(s: State, offset: u16, data: seq<u8>, checksum: u8)
    requires |data| <= U8Max && s.startAddress != "-1"
    ensures StepLine(s, Record(offset, 0, data, checksum)) ==
            Ok(Continue(s.(currentAddress := s.currentAddress + |data|,
                           bin := s.bin.(data := (if s.currentAddress < offset
                                                  then Resize(s.bin.data, offset, FillByte) else s.bin.data)
                                                 + data))))
  {
    RecordHeader(offset, 0, data, checksum);
    RecordData(offset, 0, data, checksum);
    DataRecordStep(s, Record(offset, 0, data, checksum), Header(|data|, offset, 0));
  }

  /** The state a 04 record for the upper address bits `hi`, `lo` leaves behind. */
  function OpenSegment(s: State, hi: u8, lo: u8): State
  {
    State("0x" + HexByte(hi) + HexByte(lo) + "0000", false, 0, Bin(((hi as int) * 0x100 + lo) * 0x10000, []), Closed(s))
  }

  /** Reading an extended linear address record opens a segment there, whatever its checksum. */
  lemma ExtendedRecordRead(s: State, hi: u8, lo: u8, checksum: u8)
    ensures StepLine(s, Record(0, 4, [hi, lo], checksum)) == Ok(Continue(OpenSegment(s, hi, lo)))
  {
    var line := Record(0, 4, [hi, lo], checksum);
    RecordHeader(0, 4, [hi, lo], checksum);
    RecordAddressText(hi, lo, checksum);
    SegmentAddress(hi, lo);
    ExtendedStep(s, line, Header(2, 0, 4), ((hi as int) * 0x100 + lo) * 0x10000);
    assert "0x" + (HexByte(hi) + HexByte(lo)) + "0000" == "0x" + HexByte(hi) + HexByte(lo) + "0000";
  }

  /** The address field of a 04 record is the hex of its two data bytes. */
  lemma RecordAddressText(hi: u8, lo: u8, checksum: u8)
    ensures |Strip(Record(0, 4, [hi, lo], checksum))| >= 12
    ensures Strip(Record(0, 4, [hi, lo], checksum))[8..12] == HexByte(hi) + HexByte(lo)
  {
    var full := RecordBody(0, 4, [hi, lo]) + [checksum];
    RecordText(0, 4, [hi, lo], checksum);
    HexWordAt(full, 4);
  }

  /** The segment text for bytes `hi`, `lo` names address `(hi * 0x100 + lo) * 0x10000`. */
  lemma SegmentAddress(hi: u8, lo: u8)
    ensures ParseAddress(HexByte(hi) + HexByte(lo) + "0000") == Ok(((hi as int) * 0x100 + lo) * 0x10000)
  {
    HexPairValue(hi, lo, U16Max);
    ShiftedAddress(HexByte(hi) + HexByte(lo));
  }

  lemma EndOfFileRead(s: State)
    ensures StepLine(s, EndOfFile) == Ok(Stop(s))
  {
    RecordHeader(0, 1, [], Checksum(RecordBody(0, 1, [])));
  }

  /** The bytes of consecutive chunks. */
  function Concat(chunks: seq<seq<u8>>): seq<u8>
  {
    if chunks == [] then [] else chunks[0] + Concat(chunks[1..])
  }

  /** Chunks a record can carry: non-empty and at most 255 bytes long. */
  predicate RecordChunks(chunks: seq<seq<u8>>)
  {
    forall k :: 0 <= k < |chunks| ==> 1 <= |chunks[k]| <= U8Max
  }

  /** Data records laid out back to back from `offset`. */
  function DataRecords(offset: nat, chunks: seq<seq<u8>>): seq<string>
    requires RecordChunks(chunks) && offset + |Concat(chunks)| <= 0x10000
    decreases |chunks|
  {
    if chunks == [] then []
    else
      assert 1 <= |chunks[0]|;
      assert forall k :: 0 <= k < |chunks[1..]| ==> chunks[1..][k] == chunks[k + 1];
      [LinkerRecord(offset, 0, chunks[0])] + DataRecords(offset + |chunks[0]|, chunks[1..])
  }

  lemma RecordChunksTail(chunks: seq<seq<u8>>)
    requires chunks != [] && RecordChunks(chunks)
    ensures RecordChunks(chunks[1..]) && 1 <= |chunks[0]| <= U8Max
    ensures Concat(chunks) == chunks[0] + Concat(chunks[1..])
  {
    assert forall k :: 0 <= k < |chunks[1..]| ==> chunks[1..][k] == chunks[k + 1];
  }

  lemma DecodeContinue(s: State, line: string, rest: seq<string>, t: State)
    requires StepLine(s, line) == Ok(Continue(t))
    ensures DecodeLines(s, [line] + rest) == DecodeLines(t, rest)
  {
    assert ([line] + rest)[0] == line && ([line] + rest)[1..] == rest;
  }

  /** The state after `d` was appended at the next offset. */
  function Appended(s: State, d: seq<u8>): State
  {
    s.(currentAddress := s.currentAddress + |d|, bin := s.bin.(data := s.bin.data + d))
  }

  lemma AppendedTwice(s: State, a: seq<u8>, b: seq<u8>)
    ensures Appended(Appended(s, a), b) == Appended(s, a + b)
  {
    assert s.bin.data + a + b == s.bin.data + (a + b);
  }

  lemma {:induction false} DataRecordsRead(s: State, chunks: seq<seq<u8>>, rest: seq<string>)
    requires s.startAddress != "-1" && s.currentAddress == |s.bin.data|
    requires RecordChunks(chunks) && s.currentAddress + |Concat(chunks)| <= 0x10000
    ensures DecodeLines(s, DataRecords(s.currentAddress, chunks) + rest) ==
            DecodeLines(Appended(s, Concat(chunks)), rest)
    decreases |chunks|
  {
    if chunks == [] {
      assert Appended(s, []) == s;
      assert Concat(chunks) == [];
      assert DataRecords(s.currentAddress, chunks) + rest == rest;
      assert DecodeLines(s, DataRecords(s.currentAddress, chunks) + rest) == DecodeLines(Appended(s, Concat(chunks)), rest);
    } else {
      RecordChunksTail(chunks);
      var line := LinkerRecord(s.currentAddress, 0, chunks[0]);
      var tail := DataRecords(s.currentAddress + |chunks[0]|, chunks[1..]);
      assert DataRecords(s.currentAddress, chunks) + rest == [line] + (tail + rest);
      DataRecordRead(s, s.currentAddress, chunks[0], Checksum(RecordBody(s.currentAddress, 0, chunks[0])));
      var t := Appended(s, chunks[0]);
      DecodeContinue(s, line, tail + rest, t);
      DataRecordsRead(t, chunks[1..], rest);
      AppendedTwice(s, chunks[0], Concat(chunks[1..]));
      assert DecodeLines(s, DataRecords(s.currentAddress, chunks) + rest) == DecodeLines(Appended(s, Concat(chunks)), rest);
    }
  }

  /** A segment of a HEX file: its upper address bits and its data records. */
  datatype Segment = Segment(upper: u16, chunks: seq<seq<u8>>)

  predicate WellFormed(segs: seq<Segment>)
  {
    forall k :: 0 <= k < |segs| ==> RecordChunks(segs[k].chunks) && |Concat(segs[k].chunks)| <= 0x10000
  }

  /** The records of the segments, each opened by its 04 record. */
  function Image(segs: seq<Segment>): seq<string>
    requires WellFormed(segs)
  {
    if segs == [] then []
    else [ExtendedRecord(segs[0].upper)] + DataRecords(0, segs[0].chunks) + Image(segs[1..])
  }

  /** The segments the image should decode to. */
  function Bins(segs: seq<Segment>): seq<Bin>
  {
    if segs == [] then [] else [Bin(segs[0].upper * 0x10000, Concat(segs[0].chunks))] + Bins(segs[1..])
  }

  /** What a 04 record does with the finished segments. */
  function Closed(s: State): seq<Bin>
  {
    if s.isFirst then s.vecBin else s.vecBin + [s.bin]
  }

  lemma DecodeStop(s: State, line: string, rest: seq<string>)
    requires StepLine(s, line) == Ok(Stop(s))
    ensures DecodeLines(s, [line] + rest) == Ok(Finish(s))
  {
    assert ([line] + rest)[0] == line;
  }

  /** One segment's records: the 04 record, then its data records. */
  lemma SegmentRead(s: State, seg: Segment, rest: seq<string>)
    requires RecordChunks(seg.chunks) && |Concat(seg.chunks)| <= 0x10000
    ensures DecodeLines(s, [ExtendedRecord(seg.upper)] + (DataRecords(0, seg.chunks) + rest)) ==
            DecodeLines(Appended(OpenSegment(s, HighByte(seg.upper), LowByte(seg.upper)), Concat(seg.chunks)), rest)
  {
    var s1 := OpenSegment(s, HighByte(seg.upper), LowByte(seg.upper));
    var hi, lo := HighByte(seg.upper), LowByte(seg.upper);
    ExtendedRecordRead(s, hi, lo, Checksum(RecordBody(0, 4, [hi, lo])));
    DecodeContinue(s, ExtendedRecord(seg.upper), DataRecords(0, seg.chunks) + rest, s1);
    assert s1.startAddress[0] == '0';
    DataRecordsRead(s1, seg.chunks, rest);
  }

  /** The state after reading the records of the segments in order. */
  function AfterImage(s: State, segs: seq<Segment>): State
    decreases |segs|
  {
    if segs == [] then s
    else AfterImage(Appended(OpenSegment(s, HighByte(segs[0].upper), LowByte(segs[0].upper)), Concat(segs[0].chunks)),
                    segs[1..])
  }

  lemma ImageCons(segs: seq<Segment>, tail: seq<string>)
    requires segs != [] && WellFormed(segs)
    ensures RecordChunks(segs[0].chunks) && |Concat(segs[0].chunks)| <= 0x10000 && WellFormed(segs[1..])
    ensures Image(segs) + tail ==
            [ExtendedRecord(segs[0].upper)] + (DataRecords(0, segs[0].chunks) + (Image(segs[1..]) + tail))
  {
    assert WellFormed(segs[1..]) by {
      forall k | 0 <= k < |segs[1..]| ensures RecordChunks(segs[1..][k].chunks) && |Concat(segs[1..][k].chunks)| <= 0x10000 {
        assert segs[1..][k] == segs[k + 1];
      }
    }
  }

  /** The records of the segments take the decoder from `s` to `AfterImage(s, segs)`. */
  lemma {:induction false} ImageRead(s: State, segs: seq<Segment>, tail: seq<string>)
    requires WellFormed(segs)
    ensures DecodeLines(s, Image(segs) + tail) == DecodeLines(AfterImage(s, segs), tail)
    decreases |segs|
  {
    if segs == [] {
      assert Image(segs) + tail == tail;
    } else {
      ImageCons(segs, tail);
      var seg := segs[0];
      SegmentRead(s, seg, Image(segs[1..]) + tail);
      var s2 := Appended(OpenSegment(s, HighByte(seg.upper), LowByte(seg.upper)), Concat(seg.chunks));
      ImageRead(s2, segs[1..], tail);
    }
  }

  /** After the segments, the decoder holds the earlier segments followed by one per segment. */
  lemma {:induction false} AfterImageBins(s: State, segs: seq<Segment>)
    requires segs != []
    ensures Finish(AfterImage(s, segs)) == Closed(s) + Bins(segs)
    decreases |segs|
  {
    var seg := segs[0];
    var s2 := Appended(OpenSegment(s, HighByte(seg.upper), LowByte(seg.upper)), Concat(seg.chunks));
    var b := Bin(seg.upper * 0x10000, Concat(seg.chunks));
    SplitWord(seg.upper);
    assert s2.bin == b;
    assert Closed(s2) == Finish(s2) == Closed(s) + [b];
    assert Bins(segs) == [b] + Bins(segs[1..]);
    if |segs| > 1 {
      AfterImageBins(s2, segs[1..]);
    }
  }

  /** The records of the segments followed by a record that stops the decoder decode to the segments. */
  lemma ImageThenStop(segs: seq<Segment>, eof: string)
    requires segs != [] && WellFormed(segs)
    requires StepLine(AfterImage(Start, segs), eof) == Ok(Stop(AfterImage(Start, segs)))
    ensures DecodeLines(Start, Image(segs) + [eof]) == Ok(Bins(segs))
  {
    ImageRead(Start, segs, [eof]);
    var t := AfterImage(Start, segs);
    DecodeStop(t, eof, []);
    assert [eof] + [] == [eof];
    AfterImageBins(Start, segs);
    assert Closed(Start) + Bins(segs) == Bins(segs);
  }

  lemma ImageDecodes(segs: seq<Segment>)
    requires segs != [] && WellFormed(segs)
    ensures DecodeLines(Start, Image(segs) + [EndOfFile]) == Ok(Bins(segs))
  {
    EndOfFileRead(AfterImage(Start, segs));
    ImageThenStop(segs, EndOfFile);
  }

  /** Lines joined with "\n" after each of them. */
  function JoinLines(lines: seq<string>): string
  {
    if lines == [] then [] else lines[0] + "\n" + JoinLines(lines[1..])
  }

  /** A line that `str::lines` gives back unchanged. */
  predicate PlainLine(l: string)
  {
    '\n' !in l && DropCarriageReturn(l) == l
  }

  predicate PlainLines(lines: seq<string>)
  {
    forall k :: 0 <= k < |lines| ==> PlainLine(lines[k])
  }

  lemma PlainLinesAppend(a: seq<string>, b: seq<string>)
    requires PlainLines(a) && PlainLines(b)
    ensures PlainLines(a + b)
  {
    forall k | 0 <= k < |a + b| ensures PlainLine((a + b)[k]) {
      if k < |a| { assert (a + b)[k] == a[k]; } else { assert (a + b)[k] == b[k - |a|]; }
    }
  }

  lemma {:induction false} NewlineIndexAfter(l: string, rest: string)
    requires '\n' !in l
    ensures NewlineIndex(l + "\n" + rest) == |l|
  {
    if l != [] {
      assert (l + "\n" + rest)[1..] == l[1..] + "\n" + rest;
      assert l[0] in l;
      NewlineIndexAfter(l[1..], rest);
    }
  }

  /** Splitting joined lines gives the lines back. */
  lemma {:induction false} LinesOfJoin(lines: seq<string>)
    requires PlainLines(lines)
    ensures Lines(JoinLines(lines)) == lines
  {
    if lines != [] {
      var text := JoinLines(lines);
      var l := lines[0];
      assert PlainLine(l);
      NewlineIndexAfter(l, JoinLines(lines[1..]));
      assert text[..|l|] == l;
      assert text[|l| + 1..] == JoinLines(lines[1..]);
      assert PlainLines(lines[1..]) by {
        forall k | 0 <= k < |lines[1..]| ensures PlainLine(lines[1..][k]) {
          assert lines[1..][k] == lines[k + 1];
        }
      }
      LinesOfJoin(lines[1..]);
    }
  }

  /** A record holds neither a newline nor a trailing carriage return. */
  lemma RecordIsPlain(offset: u16, recordType: u8, data: seq<u8>, checksum: u8)
    requires |data| <= U8Max
    ensures PlainLine(Record(offset, recordType, data, checksum))
  {
    var full := RecordBody(offset, recordType, data) + [checksum];
    var hl := HexBytes(full);
    HexBytesDigits(full);
    var r := Record(offset, recordType, data, checksum);
    assert r == [':'] + hl;
    forall i | 0 <= i < |r| ensures r[i] != '\n' {
      if i > 0 { assert r[i] == hl[i - 1]; assert DigitOf(hl[i - 1], 16).Some?; }
    }
    assert DigitOf(hl[|hl| - 1], 16).Some?;
    assert r[|r| - 1] == hl[|hl| - 1];
  }

  lemma {:induction false} DataRecordsPlain(offset: nat, chunks: seq<seq<u8>>)
    requires RecordChunks(chunks) && offset + |Concat(chunks)| <= 0x10000
    ensures PlainLines(DataRecords(offset, chunks))
    decreases |chunks|
  {
    if chunks != [] {
      assert 1 <= |chunks[0]| <= U8Max;
      RecordIsPlain(offset, 0, chunks[0], Checksum(RecordBody(offset, 0, chunks[0])));
      assert forall k :: 0 <= k < |chunks[1..]| ==> chunks[1..][k] == chunks[k + 1];
      DataRecordsPlain(offset + |chunks[0]|, chunks[1..]);
      PlainLinesAppend([LinkerRecord(offset, 0, chunks[0])], DataRecords(offset + |chunks[0]|, chunks[1..]));
    }
  }

  lemma {:induction false} ImagePlain(segs: seq<Segment>)
    requires WellFormed(segs)
    ensures PlainLines(Image(segs))
    decreases |segs|
  {
    if segs != [] {
      assert RecordChunks(segs[0].chunks) && |Concat(segs[0].chunks)| <= 0x10000;
      var hi, lo := HighByte(segs[0].upper), LowByte(segs[0].upper);
      RecordIsPlain(0, 4, [hi, lo], Checksum(RecordBody(0, 4, [hi, lo])));
      DataRecordsPlain(0, segs[0].chunks);
      assert WellFormed(segs[1..]) by {
        forall k | 0 <= k < |segs[1..]| ensures RecordChunks(segs[1..][k].chunks) && |Concat(segs[1..][k].chunks)| <= 0x10000 {
          assert segs[1..][k] == segs[k + 1];
        }
      }
      ImagePlain(segs[1..]);
      PlainLinesAppend([ExtendedRecord(segs[0].upper)], DataRecords(0, segs[0].chunks));
      PlainLinesAppend([ExtendedRecord(segs[0].upper)] + DataRecords(0, segs[0].chunks), Image(segs[1..]));
    }
  }

  /** The text of a HEX file holding the segments. */
  function HexFile(segs: seq<Segment>): string
    requires WellFormed(segs)
  {
    JoinLines(Image(segs) + [EndOfFile])
  }

  /** A HEX file written from segments decodes back to those segments. */
  lemma HexFileRoundTrip(segs: seq<Segment>)
    requires segs != [] && WellFormed(segs)
    ensures Decode(HexFile(segs)) == Ok(Bins(segs))
  {
    ImagePlain(segs);
    RecordIsPlain(0, 1, [], Checksum(RecordBody(0, 1, [])));
    PlainLinesAppend(Image(segs), [EndOfFile]);
    LinesOfJoin(Image(segs) + [EndOfFile]);
    assert Lines(HexFile(segs)) == Image(segs) + [EndOfFile];
    ImageDecodes(segs);
  }
}
