/** The `write_flash` command (`src/write_flash.rs`): parsing its arguments,
    and the order in which it drives the peripheral. The peripheral itself
    is abstract here: every call it receives is recorded, and what each call
    answers is an oracle over the calls made before it. */
module WriteFlash {
  import opened Base
  import opened AirIsp

  // ---------------------------------------------------------------------------
  // Arguments.

  /** Whether the address argument is written in hexadecimal. */
  predicate HexPrefixed(s: string)
  {
    |s| >= 2 && s[0] == '0' && (s[1] == 'x' || s[1] == 'X')
  }

  /** The start address: hexadecimal after a `0x` or `0X` prefix, decimal
      otherwise, as a 32-bit value. Anything else makes `unwrap` panic. */
  function ParseAddress(s: string): (r: Outcome<u32>)
    ensures r.Ok? || r == Panic
    ensures HexPrefixed(s) ==> (r.Ok? <==> FromStrRadix(s[2..], 16, U32Max).Some?)
    ensures !HexPrefixed(s) ==> (r.Ok? <==> FromStrRadix(s, 10, U32Max).Some?)
  {
    var parsed := if HexPrefixed(s) then FromStrRadix(s[2..], 16, U32Max) else FromStrRadix(s, 10, U32Max);
    match parsed
    case None => Panic
    case Some(v) => Ok(v)
  }

  /** The settings of one `write_flash` run. */
  datatype WriteFlash = WriteFlash(address: u32, filePath: string, erase: bool, progress: Progress, config: Config)

  /** `WriteFlash::new`: the address parsed as above, the flags copied, and
      the progress style `Percent` unless progress output was turned off. */
  function New(address: string, path: string, erase: bool, noProgress: bool, config: Config): (r: Outcome<WriteFlash>)
    ensures r.Ok? <==> ParseAddress(address).Ok?
    ensures r.Ok? ==> (r.value.address == ParseAddress(address).value
      && r.value.filePath == path && r.value.erase == erase && r.value.config == config)
    ensures r.Ok? ==> (r.value.progress == Quiet <==> noProgress) && r.value.progress != Bar
    ensures !r.Ok? ==> r == Panic
  {
    var a :- ParseAddress(address);
    Ok(WriteFlash(a, path, erase, if noProgress then Quiet else Percent, config))
  }

  /** A hexadecimal address of at most eight digits is accepted exactly when
      every character after the prefix (but for one leading '+') is a
      hexadecimal digit. */
  lemma HexAddressAccepted(prefix: char, digits: string)
    requires prefix == 'x' || prefix == 'X'
    requires |digits| <= 8
    ensures ParseAddress(['0', prefix] + digits).Ok? <==> IsNumeral(digits, 16)
  {
    var s := ['0', prefix] + digits;
    assert HexPrefixed(s) && s[2..] == digits;
    PowMonotone(16, |digits|, 8);
    FromStrRadixOkIff(digits, 16, U32Max);
  }

  /** Any address printed in hexadecimal after either prefix parses back to
      itself. */
  lemma HexAddressRoundTrip(prefix: char, n: u32, width: nat)
    requires prefix == 'x' || prefix == 'X'
    requires 1 <= width && n < Pow(16, width)
    ensures ParseAddress(['0', prefix] + Numeral(n, 16, width)) == Ok(n)
  {
    var s := ['0', prefix] + Numeral(n, 16, width);
    assert HexPrefixed(s) && s[2..] == Numeral(n, 16, width);
    FromStrRadixOfNumeral(n, 16, width, U32Max);
  }

  /** Any address printed in decimal, with or without leading zeros, parses
      back to itself: a decimal numeral never looks like a `0x` prefix. */
  lemma DecimalAddressRoundTrip(n: u32, width: nat)
    requires 1 <= width && n < Pow(10, width)
    ensures ParseAddress(Numeral(n, 10, width)) == Ok(n)
  {
    var s := Numeral(n, 10, width);
    NumeralDigits(n, 10, width);
    if |s| >= 2 {
      assert DigitOf(s[1], 10).Some?;
    }
    FromStrRadixOfNumeral(n, 10, width, U32Max);
  }

  /** A value past 32 bits is not truncated: the program panics, in
      either notation. */
  lemma AddressOverflowPanics(n: nat, width: nat)
    requires U32Max < n && 1 <= width
    ensures n < Pow(16, width) ==> ParseAddress("0x" + Numeral(n, 16, width)) == Panic
    ensures n < Pow(10, width) ==> ParseAddress(Numeral(n, 10, width)) == Panic
  {
    if n < Pow(16, width) {
      var s := "0x" + Numeral(n, 16, width);
      assert HexPrefixed(s) && s[2..] == Numeral(n, 16, width);
      DigitsValueOfNumeral(n, 16, width);
      NumeralDigits(n, 16, width);
      assert DigitOf(Numeral(n, 16, width)[0], 16).Some?;
    }
    if n < Pow(10, width) {
      var s := Numeral(n, 10, width);
      DigitsValueOfNumeral(n, 10, width);
      NumeralDigits(n, 10, width);
      assert DigitOf(s[0], 10).Some?;
      if |s| >= 2 {
        assert DigitOf(s[1], 10).Some?;
      }
    }
  }

  // ---------------------------------------------------------------------------
  // Driving the peripheral.

  /** The calls `run` makes on the peripheral. */
  datatype Step = ResetBootloader | EraseAll | Write(address: u32, data: seq<u8>, progress: Progress) | ResetApp

  /** What the peripheral answers to a call, given the calls it received
      before. */
  type Responder = (seq<Step>, Step) -> Outcome<()>

  /** The firmware as the file reader hands it over: the address to write
      at (the command line address, or the one the file itself gives) and
      the bytes. */
  datatype Image = Image(address: u32, data: seq<u8>)

  /** The file reader: given the path and the command line address, an
      image or an error. */
  type Loader = (string, u32) -> Outcome<Image>

  /** The steps of a run, in order. */
  function Plan(erase: bool, image: Image): seq<Step>
  {
    [ResetBootloader] + (if erase then [EraseAll] else []) + [Write(image.address, image.data, Percent), ResetApp]
  }

  lemma PlanShape(erase: bool, image: Image)
    ensures var write := Write(image.address, image.data, Percent);
      Plan(erase, image) == if erase then [ResetBootloader, EraseAll, write, ResetApp] else [ResetBootloader, write, ResetApp]
  {
  }

  /** The outcome of a run together with the calls made. */
  datatype Run = Run(result: Outcome<()>, calls: seq<Step>)

  /** Making the calls of `plan` in order, after `before`, up to and
      including the first one that fails. */
  function Perform(respond: Responder, before: seq<Step>, plan: seq<Step>): Run
    decreases |plan|
  {
    if plan == [] then Run(Ok(()), [])
    else
      var r := respond(before, plan[0]);
      if !r.Ok? then Run(r, [plan[0]])
      else
        var rest := Perform(respond, before + [plan[0]], plan[1..]);
        Run(rest.result, [plan[0]] + rest.calls)
  }

  /** `run`: choose the peripheral, read the file, then make the calls. A
      failure in the first two happens before any call. */
  function RunOf(w: WriteFlash, load: Loader, respond: Responder, before: seq<Step>): Run
  {
    match GetPeripheralHandle(w.config)
    case Ok(_) =>
      (match load(w.filePath, w.address)
       case Ok(image) => Perform(respond, before, Plan(w.erase, image))
       case Err(e) => Run(Err(e), [])
       case Exit(s) => Run(Exit(s), [])
       case Panic => Run(Panic, []))
    case Err(e) => Run(Err(e), [])
    case Exit(s) => Run(Exit(s), [])
    case Panic => Run(Panic, [])
  }

  /** The calls made are the plan cut short: a prefix of it, and all of
      it when the run succeeds. */
  lemma {:induction false} PerformSpec(respond: Responder, before: seq<Step>, plan: seq<Step>)
    ensures var run := Perform(respond, before, plan);
      |run.calls| <= |plan| && run.calls == plan[..|run.calls|]
      && (run.result.Ok? ==> run.calls == plan)
      && (!run.result.Ok? ==> run.calls != [])
    decreases |plan|
  {
    if plan != [] && respond(before, plan[0]).Ok? {
      PerformSpec(respond, before + [plan[0]], plan[1..]);
      assert plan == [plan[0]] + plan[1..];
    }
  }

  /** Every call but the last succeeded, and a failed run fails as its last
      call did. */
  lemma {:induction false} PerformStops(respond: Responder, before: seq<Step>, plan: seq<Step>)
    ensures var n := |Perform(respond, before, plan).calls|;
      n <= |plan| && forall i :: 0 <= i < n - 1 ==> respond(before + plan[..i], plan[i]).Ok?
    ensures var run := Perform(respond, before, plan);
      !run.result.Ok? ==> (1 <= |run.calls| <= |plan|
        && run.result == respond(before + plan[..|run.calls| - 1], plan[|run.calls| - 1]))
    decreases |plan|
  {
    PerformSpec(respond, before, plan);
    if plan != [] {
      assert before + plan[..0] == before;
      if respond(before, plan[0]).Ok? {
        var b := before + [plan[0]];
        PerformStops(respond, b, plan[1..]);
        forall i | 1 <= i < |plan|
          ensures before + plan[..i] == b + plan[1..][..i - 1] && plan[i] == plan[1..][i - 1]
        {
          assert plan[..i] == [plan[0]] + plan[1..][..i - 1];
        }
      }
    }
  }

  /** The run succeeds exactly when every call of the plan, made after the
      ones before it, succeeds. */
  lemma {:induction false} PerformOkIff(respond: Responder, before: seq<Step>, plan: seq<Step>)
    ensures Perform(respond, before, plan).result.Ok? <==>
      forall i :: 0 <= i < |plan| ==> respond(before + plan[..i], plan[i]).Ok?
    decreases |plan|
  {
    if plan != [] {
      assert before + plan[..0] == before;
      if respond(before, plan[0]).Ok? {
        var b := before + [plan[0]];
        PerformOkIff(respond, b, plan[1..]);
        forall i | 1 <= i < |plan|
          ensures before + plan[..i] == b + plan[1..][..i - 1] && plan[i] == plan[1..][i - 1]
        {
          assert plan[..i] == [plan[0]] + plan[1..][..i - 1];
        }
        if forall i :: 0 <= i < |plan[1..]| ==> respond(b + plan[1..][..i], plan[1..][i]).Ok? {
          forall i | 0 <= i < |plan| ensures respond(before + plan[..i], plan[i]).Ok? {
            if i > 0 {
              assert respond(b + plan[1..][..i - 1], plan[1..][i - 1]).Ok?;
            }
          }
        } else {
          var j :| 0 <= j < |plan[1..]| && !respond(b + plan[1..][..j], plan[1..][j]).Ok?;
          assert !respond(before + plan[..j + 1], plan[j + 1]).Ok?;
        }
      }
    }
  }

  /** The order `run` keeps: the bootloader is entered first; the chip is
      erased only when asked, and then right after; the image is written
      with percentage progress whatever the settings say; the application
      is started last. */
  lemma RunOrder(w: WriteFlash, load: Loader, respond: Responder, before: seq<Step>)
    ensures var run := RunOf(w, load, respond, before);
      (run.calls != [] ==> run.calls[0] == ResetBootloader)
      && (EraseAll in run.calls ==> w.erase && run.calls[1] == EraseAll)
      && (forall s :: s in run.calls && s.Write? ==> s.progress == Percent)
      && (ResetApp in run.calls ==> run.calls[|run.calls| - 1] == ResetApp && ResetApp !in run.calls[..|run.calls| - 1])
  {
    if GetPeripheralHandle(w.config).Ok? && load(w.filePath, w.address).Ok? {
      var plan := Plan(w.erase, load(w.filePath, w.address).value);
      PerformSpec(respond, before, plan);
      var calls := Perform(respond, before, plan).calls;
      PlanOrder(w.erase, load(w.filePath, w.address).value, calls);
    }
  }

  /** Every prefix of the plan keeps the order. */
  lemma PlanOrder(erase: bool, image: Image, calls: seq<Step>)
    requires |calls| <= |Plan(erase, image)| && calls == Plan(erase, image)[..|calls|]
    ensures calls != [] ==> calls[0] == ResetBootloader
    ensures EraseAll in calls ==> erase && calls[1] == EraseAll
    ensures forall s :: s in calls && s.Write? ==> s.progress == Percent
    ensures ResetApp in calls ==> calls[|calls| - 1] == ResetApp && ResetApp !in calls[..|calls| - 1]
  {
    var plan := Plan(erase, image);
    if ResetApp in calls {
      var i :| 0 <= i < |calls| && calls[i] == ResetApp;
      assert plan[i] == ResetApp;
      assert i == |plan| - 1;
    }
  }

  /** The run succeeds exactly when the peripheral and the file could be had
      and every call of the plan succeeded; the calls are then the plan. */
  lemma RunSucceeds(w: WriteFlash, load: Loader, respond: Responder, before: seq<Step>)
    ensures var run := RunOf(w, load, respond, before);
      run.result.Ok? <==> (GetPeripheralHandle(w.config).Ok? && load(w.filePath, w.address).Ok?
        && var plan := Plan(w.erase, load(w.filePath, w.address).value);
        forall i :: 0 <= i < |plan| ==> respond(before + plan[..i], plan[i]).Ok?)
    ensures var run := RunOf(w, load, respond, before);
      run.result.Ok? ==> run.calls == Plan(w.erase, load(w.filePath, w.address).value)
  {
    if GetPeripheralHandle(w.config).Ok? && load(w.filePath, w.address).Ok? {
      PerformSpec(respond, before, Plan(w.erase, load(w.filePath, w.address).value));
      PerformOkIff(respond, before, Plan(w.erase, load(w.filePath, w.address).value));
    }
  }

  /** Without the erase flag nothing is erased; with it, the chip is erased
      as soon as the bootloader is entered. */
  lemma RunErase(w: WriteFlash, load: Loader, respond: Responder, before: seq<Step>)
    requires GetPeripheralHandle(w.config).Ok? && load(w.filePath, w.address).Ok?
    requires respond(before, ResetBootloader).Ok?
    ensures var run := RunOf(w, load, respond, before);
      EraseAll in run.calls <==> w.erase
  {
    var plan := Plan(w.erase, load(w.filePath, w.address).value);
    PerformSpec(respond, before, plan);
    var calls := Perform(respond, before, plan).calls;
    assert calls == plan[..|calls|];
    if w.erase {
      assert |calls| >= 2;
      assert calls[1] == EraseAll;
    }
  }

  /** A failing peripheral handle or file stops the run before the
      peripheral is touched. */
  lemma RunSetupFailure(w: WriteFlash, load: Loader, respond: Responder, before: seq<Step>)
    requires !GetPeripheralHandle(w.config).Ok? || !load(w.filePath, w.address).Ok?
    ensures RunOf(w, load, respond, before).calls == []
    ensures !GetPeripheralHandle(w.config).Ok? ==> RunOf(w, load, respond, before).result == Err(NotSupportPeripheral)
  {
  }

  /** The peripheral, as `run` sees it: it records the calls it receives. */
  class Programmer {
    var calls: seq<Step>
    const respond: Responder

    constructor Init(respond: Responder)
      ensures calls == [] && this.respond == respond
    {
      calls := [];
      this.respond := respond;
    }

    method Call(s: Step) returns (r: Outcome<()>)
      modifies this
      ensures calls == old(calls) + [s] && r == respond(old(calls), s)
    {
      r := respond(calls, s);
      calls := calls + [s];
    }
  }

  /** `WriteFlash::run`. The image address the reader settles on replaces
      the stored address, as the reader updates it in place. */
  method RunWriteFlash(w: WriteFlash, load: Loader, p: Programmer) returns (r: Outcome<()>, address: u32)
    modifies p
    ensures var run := RunOf(w, load, p.respond, old(p.calls));
      r == run.result && p.calls == old(p.calls) + run.calls
    ensures address == if GetPeripheralHandle(w.config).Ok? && load(w.filePath, w.address).Ok?
      then load(w.filePath, w.address).value.address else w.address
  {
    address := w.address;
    var handle := GetPeripheralHandle(w.config);
    if !handle.Ok? {
      return Err(handle.error), address;
    }
    var loaded := load(w.filePath, w.address);
    if !loaded.Ok? {
      return loaded.PropagateFailure(), address;
    }
    address := loaded.value.address;
    r := Drive(p, w.erase, loaded.value);
  }

  /** The calls on the peripheral, once it and the image are at hand. */
  method Drive(p: Programmer, erase: bool, image: Image) returns (r: Outcome<()>)
    modifies p
    ensures var run := Perform(p.respond, old(p.calls), Plan(erase, image));
      r == run.result && p.calls == old(p.calls) + run.calls
  {
    PlanShape(erase, image);
    ghost var plan := Plan(erase, image);
    ghost var before := p.calls;
    assert plan[0..] == plan && before + [] == before;
    r := CallStep(p, plan, before, [], ResetBootloader);
    if !r.Ok? {
      return;
    }
    ghost var done := [ResetBootloader];
    if erase {
      r := CallStep(p, plan, before, done, EraseAll);
      if !r.Ok? {
        return;
      }
      done := done + [EraseAll];
    }
    assert plan[|done|..] == [Write(image.address, image.data, Percent), ResetApp];
    r := Finish(p, plan, before, done, Write(image.address, image.data, Percent));
  }

  /** The last two calls: the write, then starting the application. */
  method Finish(p: Programmer, ghost plan: seq<Step>, ghost before: seq<Step>, ghost done: seq<Step>, write: Step) returns (r: Outcome<()>)
    requires Pending(p.respond, before, plan, done) && plan[|done|..] == [write, ResetApp]
    requires p.calls == before + done
    modifies p
    ensures var run := Perform(p.respond, before, plan);
      r == run.result && p.calls == before + run.calls
  {
    r := CallStep(p, plan, before, done, write);
    if !r.Ok? {
      return;
    }
    r := CallStep(p, plan, before, done + [write], ResetApp);
    if !r.Ok? {
      return;
    }
    ghost var full := done + [write] + [ResetApp];
    assert |full| == |plan| && plan[|full|..] == [];
    assert Perform(p.respond, before + full, []) == Run(Ok(()), []);
    assert full + [] == full;
    assert Perform(p.respond, before, plan) == Run(Ok(()), full);
    assert p.calls == before + full;
    assert r.value == ();
  }

  /** The calls of `plan` still to be made after `done`: what they give,
      preceded by `done`, is the run of the whole plan. */
  ghost predicate Pending(respond: Responder, before: seq<Step>, plan: seq<Step>, done: seq<Step>)
  {
    |done| <= |plan| && done == plan[..|done|]
    && (forall i :: 0 <= i < |done| ==> respond(before + plan[..i], plan[i]).Ok?)
    && var rest := Perform(respond, before + done, plan[|done|..]);
    Perform(respond, before, plan) == Run(rest.result, done + rest.calls)
  }

  lemma {:induction false} PendingStep(respond: Responder, before: seq<Step>, plan: seq<Step>, done: seq<Step>)
    requires Pending(respond, before, plan, done) && |done| < |plan|
    ensures var s := plan[|done|];
      var r := respond(before + done, s);
      (r.Ok? ==> Pending(respond, before, plan, done + [s]))
      && (!r.Ok? ==> Perform(respond, before, plan) == Run(r, done + [s]))
  {
    var s := plan[|done|];
    var rest := plan[|done|..];
    assert rest[0] == s && rest[1..] == plan[|done| + 1..];
    assert (done + [s]) == plan[..|done| + 1];
    var tail := Perform(respond, before + done + [s], plan[|done| + 1..]);
    if respond(before + done, s).Ok? {
      assert Perform(respond, before + done, rest) == Run(tail.result, [s] + tail.calls);
      assert done + ([s] + tail.calls) == (done + [s]) + tail.calls;
      assert before + done + [s] == before + (done + [s]);
    }
  }

  /** One call of `run`, made when the plan says so. */
  method CallStep(p: Programmer, ghost plan: seq<Step>, ghost before: seq<Step>, ghost done: seq<Step>, s: Step) returns (r: Outcome<()>)
    requires Pending(p.respond, before, plan, done) && |done| < |plan| && plan[|done|] == s
    requires p.calls == before + done
    modifies p
    ensures p.calls == before + done + [s]
    ensures r.Ok? ==> Pending(p.respond, before, plan, done + [s])
    ensures !r.Ok? ==> Perform(p.respond, before, plan) == Run(r, done + [s])
  {
    PendingStep(p.respond, before, plan, done);
    r := p.Call(s);
  }
}
