/** Identifying the chip behind a debug probe (`src-tauri/src/peripheral/swd.rs`).
    The chip table is a list of families, each a list of chip descriptors; it
    is searched in order, families first and then the chips of each family.
    With the selector "auto" the first chip whose debug ID register holds its
    PID wins; a register at 0xFFFF_FFFF cannot be read and is taken as a match.
    With a chip name, the first chip of that name (in any letter case) wins,
    whatever its register holds; only a failed read makes the search go on.

    The probe and the chip are an oracle: the probes the lister finds, whether
    attaching through a given route succeeds, and what a register read gives.
    Everything the search does to the hardware, and every warning it logs, is
    recorded in order. */
module Swd {
  import opened Base
  import AirIsp

  /** The debug ID register address of chips that have none to read. */
  const Sentinel: u32 := 0xFFFF_FFFF
  /** The probe speed used when the configured baud rate is 0. */
  const DefaultSpeed: u32 := 200
  /** The target the "auto" path attaches to before reading a register. */
  const AutoTarget: string := "cortex-m0"
  /** The selector that asks for identification by register. */
  const Auto: string := "auto"

  /** One row of the chip table. */
  datatype ChipInfo = ChipInfo(
    name: string,
    debugIdcodeReg: u32,
    pid: u16,
    flashSizeReg: u32,
    flashSize: u32,
    ramSize: u32,
    uidReg: u32)

  /** The placeholder `new` starts from before the search fills it in. */
  const Placeholder: ChipInfo := ChipInfo("", 0, 0, 0, 0, 0, 0)

  datatype ChipFamily = ChipFamily(family: string, info: seq<ChipInfo>)

  /** The chips of the table in the order the search visits them. */
  function Flatten(table: seq<ChipFamily>): seq<ChipInfo>
  {
    if table == [] then [] else table[0].info + Flatten(table[1..])
  }

  /** How a session is opened: `Session::auto_attach(target)`, or the probe
      with the given identifier opened at `speed` and attached to `target`. */
  datatype Route = AutoAttach(target: string) | ProbeAttach(identifier: string, speed: u32, target: string)

  /** The hardware as the search sees it: the identifiers of the connected
      probes, whether a session through a route reaches core 0, and what
      `read_word_32` gives at an address (`None` when the read fails). */
  datatype Hardware = Hardware(probes: seq<string>, attach: Route -> bool, read: u32 -> Option<u32>)

  datatype Warning =
    | NoIdRegister                          // named chip without a readable ID register
    | ReadIdFailed(address: u32)            // the ID register could not be read
    | PidMismatch(expected: u16, got: u32)  // the ID register disagrees with the table

  /** What the search does, in order: sessions opened, registers read,
      messages logged. */
  datatype Event = Attach(route: Route) | Read(address: u32) | Warn(warning: Warning) | NoMatchLogged

  /** The outcome of a search together with what it did. */
  datatype Search = Search(result: Outcome<ChipInfo>, log: seq<Event>)

  function After(log: seq<Event>, s: Search): Search
  {
    Search(s.result, log + s.log)
  }

  // ---------------------------------------------------------------------------
  // Choosing the probe (`get_chip_session_name`).

  /** The probe speed: the baud rate, or 200 when it is 0. */
  function Speed(baud: u32): (r: u32)
    ensures r != 0
    ensures baud != 0 ==> r == baud
  {
    if baud == 0 then DefaultSpeed else baud
  }

  /** The first identifier whose lower-case form contains `port`. */
  function FirstProbe(probes: seq<string>, port: string): Option<string>
  {
    if probes == [] then None
    else if Contains(Lower(probes[0]), port) then Some(probes[0])
    else FirstProbe(probes[1..], port)
  }

  /** The route to a chip named `chipName`: auto-attach for the port "auto",
      otherwise the first probe matching the port; `None` when none does. */
  function SessionRoute(c: AirIsp.Config, probes: seq<string>, chipName: string): Option<Route>
  {
    var target := Lower(chipName);
    if c.port == Auto then Some(AutoAttach(target))
    else
      match FirstProbe(probes, c.port)
      case None => None
      case Some(id) => Some(ProbeAttach(id, Speed(c.baud), target))
  }

  /** Opening a session: "get probe fail" when no probe matches, otherwise an
      attach that succeeds or fails. */
  function SessionName(c: AirIsp.Config, hw: Hardware, chipName: string): Search
  {
    match SessionRoute(c, hw.probes, chipName)
    case None => Search(Err(GetProbeFail), [])
    case Some(route) => Search(if hw.attach(route) then Ok(Placeholder) else Err(AttachFailed), [Attach(route)])
  }

  /** The chosen probe is the first whose identifier contains the port. */
  lemma {:induction false} FirstProbeSpec(probes: seq<string>, port: string)
    ensures FirstProbe(probes, port).None? <==> forall k :: 0 <= k < |probes| ==> !Contains(Lower(probes[k]), port)
    ensures FirstProbe(probes, port).Some? ==>
      exists k :: 0 <= k < |probes| && probes[k] == FirstProbe(probes, port).value
        && Contains(Lower(probes[k]), port)
        && forall j :: 0 <= j < k ==> !Contains(Lower(probes[j]), port)
  {
    if probes != [] {
      FirstProbeSpec(probes[1..], port);
      if !Contains(Lower(probes[0]), port) && FirstProbe(probes, port).Some? {
        var k :| 0 <= k < |probes[1..]| && probes[1..][k] == FirstProbe(probes, port).value
          && Contains(Lower(probes[1..][k]), port)
          && forall j :: 0 <= j < k ==> !Contains(Lower(probes[1..][j]), port);
        assert probes[k + 1] == probes[1..][k];
        forall j | 0 <= j < k + 1 ensures !Contains(Lower(probes[j]), port) {
          if j > 0 { assert probes[j] == probes[1..][j - 1]; }
        }
      }
      if FirstProbe(probes, port).None? {
        forall k | 0 <= k < |probes| ensures !Contains(Lower(probes[k]), port) {
          if k > 0 { assert probes[k] == probes[1..][k - 1]; }
        }
      }
    }
  }

  /** The port "auto" always auto-attaches to the lower-case chip name; any
      other port needs a matching probe, which is attached at a non-zero speed. */
  lemma SessionRouteSpec(c: AirIsp.Config, probes: seq<string>, chipName: string)
    ensures c.port == Auto ==> SessionRoute(c, probes, chipName) == Some(AutoAttach(Lower(chipName)))
    ensures c.port != Auto ==>
      (SessionRoute(c, probes, chipName).None? <==> forall k :: 0 <= k < |probes| ==> !Contains(Lower(probes[k]), c.port))
    ensures c.port != Auto && SessionRoute(c, probes, chipName).Some? ==>
      var r := SessionRoute(c, probes, chipName).value;
      r.ProbeAttach? && r.identifier in probes && Contains(Lower(r.identifier), c.port)
        && r.speed == Speed(c.baud) && r.target == Lower(chipName)
  {
    FirstProbeSpec(probes, c.port);
  }

  // ---------------------------------------------------------------------------
  // The search (`get_chip_info`).

  /** What the "auto" path makes of one chip: a match (by sentinel or by the
      register value), a mismatch that moves on, or an error. */
  predicate AutoMatches(hw: Hardware, e: ChipInfo)
  {
    e.debugIdcodeReg == Sentinel
    || (hw.attach(AutoAttach(AutoTarget)) && hw.read(e.debugIdcodeReg) == Some(e.pid))
  }

  predicate AutoPasses(hw: Hardware, e: ChipInfo)
  {
    e.debugIdcodeReg != Sentinel && hw.attach(AutoAttach(AutoTarget))
    && hw.read(e.debugIdcodeReg).Some? && hw.read(e.debugIdcodeReg).value != e.pid
  }

  /** Visiting one row either decides the search or moves on to the next
      row, after doing what `log` records. */
  datatype Visit = Decided(search: Search) | Next(log: seq<Event>)

  /** The search, given what a row's visit did and what the rows after it give. */
  function Then(v: Visit, rest: Search): Search
  {
    match v
    case Decided(s) => s
    case Next(log) => After(log, rest)
  }

  /** One row on the "auto" path: a sentinel row is taken at once; otherwise
      a session is opened and the register read and compared with the PID,
      and a failing attach or read ends the whole search. */
  function AutoVisit(hw: Hardware, e: ChipInfo): Visit
  {
    if e.debugIdcodeReg == Sentinel then Decided(Search(Ok(e), []))
    else
      var route := AutoAttach(AutoTarget);
      if !hw.attach(route) then Decided(Search(Err(AttachFailed), [Attach(route)]))
      else match hw.read(e.debugIdcodeReg)
        case None => Decided(Search(Err(ReadFailed), [Attach(route), Read(e.debugIdcodeReg)]))
        case Some(v) =>
          if v == e.pid then Decided(Search(Ok(e), [Attach(route), Read(e.debugIdcodeReg)]))
          else Next([Attach(route), Read(e.debugIdcodeReg)])
  }

  /** The "auto" path over `entries`, in order. */
  function AutoSearch(hw: Hardware, entries: seq<ChipInfo>): Search
  {
    if entries == [] then Search(Err(NoMatch), [NoMatchLogged])
    else Then(AutoVisit(hw, entries[0]), AutoSearch(hw, entries[1..]))
  }

  /** Whether a table row is a candidate for the selector `name`. */
  predicate Named(e: ChipInfo, name: string)
  {
    Lower(e.name) == Lower(name)
  }

  /** One row on the named path: a row of another name is passed over
      untouched; a candidate with the sentinel register is taken with a
      warning; otherwise a session is opened (its failure ends the search),
      the register is read, a failed read is a warning and the search goes
      on, and a value that is not the PID is a warning but still a match. */
  function NamedVisit(c: AirIsp.Config, hw: Hardware, name: string, e: ChipInfo): Visit
  {
    if !Named(e, name) then Next([])
    else if e.debugIdcodeReg == Sentinel then Decided(Search(Ok(e), [Warn(NoIdRegister)]))
    else
      var session := SessionName(c, hw, name);
      if !session.result.Ok? then Decided(session)
      else match hw.read(e.debugIdcodeReg)
        case None => Next(session.log + [Read(e.debugIdcodeReg), Warn(ReadIdFailed(e.debugIdcodeReg))])
        case Some(v) =>
          Decided(Search(Ok(e), session.log + [Read(e.debugIdcodeReg)]
                                + (if v != e.pid then [Warn(PidMismatch(e.pid, v))] else [])))
  }

  /** The named path over `entries`, in order. */
  function NamedSearch(c: AirIsp.Config, hw: Hardware, name: string, entries: seq<ChipInfo>): Search
  {
    if entries == [] then Search(Err(NoMatch), [NoMatchLogged])
    else Then(NamedVisit(c, hw, name, entries[0]), NamedSearch(c, hw, name, entries[1..]))
  }

  /** How `get_chip_info` searches: by register for the selector "auto"
      (exactly so written), by name for any other selector. */
  datatype Selector = ByRegister | ByName(name: string)

  function SelectorOf(c: AirIsp.Config): Selector
  {
    if c.chip == Auto then ByRegister else ByName(c.chip)
  }

  function VisitRow(c: AirIsp.Config, hw: Hardware, sel: Selector, e: ChipInfo): Visit
  {
    match sel
    case ByRegister => AutoVisit(hw, e)
    case ByName(name) => NamedVisit(c, hw, name, e)
  }

  function FlatSearch(c: AirIsp.Config, hw: Hardware, sel: Selector, entries: seq<ChipInfo>): Search
  {
    match sel
    case ByRegister => AutoSearch(hw, entries)
    case ByName(name) => NamedSearch(c, hw, name, entries)
  }

  /** `get_chip_info` over the whole table. */
  function ChipInfoSearch(c: AirIsp.Config, hw: Hardware, table: seq<ChipFamily>): Search
  {
    FlatSearch(c, hw, SelectorOf(c), Flatten(table))
  }

  // The same search, family by family, as the two nested loops run it.

  /** A visit preceded by what `log` records. */
  function Prepend(log: seq<Event>, v: Visit): Visit
  {
    match v
    case Decided(s) => Decided(After(log, s))
    case Next(l) => Next(log + l)
  }

  /** The inner loop from row `k` of one family: it decides the search, or
      runs off the end of the family having done what its log records. */
  function FamilyVisit(c: AirIsp.Config, hw: Hardware, sel: Selector, chips: seq<ChipInfo>, k: nat): Visit
    requires k <= |chips|
    decreases |chips| - k
  {
    if k == |chips| then Next([])
    else
      match VisitRow(c, hw, sel, chips[k])
      case Decided(s) => Decided(s)
      case Next(l) => Prepend(l, FamilyVisit(c, hw, sel, chips, k + 1))
  }

  /** The outer loop from family `f`. */
  function TableSearch(c: AirIsp.Config, hw: Hardware, sel: Selector, table: seq<ChipFamily>, f: nat): Search
    requires f <= |table|
    decreases |table| - f
  {
    if f == |table| then Search(Err(NoMatch), [NoMatchLogged])
    else Then(FamilyVisit(c, hw, sel, table[f].info, 0), TableSearch(c, hw, sel, table, f + 1))
  }

  lemma ThenPrepend(log: seq<Event>, v: Visit, rest: Search)
    ensures Then(Prepend(log, v), rest) == After(log, Then(v, rest))
  {
  }

  lemma AfterNothing(s: Search)
    ensures After([], s) == s
  {
    assert [] + s.log == s.log;
  }

  /** The rows of one family and then `tail`, searched flat, are the
      family's loop followed by the search of `tail`. */
  lemma {:induction false} FamilyFlat(c: AirIsp.Config, hw: Hardware, sel: Selector, chips: seq<ChipInfo>, k: nat, tail: seq<ChipInfo>)
    requires k <= |chips|
    ensures FlatSearch(c, hw, sel, chips[k..] + tail) == Then(FamilyVisit(c, hw, sel, chips, k), FlatSearch(c, hw, sel, tail))
    decreases |chips| - k
  {
    if k == |chips| {
      assert chips[k..] + tail == tail;
      AfterNothing(FlatSearch(c, hw, sel, tail));
    } else {
      var rest := chips[k..] + tail;
      assert rest != [] && rest[0] == chips[k] && rest[1..] == chips[k + 1..] + tail;
      assert FlatSearch(c, hw, sel, rest) ==
        Then(VisitRow(c, hw, sel, chips[k]), FlatSearch(c, hw, sel, chips[k + 1..] + tail));
      FamilyFlat(c, hw, sel, chips, k + 1, tail);
      match VisitRow(c, hw, sel, chips[k])
      case Decided(s) =>
      case Next(l) =>
        ThenPrepend(l, FamilyVisit(c, hw, sel, chips, k + 1), FlatSearch(c, hw, sel, tail));
    }
  }

  /** The nested loops search the table exactly as the flat search does. */
  lemma {:induction false} TableFlat(c: AirIsp.Config, hw: Hardware, sel: Selector, table: seq<ChipFamily>, f: nat)
    requires f <= |table|
    ensures TableSearch(c, hw, sel, table, f) == FlatSearch(c, hw, sel, Flatten(table[f..]))
    decreases |table| - f
  {
    if f == |table| {
      assert table[f..] == [];
    } else {
      FlattenCons(table, f);
      TableFlat(c, hw, sel, table, f + 1);
      assert table[f].info[0..] == table[f].info;
      FamilyFlat(c, hw, sel, table[f].info, 0, Flatten(table[f + 1..]));
    }
  }

  // Properties of the "auto" path.

  /** The "auto" path returns the first row that matches, provided every row
      before it was read and found to hold another value. */
  lemma {:induction false} AutoSearchFinds(hw: Hardware, entries: seq<ChipInfo>, k: nat)
    requires k < |entries| && AutoMatches(hw, entries[k])
    requires forall j :: 0 <= j < k ==> AutoPasses(hw, entries[j])
    ensures AutoSearch(hw, entries).result == Ok(entries[k])
  {
    if k > 0 {
      assert AutoPasses(hw, entries[0]);
      forall j | 0 <= j < k - 1 ensures AutoPasses(hw, entries[1..][j]) {
        assert entries[1..][j] == entries[j + 1];
      }
      AutoSearchFinds(hw, entries[1..], k - 1);
    }
  }

  /** Conversely, whatever the "auto" path returns is such a row: it never
      returns a chip whose readable ID register disagrees with its PID. */
  lemma {:induction false} AutoSearchSound(hw: Hardware, entries: seq<ChipInfo>)
    requires AutoSearch(hw, entries).result.Ok?
    ensures exists k :: (0 <= k < |entries| && AutoSearch(hw, entries).result.value == entries[k]
      && AutoMatches(hw, entries[k]) && forall j :: 0 <= j < k ==> AutoPasses(hw, entries[j]))
  {
    var e := entries[0];
    if !AutoMatches(hw, e) {
      assert AutoPasses(hw, e);
      AutoSearchSound(hw, entries[1..]);
      var k :| 0 <= k < |entries[1..]| && AutoSearch(hw, entries[1..]).result.value == entries[1..][k]
        && AutoMatches(hw, entries[1..][k]) && forall j :: 0 <= j < k ==> AutoPasses(hw, entries[1..][j]);
      assert entries[k + 1] == entries[1..][k];
      forall j | 0 <= j < k + 1 ensures AutoPasses(hw, entries[j]) {
        if j > 0 { assert entries[j] == entries[1..][j - 1]; }
      }
    } else {
      assert AutoSearch(hw, entries).result.value == entries[0];
    }
  }

  /** "no match chip" exactly when every row was read and disagreed. */
  lemma {:induction false} AutoSearchNoMatch(hw: Hardware, entries: seq<ChipInfo>)
    ensures AutoSearch(hw, entries).result == Err(NoMatch) <==>
      forall j :: 0 <= j < |entries| ==> AutoPasses(hw, entries[j])
  {
    if entries != [] {
      AutoSearchNoMatch(hw, entries[1..]);
      if forall j :: 0 <= j < |entries[1..]| ==> AutoPasses(hw, entries[1..][j]) {
        if AutoPasses(hw, entries[0]) {
          forall j | 0 <= j < |entries| ensures AutoPasses(hw, entries[j]) {
            if j > 0 { assert entries[j] == entries[1..][j - 1]; }
          }
        }
      }
      if forall j :: 0 <= j < |entries| ==> AutoPasses(hw, entries[j]) {
        assert AutoPasses(hw, entries[0]);
        forall j | 0 <= j < |entries[1..]| ensures AutoPasses(hw, entries[1..][j]) {
          assert entries[1..][j] == entries[j + 1];
        }
      }
    }
  }

  /** An attach or read failure at the first row that does not pass ends the
      search with that error. */
  lemma {:induction false} AutoSearchAborts(hw: Hardware, entries: seq<ChipInfo>, k: nat)
    requires k < |entries| && entries[k].debugIdcodeReg != Sentinel
    requires !hw.attach(AutoAttach(AutoTarget)) || hw.read(entries[k].debugIdcodeReg).None?
    requires forall j :: 0 <= j < k ==> AutoPasses(hw, entries[j])
    ensures AutoSearch(hw, entries).result ==
      if hw.attach(AutoAttach(AutoTarget)) then Err(ReadFailed) else Err(AttachFailed)
  {
    if k > 0 {
      assert AutoPasses(hw, entries[0]);
      forall j | 0 <= j < k - 1 ensures AutoPasses(hw, entries[1..][j]) {
        assert entries[1..][j] == entries[j + 1];
      }
      AutoSearchAborts(hw, entries[1..], k - 1);
    }
  }

  /** A leading sentinel row is returned with no session and no read. */
  lemma AutoSentinelFirst(hw: Hardware, e: ChipInfo, rest: seq<ChipInfo>)
    requires e.debugIdcodeReg == Sentinel
    ensures AutoSearch(hw, [e] + rest) == Search(Ok(e), [])
  {
  }

  /** The "auto" path reads only registers of rows it visited, each of them a
      real register, never the sentinel address. */
  lemma {:induction false} AutoSearchReads(hw: Hardware, entries: seq<ChipInfo>)
    ensures forall i :: 0 <= i < |AutoSearch(hw, entries).log| && AutoSearch(hw, entries).log[i].Read? ==>
      AutoSearch(hw, entries).log[i].address != Sentinel
    ensures forall i :: 0 <= i < |AutoSearch(hw, entries).log| && AutoSearch(hw, entries).log[i].Attach? ==>
      AutoSearch(hw, entries).log[i].route == AutoAttach(AutoTarget)
  {
    if entries != [] && entries[0].debugIdcodeReg != Sentinel {
      AutoSearchReads(hw, entries[1..]);
    }
  }

  // Properties of the named path.

  /** The named path returns only a row of the requested name. */
  lemma {:induction false} NamedSearchSound(c: AirIsp.Config, hw: Hardware, name: string, entries: seq<ChipInfo>)
    requires NamedSearch(c, hw, name, entries).result.Ok?
    ensures NamedSearch(c, hw, name, entries).result.value in entries
    ensures Named(NamedSearch(c, hw, name, entries).result.value, name)
  {
    var e := entries[0];
    if !Named(e, name) || (e.debugIdcodeReg != Sentinel && hw.read(e.debugIdcodeReg).None?) {
      NamedSearchSound(c, hw, name, entries[1..]);
    }
  }

  /** Rows of other names are passed over without touching the hardware. */
  lemma {:induction false} NamedSkipsOthers(c: AirIsp.Config, hw: Hardware, name: string, others: seq<ChipInfo>, rest: seq<ChipInfo>)
    requires forall j :: 0 <= j < |others| ==> !Named(others[j], name)
    ensures NamedSearch(c, hw, name, others + rest) == NamedSearch(c, hw, name, rest)
  {
    if others != [] {
      var all := others + rest;
      assert all != [] && all[0] == others[0] && all[1..] == others[1..] + rest;
      assert NamedVisit(c, hw, name, others[0]) == Next([]);
      assert forall j :: 0 <= j < |others[1..]| ==> !Named(others[1..][j], name) by {
        forall j | 0 <= j < |others[1..]| ensures !Named(others[1..][j], name) {
          assert others[1..][j] == others[j + 1];
        }
      }
      NamedSkipsOthers(c, hw, name, others[1..], rest);
      AfterNothing(NamedSearch(c, hw, name, rest));
    } else {
      assert others + rest == rest;
    }
  }

  /** A named chip with the sentinel register is returned with one warning
      and no session or read, in whatever case the name was written. */
  lemma NamedSentinel(c: AirIsp.Config, hw: Hardware, name: string, others: seq<ChipInfo>, e: ChipInfo, rest: seq<ChipInfo>)
    requires forall j :: 0 <= j < |others| ==> !Named(others[j], name)
    requires Named(e, name) && e.debugIdcodeReg == Sentinel
    ensures NamedSearch(c, hw, name, others + [e] + rest) == Search(Ok(e), [Warn(NoIdRegister)])
  {
    assert others + [e] + rest == others + ([e] + rest);
    NamedSkipsOthers(c, hw, name, others, [e] + rest);
  }

  /** A named chip whose register reads back another value is still
      returned, with a warning naming both values. */
  lemma NamedMismatchAccepted(c: AirIsp.Config, hw: Hardware, name: string, others: seq<ChipInfo>, e: ChipInfo, rest: seq<ChipInfo>)
    requires forall j :: 0 <= j < |others| ==> !Named(others[j], name)
    requires Named(e, name) && e.debugIdcodeReg != Sentinel
    requires SessionName(c, hw, name).result.Ok?
    requires hw.read(e.debugIdcodeReg).Some?
    ensures NamedSearch(c, hw, name, others + [e] + rest).result == Ok(e)
    ensures var v := hw.read(e.debugIdcodeReg).value;
      v != e.pid ==> Warn(PidMismatch(e.pid, v)) in NamedSearch(c, hw, name, others + [e] + rest).log
  {
    assert others + [e] + rest == others + ([e] + rest);
    NamedSkipsOthers(c, hw, name, others, [e] + rest);
    var log := NamedSearch(c, hw, name, [e] + rest).log;
    var v := hw.read(e.debugIdcodeReg).value;
    if v != e.pid {
      assert log[|log| - 1] == Warn(PidMismatch(e.pid, v));
    }
  }

  /** A named chip whose register cannot be read is dropped with a warning,
      and the search goes on with the rows after it. */
  lemma NamedReadFailureContinues(c: AirIsp.Config, hw: Hardware, name: string, e: ChipInfo, rest: seq<ChipInfo>)
    requires Named(e, name) && e.debugIdcodeReg != Sentinel
    requires SessionName(c, hw, name).result.Ok? && hw.read(e.debugIdcodeReg).None?
    ensures NamedSearch(c, hw, name, [e] + rest).result == NamedSearch(c, hw, name, rest).result
    ensures Warn(ReadIdFailed(e.debugIdcodeReg)) in NamedSearch(c, hw, name, [e] + rest).log
  {
    assert ([e] + rest)[1..] == rest;
    var pre := SessionName(c, hw, name).log + [Read(e.debugIdcodeReg), Warn(ReadIdFailed(e.debugIdcodeReg))];
    assert NamedSearch(c, hw, name, [e] + rest).log == pre + NamedSearch(c, hw, name, rest).log;
    assert NamedSearch(c, hw, name, [e] + rest).log[|pre| - 1] == Warn(ReadIdFailed(e.debugIdcodeReg));
  }

  /** A session that cannot be opened ends the named search at the first
      candidate with a readable register. */
  lemma NamedSessionFailure(c: AirIsp.Config, hw: Hardware, name: string, e: ChipInfo, rest: seq<ChipInfo>)
    requires Named(e, name) && e.debugIdcodeReg != Sentinel && !SessionName(c, hw, name).result.Ok?
    ensures NamedSearch(c, hw, name, [e] + rest).result == SessionName(c, hw, name).result
    ensures NamedSearch(c, hw, name, [e] + rest).result in {Err(GetProbeFail), Err(AttachFailed)}
  {
  }

  /** With no row of that name the search fails without touching the hardware. */
  lemma NamedNoCandidate(c: AirIsp.Config, hw: Hardware, name: string, entries: seq<ChipInfo>)
    requires forall j :: 0 <= j < |entries| ==> !Named(entries[j], name)
    ensures NamedSearch(c, hw, name, entries) == Search(Err(NoMatch), [NoMatchLogged])
  {
    assert entries + [] == entries;
    NamedSkipsOthers(c, hw, name, entries, []);
  }

  /** The selector's letter case does not matter on the named path. */
  lemma {:induction false} NamedCaseInsensitive(c: AirIsp.Config, hw: Hardware, name: string, entries: seq<ChipInfo>)
    ensures NamedSearch(c, hw, name, entries).result == NamedSearch(c, hw, Lower(name), entries).result
  {
    LowerIdempotent(name);
    if entries != [] {
      NamedCaseInsensitive(c, hw, name, entries[1..]);
      LowerIdempotent(name);
      assert Lower(Lower(name)) == Lower(name);
      SessionCaseInsensitive(c, hw, name);
    }
  }

  lemma SessionCaseInsensitive(c: AirIsp.Config, hw: Hardware, name: string)
    ensures SessionName(c, hw, name) == SessionName(c, hw, Lower(name))
  {
    LowerIdempotent(name);
  }

  // ---------------------------------------------------------------------------
  // The peripheral as written.

  /** The debug-probe peripheral: its configuration, the table, the hardware,
      and the chip it identified. `log` records what it did to the hardware. */
  class Swd {
    const config: AirIsp.Config
    const table: seq<ChipFamily>
    const hw: Hardware
    var info: ChipInfo
    var log: seq<Event>

    constructor Init(config: AirIsp.Config, table: seq<ChipFamily>, hw: Hardware)
      ensures this.config == config && this.table == table && this.hw == hw
      ensures info == Placeholder && log == []
    {
      this.config := config;
      this.table := table;
      this.hw := hw;
      info := Placeholder;
      log := [];
    }

    /** `get_chip_session_name`: the session is not kept; what matters is
        whether it opened. */
    method GetChipSessionName(chipName: string) returns (r: Outcome<()>)
      modifies this`log
      ensures var s := SessionName(config, hw, chipName);
        log == old(log) + s.log && (r.Ok? <==> s.result.Ok?) && (!r.Ok? ==> r == s.result.PropagateFailure())
    {
      var name := Lower(chipName);
      var speed := config.baud;
      if speed == 0 {
        speed := 200;
      }
      if config.port == "auto" {
        log := log + [Attach(AutoAttach(name))];
        if !hw.attach(AutoAttach(name)) {
          return Err(AttachFailed);
        }
        return Ok(());
      }
      var probes := hw.probes;
      var i := 0;
      while i < |probes|
        invariant 0 <= i <= |probes|
        invariant FirstProbe(probes, config.port) == FirstProbe(probes[i..], config.port)
        invariant log == old(log)
      {
        assert probes[i..][1..] == probes[i + 1..];
        if Contains(Lower(probes[i]), config.port) {
          var route := ProbeAttach(probes[i], speed, name);
          log := log + [Attach(route)];
          if !hw.attach(route) {
            return Err(AttachFailed);
          }
          return Ok(());
        }
        i := i + 1;
      }
      return Err(GetProbeFail);
    }

    /** `get_chip_info`: the nested loops over families and their chips. */
    method GetChipInfo() returns (r: Outcome<ChipInfo>)
      modifies this`log
      ensures var s := ChipInfoSearch(config, hw, table); r == s.result && log == old(log) + s.log
    {
      var sel := if config.chip == "auto" then ByRegister else ByName(config.chip);
      TableFlat(config, hw, sel, table, 0);
      assert table[0..] == table;
      ghost var goal := TableSearch(config, hw, sel, table, 0);
      ghost var done: seq<Event> := [];
      var f := 0;
      while f < |table|
        invariant 0 <= f <= |table|
        invariant log == old(log) + done
        invariant goal == After(done, TableSearch(config, hw, sel, table, f))
      {
        var decided, found, moved := ScanFamily(sel, table[f].info);
        if decided {
          Assoc(old(log), done, moved);
          return found;
        }
        Assoc(old(log), done, moved);
        done := done + moved;
        f := f + 1;
      }
      Assoc(old(log), done, [NoMatchLogged]);
      log := log + [NoMatchLogged];
      return Err(NoMatch);
    }

    /** The inner loop: the chips of one family. `moved` is what it logged. */
    method ScanFamily(sel: Selector, chips: seq<ChipInfo>) returns (decided: bool, r: Outcome<ChipInfo>, ghost moved: seq<Event>)
      modifies this`log
      ensures log == old(log) + moved
      ensures FamilyVisit(config, hw, sel, chips, 0) == if decided then Decided(Search(r, moved)) else Next(moved)
    {
      moved := [];
      var k := 0;
      while k < |chips|
        invariant 0 <= k <= |chips|
        invariant log == old(log) + moved
        invariant FamilyVisit(config, hw, sel, chips, 0) == Prepend(moved, FamilyVisit(config, hw, sel, chips, k))
      {
        ghost var v := VisitRow(config, hw, sel, chips[k]);
        if sel.ByRegister? {
          decided, r := AutoRow(chips[k]);
        } else {
          decided, r := NamedRow(chips[k], sel.name);
        }
        if decided {
          Assoc(old(log), moved, v.search.log);
          moved := moved + v.search.log;
          return;
        }
        Assoc(old(log), moved, v.log);
        PrependTwice(moved, v.log, FamilyVisit(config, hw, sel, chips, k + 1));
        moved := moved + v.log;
        k := k + 1;
      }
      return false, Err(NoMatch), moved;
    }

    /** One row of the "auto" loop. */
    method AutoRow(e: ChipInfo) returns (decided: bool, r: Outcome<ChipInfo>)
      modifies this`log
      ensures Visited(AutoVisit(hw, e), decided, r, old(log), log)
    {
      if e.debugIdcodeReg == 0xFFFF_FFFF {
        return true, Ok(e);
      }
      log := log + [Attach(AutoAttach(AutoTarget))];
      if !hw.attach(AutoAttach(AutoTarget)) {
        return true, Err(AttachFailed);
      }
      var pid := hw.read(e.debugIdcodeReg);
      log := log + [Read(e.debugIdcodeReg)];
      if pid.None? {
        return true, Err(ReadFailed);
      }
      if pid.value != e.pid {
        return false, Err(NoMatch);
      }
      return true, Ok(e);
    }

    /** One row of the named loop. */
    method NamedRow(e: ChipInfo, chipName: string) returns (decided: bool, r: Outcome<ChipInfo>)
      modifies this`log
      ensures Visited(NamedVisit(config, hw, chipName, e), decided, r, old(log), log)
    {
      if Lower(e.name) != Lower(chipName) {
        return false, Err(NoMatch);
      }
      if e.debugIdcodeReg == 0xFFFF_FFFF {
        log := log + [Warn(NoIdRegister)];
        return true, Ok(e);
      }
      var session := GetChipSessionName(chipName);
      if !session.Ok? {
        return true, session.PropagateFailure();
      }
      var pid := hw.read(e.debugIdcodeReg);
      log := log + [Read(e.debugIdcodeReg)];
      if pid.None? {
        log := log + [Warn(ReadIdFailed(e.debugIdcodeReg))];
        return false, Err(ReadFailed);
      }
      if pid.value != e.pid {
        log := log + [Warn(PidMismatch(e.pid, pid.value))];
      }
      return true, Ok(e);
    }

    /** `get_chip_pid`: the PID of the identified chip, widened to 32 bits. */
    method GetChipPid() returns (r: Outcome<u32>)
      modifies this`log
      ensures var s := ChipInfoSearch(config, hw, table);
        (r.Ok? <==> s.result.Ok?) && (r.Ok? ==> r.value == s.result.value.pid)
        && (!r.Ok? ==> r == s.result.PropagateFailure())
      ensures log == old(log) + ChipInfoSearch(config, hw, table).log
    {
      var info := GetChipInfo();
      if !info.Ok? {
        return info.PropagateFailure();
      }
      return Ok(info.value.pid);
    }
  }

  /** A row's method did what its visit says: it decided the search with
      the visit's outcome, or it moved on. */
  ghost predicate Visited(v: Visit, decided: bool, r: Outcome<ChipInfo>, before: seq<Event>, after: seq<Event>)
  {
    decided == v.Decided?
    && (decided ==> r == v.search.result && after == before + v.search.log)
    && (!decided ==> after == before + v.log)
  }

  lemma Assoc(a: seq<Event>, b: seq<Event>, c: seq<Event>)
    ensures a + b + c == a + (b + c)
  {
  }

  lemma PrependTwice(a: seq<Event>, b: seq<Event>, v: Visit)
    ensures Prepend(a, Prepend(b, v)) == Prepend(a + b, v)
  {
  }

  lemma FlattenCons(table: seq<ChipFamily>, f: nat)
    requires f < |table|
    ensures Flatten(table[f..]) == table[f].info + Flatten(table[f + 1..])
  {
    assert table[f..][1..] == table[f + 1..];
  }

  /** `Swd::new`: identify the chip and keep its descriptor, or exit with
      the status reserved for "no matching chip" on any failure. */
  method NewSwd(config: AirIsp.Config, table: seq<ChipFamily>, hw: Hardware) returns (r: Outcome<Swd>)
    ensures var s := ChipInfoSearch(config, hw, table);
      (r.Ok? <==> s.result.Ok?) && (!r.Ok? ==> r == Exit(NoMatchChip))
    ensures r.Ok? ==> (fresh(r.value) && r.value.info == ChipInfoSearch(config, hw, table).result.value
      && r.value.log == ChipInfoSearch(config, hw, table).log
      && r.value.config == config && r.value.table == table && r.value.hw == hw)
  {
    var swd := new Swd.Init(config, table, hw);
    var info := swd.GetChipInfo();
    if !info.Ok? {
      return Exit(NoMatchChip);
    }
    swd.info := info.value;
    return Ok(swd);
  }
}
