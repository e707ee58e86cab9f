/** External interrupt lines: sixteen lines, each of which one port can have. */
module Exti {
  import opened CTypes
  import opened Numerals
  import opened Bits
  import opened Gpio

  const LINES := 16

  datatype Trigger = Rising | Falling | Both

  /** One line in the registers: interrupt and event mask, edges, and port number. */
  datatype Line = Line(interrupt: bool, event: bool, falling: bool, rising: bool, port: nat) {
    predicate Busy() { interrupt || event }

    function Detached(): Line { Line(false, false, false, false, port) }
  }

  function Attached(trigger: Trigger, port: nat): Line {
    Line(true, false, trigger != Rising, trigger != Falling, port)
  }

  type Lines = l: seq<Line> | |l| == LINES witness seq(LINES, _ => Line(false, false, false, false, 0))

  /** No masked line below `end` is in use. */
  predicate FreeBelow(lines: Lines, mask: uint16, end: nat) {
    forall j :: 0 <= j < end && j < LINES && Has(mask, j) ==> !lines[j].Busy()
  }

  /** Attaching goes through the masked lines below `end` from the lowest, up to the
      first one that is in use. */
  function AttachBelow(lines: Lines, mask: uint16, end: nat, trigger: Trigger, port: nat): (Lines, bool)
    requires end <= LINES
  {
    if end == 0 then (lines, true)
    else
      var (l, ok) := AttachBelow(lines, mask, end - 1, trigger, port);
      if !ok || !Has(mask, end - 1) then (l, ok)
      else if l[end - 1].Busy() then (l, false)
      else (l[end - 1 := Attached(trigger, port)], true)
  }

  lemma {:induction false} SucceedsIfFree(lines: Lines, mask: uint16, end: nat, trigger: Trigger, port: nat)
    requires end <= LINES
    ensures AttachBelow(lines, mask, end, trigger, port).1 <==> FreeBelow(lines, mask, end)
    ensures forall i :: end <= i < LINES ==> AttachBelow(lines, mask, end, trigger, port).0[i] == lines[i]
  {
    if end > 0 {
      SucceedsIfFree(lines, mask, end - 1, trigger, port);
    }
  }

  lemma {:induction false} LineAfterAttach(lines: Lines, mask: uint16, end: nat, trigger: Trigger, port: nat, i: nat)
    requires end <= LINES && i < LINES
    ensures AttachBelow(lines, mask, end, trigger, port).0[i]
            == if i < end && Has(mask, i) && FreeBelow(lines, mask, i + 1) then Attached(trigger, port) else lines[i]
  {
    if end > 0 {
      LineAfterAttach(lines, mask, end - 1, trigger, port, i);
      SucceedsIfFree(lines, mask, end - 1, trigger, port);
    }
  }

  /** Attaching succeeds just if all masked lines are free.  In any case the masked
      lines below the first one in use are attached, and no other line is touched. */
  lemma AttachesUpToBusy(lines: Lines, mask: uint16, trigger: Trigger, port: nat)
    ensures AttachBelow(lines, mask, LINES, trigger, port).1 <==> FreeBelow(lines, mask, LINES)
    ensures forall i :: 0 <= i < LINES ==>
              AttachBelow(lines, mask, LINES, trigger, port).0[i]
              == if Has(mask, i) && FreeBelow(lines, mask, i + 1) then Attached(trigger, port) else lines[i]
  {
    SucceedsIfFree(lines, mask, LINES, trigger, port);
    forall i | 0 <= i < LINES
      ensures AttachBelow(lines, mask, LINES, trigger, port).0[i]
              == if Has(mask, i) && FreeBelow(lines, mask, i + 1) then Attached(trigger, port) else lines[i]
    {
      LineAfterAttach(lines, mask, LINES, trigger, port, i);
    }
  }

  /** A line is in use if it has its interrupt or its event mask set. */
  lemma AttachesIfUnused(lines: Lines, mask: uint16, trigger: Trigger, port: nat)
    ensures AttachBelow(lines, mask, LINES, trigger, port).1
       <==> forall i :: 0 <= i < 16 && Has(mask, i) ==> !lines[i].interrupt && !lines[i].event
  {
    SucceedsIfFree(lines, mask, LINES, trigger, port);
    if AttachBelow(lines, mask, LINES, trigger, port).1 {
      forall i | 0 <= i < 16 && Has(mask, i)
        ensures !lines[i].interrupt && !lines[i].event
      {
        assert !lines[i].Busy();
      }
    }
  }

  /** What an attached line is like. */
  lemma EdgesAfterAttach(lines: Lines, mask: uint16, trigger: Trigger, port: nat, i: nat)
    requires i < LINES && Has(mask, i) && FreeBelow(lines, mask, i + 1)
    ensures var l := AttachBelow(lines, mask, LINES, trigger, port).0[i];
            && l.interrupt && !l.event && l.port == port
            && (l.falling <==> trigger == Falling || trigger == Both)
            && (l.rising <==> trigger == Rising || trigger == Both)
  {
    LineAfterAttach(lines, mask, LINES, trigger, port, i);
  }

  function DetachAll(lines: Lines, mask: uint16): (r: Lines)
    ensures forall i :: 0 <= i < LINES ==> r[i] == if Has(mask, i) then lines[i].Detached() else lines[i]
  {
    seq(LINES, i requires 0 <= i < LINES => if Has(mask, i) then lines[i].Detached() else lines[i])
  }

  // --- Who has which line ---

  datatype Command = AttachTo(mask: uint16, port: nat, trigger: Trigger) | DetachFrom(mask: uint16)

  function Apply(lines: Lines, c: Command): Lines {
    match c
    case AttachTo(mask, port, trigger) => AttachBelow(lines, mask, LINES, trigger, port).0
    case DetachFrom(mask) => DetachAll(lines, mask)
  }

  function Run(lines: Lines, commands: seq<Command>): Lines {
    if commands == [] then lines
    else Apply(Run(lines, commands[..|commands| - 1]), commands[|commands| - 1])
  }

  /** A line's owner: the port and trigger of the attach that took it. */
  datatype Owner = Nobody | Owner(port: nat, trigger: Trigger)

  /** The owner of line i after some commands.  An attach takes the line if the line
      and all lower ones of its mask have no owner; a detach gives it back. */
  function OwnerAfter(commands: seq<Command>, i: nat): Owner
    decreases |commands|
  {
    if commands == [] then Nobody
    else
      var front, c := commands[..|commands| - 1], commands[|commands| - 1];
      if !Has(c.mask, i) then OwnerAfter(front, i)
      else if c.DetachFrom? then Nobody
      else if forall j :: 0 <= j <= i && Has(c.mask, j) ==> OwnerAfter(front, j).Nobody? then Owner(c.port, c.trigger)
      else OwnerAfter(front, i)
  }

  /** A line in the registers as its owner has it: enabled for interrupts only, with
      the edges of the trigger and no other, and connected to the port. */
  predicate Serves(line: Line, owner: Owner) {
    match owner
    case Nobody => !line.interrupt && !line.event && !line.falling && !line.rising
    case Owner(port, trigger) =>
      && line.interrupt && !line.event && line.port == port
      && (line.falling <==> trigger == Falling || trigger == Both)
      && (line.rising <==> trigger == Rising || trigger == Both)
  }

  const CLEARED: Lines := seq(LINES, _ => Line(false, false, false, false, 0))

  predicate ServesAt(lines: Lines, commands: seq<Command>, j: nat)
    requires j < LINES
  {
    Serves(lines[j], OwnerAfter(commands, j)) && (lines[j].Busy() <==> !OwnerAfter(commands, j).Nobody?)
  }

  lemma CommandServes(lines: Lines, commands: seq<Command>, c: Command, i: nat)
    requires i < LINES && forall j: nat :: j <= i ==> ServesAt(lines, commands, j)
    ensures ServesAt(Apply(lines, c), commands + [c], i)
  {
    assert (commands + [c])[..|commands|] == commands;
    assert ServesAt(lines, commands, i);
    if c.AttachTo? {
      LineAfterAttach(lines, c.mask, LINES, c.trigger, c.port, i);
      if Has(c.mask, i) {
        FreeIfUnowned(lines, commands, c.mask, i);
      }
    }
  }

  lemma FreeIfUnowned(lines: Lines, commands: seq<Command>, mask: uint16, i: nat)
    requires i < LINES && forall j: nat :: j <= i ==> ServesAt(lines, commands, j)
    ensures FreeBelow(lines, mask, i + 1)
            <==> forall j :: 0 <= j <= i && Has(mask, j) ==> OwnerAfter(commands, j).Nobody?
  {
    forall j: nat | j <= i
      ensures lines[j].Busy() <==> !OwnerAfter(commands, j).Nobody?
    {
      assert ServesAt(lines, commands, j);
    }
  }

  /** Over all runs from cleared registers every line serves its owner. */
  lemma {:induction false} LinesServeOwners(commands: seq<Command>, i: nat)
    requires i < LINES
    ensures ServesAt(Run(CLEARED, commands), commands, i)
    decreases |commands|
  {
    if commands != [] {
      var front, c := commands[..|commands| - 1], commands[|commands| - 1];
      forall j: nat | j <= i
        ensures ServesAt(Run(CLEARED, front), front, j)
      {
        LinesServeOwners(front, j);
      }
      CommandServes(Run(CLEARED, front), front, c, i);
      assert front + [c] == commands;
    }
  }

  // --- The driver ---

  class Controller {
    var imr: uint32
    var emr: uint32
    var ftsr: uint32
    var rtsr: uint32
    const exticr: array<uint32>

    ghost predicate Valid() { exticr.Length == 4 }

    ghost function LineAt(i: nat): Line
      requires Valid() && i < LINES
      reads this, exticr
    {
      Line(Bit(imr, i), Bit(emr, i), Bit(ftsr, i), Bit(rtsr, i), PinField(exticr[i / 4], 4, i % 4))
    }

    ghost function Now(): (l: Lines)
      requires Valid()
      reads this, exticr
      ensures forall i :: 0 <= i < LINES ==> l[i] == LineAt(i)
    {
      seq(LINES, i requires 0 <= i < LINES reads this, exticr requires Valid() => LineAt(i))
    }

    constructor ()
      ensures Valid() && fresh(exticr)
      ensures Now() == seq(LINES, _ => Line(false, false, false, false, 0))
    {
      imr, emr, ftsr, rtsr := 0, 0, 0, 0;
      exticr := new uint32[4](_ => 0);
      new;
      forall i | 0 <= i < LINES
        ensures LineAt(i) == Line(false, false, false, false, 0)
      {
        BitOfZero(i);
        FieldOfZero(4 * (i % 4), 4);
      }
    }

    /** The registers after any run of commands, bit by bit: a line that has an owner is
        enabled for interrupts, with the edges of the owner's trigger and no other, and
        its nibble of the port registers holds the owner's port; a line without owner
        has no mask and no edge. */
    lemma RegistersServeOwners(commands: seq<Command>, i: nat)
      requires Valid() && Now() == Run(CLEARED, commands) && i < 16
      ensures !Bit(emr, i) && (Bit(imr, i) <==> OwnerAfter(commands, i) != Nobody)
      ensures match OwnerAfter(commands, i)
              case Nobody => !Bit(rtsr, i) && !Bit(ftsr, i)
              case Owner(port, trigger) =>
                && (Bit(rtsr, i) <==> trigger == Rising || trigger == Both)
                && (Bit(ftsr, i) <==> trigger == Falling || trigger == Both)
                && Power(2, 4 * (i % 4)) > 0 && exticr[i / 4] / Power(2, 4 * (i % 4)) % 16 == port
    {
      LinesServeOwners(commands, i);
      PinFieldIsQuotient(exticr[i / 4], 4, i % 4);
      assert Now()[i] == LineAt(i);
    }

    /** Connects the line to the port and enables it with the edges of the trigger. */
    method EnableLine(k: nat, mask: uint16, port: Port, trigger: Trigger)
      requires Valid() && port.Valid() && k < LINES && IsLine(mask, k)
      modifies this, exticr
      ensures Now() == old(Now())[k := Attached(trigger, port.source)]
    {
      ghost var before := Now();
      exticr[k / 4] := WriteField(exticr[k / 4], 4, k % 4, port.source);
      imr := ClearBits(imr, mask);
      emr := ClearBits(emr, mask);
      imr := SetBits(imr, mask);
      ftsr := ClearBits(ftsr, mask);
      rtsr := ClearBits(rtsr, mask);
      if trigger == Falling {
        ftsr := SetBits(ftsr, mask);
      } else if trigger == Rising {
        rtsr := SetBits(rtsr, mask);
      } else {
        ftsr := SetBits(ftsr, mask);
        rtsr := SetBits(rtsr, mask);
      }
      forall i | 0 <= i < LINES
        ensures LineAt(i) == if i == k then Attached(trigger, port.source) else before[i]
      {
        assert before[i].port == old(PinField(exticr[i / 4], 4, i % 4));
      }
    }

    method Detach(mask: uint16)
      requires Valid()
      modifies this`imr, this`emr, this`ftsr, this`rtsr
      ensures Now() == DetachAll(old(Now()), mask)
    {
      ghost var before := Now();
      imr := ClearBits(imr, mask);
      emr := ClearBits(emr, mask);
      ftsr := ClearBits(ftsr, mask);
      rtsr := ClearBits(rtsr, mask);
      forall i | 0 <= i < LINES
        ensures LineAt(i) == if Has(mask, i) then before[i].Detached() else before[i]
      {
      }
    }

    /** One line: refused if it is in use. */
    method AttachLine(mask: uint16, port: Port, trigger: Trigger) returns (ok: bool)
      requires Valid() && port.Valid() && mask != 0 && And(mask, mask - 1) == 0
      modifies this, exticr, port`moder, port`pupdr, port`otyper, port`ospeedr
      ensures ((Now(), ok), Pins(port))
              == (AttachBelow(old(Now()), mask, LINES, trigger, port.source),
                  Inputs(old(Pins(port)), mask, FirstBusy(old(Now()), mask, 0), trigger))
    {
      ghost var k := SingleBit(mask);
      LineBelow16(mask, k);
      PowerIsLine(mask, k);
      AttachOne(Now(), mask, k, LINES, trigger, port.source);
      FirstOfLine(Now(), mask, k, 0);
      InputOne(Pins(port), mask, k, LINES, trigger);
      InputOne(Pins(port), mask, k, k, trigger);
      ok := TryLine(k, mask, port, trigger);
    }

    method TryLine(ghost k: nat, mask: uint16, port: Port, trigger: Trigger) returns (ok: bool)
      requires Valid() && port.Valid() && k < LINES && mask == Power(2, k)
      modifies this, exticr, port`moder, port`pupdr, port`otyper, port`ospeedr
      ensures ok == !old(Now())[k].Busy()
      ensures Now() == if ok then old(Now())[k := Attached(trigger, port.source)] else old(Now())
      ensures Pins(port) == if ok then old(Pins(port))[k := AsInput(old(Pins(port))[k], trigger)] else old(Pins(port))
    {
      PowerIsLine(mask, k);
      ShlOfOne(k);
      AndOfOneBit(imr, k);
      AndOfOneBit(emr, k);
      ok := And(imr, mask) == 0 && And(emr, mask) == 0;
      if ok {
        MakeInput(port, mask, k, trigger);
        var source := GetPinSource(mask);
        PowerIsSingle(k);
        PowerIsInjective(source, k);
        EnableLine(source, mask, port, trigger);
      }
    }

    /** A mask of several lines is taken apart, from the lowest line up.  The lines
        that are attached have their pins configured as inputs. */
    method Attach(mask: uint16, port: Port, trigger: Trigger) returns (ok: bool)
      requires Valid() && port.Valid()
      modifies this, exticr, port`moder, port`pupdr, port`otyper, port`ospeedr
      ensures ((Now(), ok), Pins(port))
              == (AttachBelow(old(Now()), mask, LINES, trigger, port.source),
                  Inputs(old(Pins(port)), mask, FirstBusy(old(Now()), mask, 0), trigger))
      decreases if mask != 0 && And(mask, mask - 1) == 0 then 0 else 1, 2
    {
      if mask != 0 && And(mask, mask - 1) == 0 {
        ok := AttachLine(mask, port, trigger);
      } else {
        ok := AttachEach(mask, port, trigger);
      }
    }

    method AttachEach(mask: uint16, port: Port, trigger: Trigger) returns (ok: bool)
      requires Valid() && port.Valid()
      modifies this, exticr, port`moder, port`pupdr, port`otyper, port`ospeedr
      ensures ((Now(), ok), Pins(port))
              == (AttachBelow(old(Now()), mask, LINES, trigger, port.source),
                  Inputs(old(Pins(port)), mask, FirstBusy(old(Now()), mask, 0), trigger))
      decreases 1, 1
    {
      ghost var before := Now();
      for i := 0 to LINES
        invariant ((Now(), true), FirstBusy(before, mask, i), Pins(port))
               == (AttachBelow(before, mask, i, trigger, port.source), FirstBusy(before, mask, 0),
                   Inputs(old(Pins(port)), mask, i, trigger))
      {
        LineIsKept(before, mask, i, trigger, port.source);
        if Has(mask, i) {
          var done := AttachNext(i, mask, port, trigger);
          if !done {
            AttachStops(before, mask, i + 1, trigger, port.source);
            return false;
          }
        }
      }
      return true;
    }

    /** Line i, on its own. */
    method AttachNext(i: nat, mask: uint16, port: Port, trigger: Trigger) returns (ok: bool)
      requires Valid() && port.Valid() && i < LINES && Has(mask, i)
      modifies this, exticr, port`moder, port`pupdr, port`otyper, port`ospeedr
      ensures ok == !old(Now())[i].Busy()
      ensures Now() == if ok then old(Now())[i := Attached(trigger, port.source)] else old(Now())
      ensures Pins(port) == if ok then old(Pins(port))[i := AsInput(old(Pins(port))[i], trigger)] else old(Pins(port))
      decreases 1, 0
    {
      var one := OneLine(i);
      AttachOne(Now(), one, i, LINES, trigger, port.source);
      FirstOfLine(Now(), one, i, 0);
      InputOne(Pins(port), one, i, LINES, trigger);
      InputOne(Pins(port), one, i, i, trigger);
      ok := Attach(one, port, trigger);
    }
  }

  /** The configuration of a pin: mode, pull resistor, output type and speed. */
  datatype Pin = Pin(mode: nat, pull: nat, output: nat, speed: nat)

  ghost function Pins(port: Port): (p: seq<Pin>)
    reads port
    ensures |p| == PINS
  {
    seq(PINS, q requires 0 <= q < PINS reads port =>
      Pin(PinField(port.moder, 2, q), PinField(port.pupdr, 2, q), PinField(port.otyper, 1, q),
          PinField(port.ospeedr, 2, q)))
  }

  /** An input with the pull resistor for the trigger. */
  function AsInput(p: Pin, trigger: Trigger): Pin { p.(mode := IN, pull := Pull(trigger)) }

  method MakeInput(port: Port, mask: uint16, ghost k: nat, trigger: Trigger)
    requires k < PINS && IsLine(mask, k)
    modifies port`moder, port`pupdr, port`otyper, port`ospeedr
    ensures Pins(port) == old(Pins(port))[k := AsInput(old(Pins(port))[k], trigger)]
  {
    ghost var before := Pins(port);
    port.Init(mask, IN, Options(0, Pull(trigger), 0));
    forall q: nat | q < PINS
      ensures Pins(port)[q] == if q == k then AsInput(before[q], trigger) else before[q]
    {
    }
  }

  /** The masked pins below `end` have become inputs. */
  function Inputs(pins: seq<Pin>, mask: uint16, end: nat, trigger: Trigger): (r: seq<Pin>)
    requires end <= |pins|
    ensures |r| == |pins|
    ensures forall q :: 0 <= q < |r| ==> r[q] == if q < end && Has(mask, q) then AsInput(pins[q], trigger) else pins[q]
  {
    if end == 0 then pins
    else
      var r := Inputs(pins, mask, end - 1, trigger);
      if Has(mask, end - 1) then r[end - 1 := AsInput(r[end - 1], trigger)] else r
  }

  lemma {:induction false} InputOne(pins: seq<Pin>, one: uint16, k: nat, end: nat, trigger: Trigger)
    requires k < |pins| && IsLine(one, k) && end <= |pins|
    ensures Inputs(pins, one, end, trigger) == if end <= k then pins else pins[k := AsInput(pins[k], trigger)]
  {
  }

  /** Pull-up for the falling edge, pull-down for the rising one, none for both; the
      other settings of the pin are kept. */
  lemma InputsSuitTrigger(pins: seq<Pin>, mask: uint16, end: nat, trigger: Trigger, q: nat)
    requires end <= |pins| && q < end && Has(mask, q)
    ensures var p := Inputs(pins, mask, end, trigger)[q];
            p.mode == 0 && p.output == pins[q].output && p.speed == pins[q].speed
            && p.pull == match trigger case Falling => 1 case Rising => 2 case Both => 0
  {
  }

  /** The first masked line from the i-th on that is in use; 16 if there is none. */
  function FirstBusy(lines: Lines, mask: uint16, i: nat): (b: nat)
    requires i <= LINES
    ensures i <= b <= LINES
    decreases LINES - i
  {
    if i == LINES || (Has(mask, i) && lines[i].Busy()) then i else FirstBusy(lines, mask, i + 1)
  }

  /** The lines that are attached are those whose pins become inputs. */
  lemma {:induction false} FreeUntilFirstBusy(lines: Lines, mask: uint16, from: nat, i: nat)
    requires from <= i < LINES && FreeBelow(lines, mask, from)
    ensures FreeBelow(lines, mask, i + 1) <==> i < FirstBusy(lines, mask, from)
    decreases LINES - from
  {
    if from < i && !(Has(mask, from) && lines[from].Busy()) {
      FreeUntilFirstBusy(lines, mask, from + 1, i);
    }
  }

  lemma {:induction false} FirstOfLine(lines: Lines, one: uint16, k: nat, i: nat)
    requires i <= LINES && k < LINES && IsLine(one, k)
    ensures FirstBusy(lines, one, i) == if i <= k && lines[k].Busy() then k else LINES
    decreases LINES - i
  {
    if i < LINES {
      FirstOfLine(lines, one, k, i + 1);
    }
  }

  lemma LineIsKept(lines: Lines, mask: uint16, i: nat, trigger: Trigger, port: nat)
    requires i < LINES
    ensures AttachBelow(lines, mask, i, trigger, port).0[i] == lines[i]
  {
    SucceedsIfFree(lines, mask, i, trigger, port);
  }

  /** After a line in use nothing more is attached. */
  lemma {:induction false} AttachStops(lines: Lines, mask: uint16, end: nat, trigger: Trigger, port: nat)
    requires end <= LINES && !AttachBelow(lines, mask, end, trigger, port).1
    ensures AttachBelow(lines, mask, LINES, trigger, port) == AttachBelow(lines, mask, end, trigger, port)
    decreases LINES - end
  {
    if end < LINES {
      AttachStops(lines, mask, end + 1, trigger, port);
    }
  }

  lemma {:induction false} AttachOne(lines: Lines, one: uint16, k: nat, end: nat, trigger: Trigger, port: nat)
    requires k < LINES && IsLine(one, k) && end <= LINES
    ensures AttachBelow(lines, one, end, trigger, port)
            == if end <= k then (lines, true)
               else if lines[k].Busy() then (lines, false)
               else (lines[k := Attached(trigger, port)], true)
  {
    if end > 0 {
      AttachOne(lines, one, k, end - 1, trigger, port);
    }
  }

  /** The pull resistor that suits a trigger: up, down or none. */
  function Pull(trigger: Trigger): nat { match trigger case Falling => 1 case Rising => 2 case Both => 0 }

  lemma PowerIsInjective(m: nat, n: nat)
    requires Power(2, m) <= Power(2, n) < Power(2, m + 1)
    ensures m == n
  {
    if n < m {
      PowerGrows(n + 1, m);
      PowerGrows(n, n);
    } else if n > m {
      PowerGrows(m + 1, n);
    }
  }

  lemma LineBelow16(mask: uint16, k: nat)
    requires mask == Power(2, k)
    ensures k < LINES
  {
    assert Power(2, 8) == 0x100;
    assert Power(2, LINES) == 0x1_0000;
    if k >= LINES {
      PowerGrows(LINES, k);
    }
  }

  /** 1 << i. */
  method OneLine(i: nat) returns (mask: uint16)
    requires i < LINES
    ensures mask != 0 && And(mask, mask - 1) == 0 && IsLine(mask, i)
  {
    ShlOfOne(i);
    PowerIsSingle(i);
    assert Power(2, 7) == 0x80;
    assert Power(2, 11) == 0x800;
    assert Power(2, 15) == 0x8000;
    PowerGrows(i, 15);
    mask := Shl(1, i);
    PowerIsLine(mask, i);
  }

  /** The mask of a single line. */
  ghost predicate IsLine(mask: uint16, k: nat) { forall i: nat :: Bit(mask, i) == (i == k) }

  lemma PowerIsLine(mask: uint16, k: nat)
    requires mask == Power(2, k)
    ensures IsLine(mask, k)
  {
    forall i: nat
      ensures Bit(mask, i) == (i == k)
    {
      ShlOfOne(k);
      BitOfShl(1, k, i);
      if i > k {
        HighBits(1, 1, i - k);
      }
    }
  }

  method SetBits(r: uint32, mask: uint16) returns (s: uint32)
    ensures forall i: nat :: Bit(s, i) == (Bit(r, i) || Bit(mask, i))
  {
    PowerOf32();
    Bounded(r, mask, 32);
    s := Or(r, mask);
    forall i: nat
      ensures Bit(s, i) == (Bit(r, i) || Bit(mask, i))
    {
      BitOfOr(r, mask, i);
    }
  }

  method ClearBits(r: uint32, mask: uint16) returns (s: uint32)
    ensures forall i: nat :: Bit(s, i) == (Bit(r, i) && !Bit(mask, i))
  {
    ClearBounded(r, mask);
    s := Clear(r, mask);
    forall i: nat
      ensures Bit(s, i) == (Bit(r, i) && !Bit(mask, i))
    {
      BitOfClear(r, mask, i);
    }
  }

  lemma {:induction false} FieldOfZero(low: nat, width: nat)
    ensures Field(0, low, width) == 0
    decreases width
  {
    if width > 0 {
      BitOfZero(low);
      FieldOfZero(low + 1, width - 1);
    }
  }
}
