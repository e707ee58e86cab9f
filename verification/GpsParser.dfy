/** The NMEA driver itself: one method for each of its functions, over the static
    variables it keeps. */
module GpsParser {
  import opened CTypes
  import opened Numerals
  import opened GpsNumbers
  import opened Folds
  import opened Bits
  import opened Gps
  import opened GpsRuns

  /** Compares up to the NUL of the second string. */
  method StringStartsWith(text: CString, start: CString) returns (r: bool)
    ensures r <==> start <= text
  {
    var i := 0;
    while CharAt(start, i) != 0
      invariant i <= |start| && i <= |text| && start[..i] == text[..i]
      decreases |start| - i
    {
      if CharAt(start, i) != CharAt(text, i) {
        return false;
      }
      i := i + 1;
    }
    return true;
  }

  /** The sentence being received. */
  class Receiver {
    const term: array<uint8>
    var number: uint8
    var pos: uint8
    var crc: uint8
    var star: bool

    ghost function Now(): Line
      reads this, term
    {
      Line(term[..], number, pos, crc, star)
    }

    constructor ()
      ensures fresh(term) && Now() == Line(Repeat(0, TERM_SIZE), 0, 0, 0, false)
    {
      term := new uint8[TERM_SIZE](_ => 0);
      number, pos, crc, star := 0, 0, 0, false;
      new;
      assert term[..] == Repeat(0, TERM_SIZE);
    }

    method Put(c: uint8)
      requires pos < TERM_SIZE == term.Length
      modifies this`pos, term
      ensures Now() == old(Now()).Put(c)
    {
      term[pos] := c;
      pos := pos + 1;
    }

    method NextTerm()
      modifies this`number, this`pos
      ensures Now() == old(Now()).NextTerm()
    {
      number := ToUint8(number + 1);
      pos := 0;
    }

    method Start()
      modifies this
      ensures Now() == old(Now()).(star := false, crc := 0, number := 0, pos := 0)
    {
      star := false;
      crc := 0;
      number := 0;
      pos := 0;
    }
  }

  /** What the terms have told. */
  class Collector {
    var statement: Statement
    var name: CString
    var satellites: uint8
    var idsCount: uint8
    var gsvCount: uint8
    var gsvNumber: uint8
    var flags: set<int>
    var customs: seq<Custom>

    ghost function Now(): Data
      reads this
    {
      Data(Told(statement, name, satellites, idsCount, gsvCount, gsvNumber), flags, customs)
    }

    constructor (customs: seq<Custom>)
      ensures Now() == Data(Told(UNKNOWN, [], 0, 0, 0, 0), {}, ResetAll(customs))
    {
      statement, name, flags := UNKNOWN, [], {};
      satellites, idsCount, gsvCount, gsvNumber := 0, 0, 0, 0;
      this.customs := customs;
      new;
      ClearFlags();
    }

    method FlagsOk() returns (ok: bool)
      ensures ok <==> Now().Complete()
    {
      if flags != AllFlags() {
        return false;
      }
      ok := CustomsOk();
    }

    method CustomsOk() returns (ok: bool)
      ensures ok <==> AllUpdated(customs)
    {
      for i := 0 to |customs|
        invariant forall j :: 0 <= j < i ==> customs[j].updated
      {
        if !customs[i].updated {
          return false;
        }
      }
      return true;
    }

    method ClearFlags()
      modifies this`flags, this`customs
      ensures Now() == old(Now()).Cleared()
    {
      flags := {};
      ClearCustoms();
    }

    method ClearCustoms()
      modifies this`customs
      ensures customs == ResetAll(old(customs))
    {
      ghost var before := customs;
      for i := 0 to |customs|
        invariant |customs| == |before|
        invariant forall j :: 0 <= j < i ==> customs[j] == Reset(before[j])
        invariant forall j :: i <= j < |customs| ==> customs[j] == before[j]
      {
        customs := customs[i := Reset(customs[i])];
      }
    }

    method CheckEmpty(number: uint8, pos: uint8)
      modifies this`flags
      ensures Now() == WithEmpty(old(Now()), number, pos)
    {
      if pos == 1 {
        flags := SetFlag(flags, Or(statement * 32, number));
      }
    }

    method NameStatement(text: CString)
      requires |text| < NAME_SIZE
      modifies this`statement, this`name
      ensures statement == StatementOf(text) && name == text
    {
      var gga := StringStartsWith(text, GGA);
      var rmc := StringStartsWith(text, RMC);
      var gsa := StringStartsWith(text, GSA);
      var gsv := StringStartsWith(text, GSV);
      statement := if gga then GPGGA else if rmc then GPRMC else if gsa then GPGSA else if gsv then GPGSV else UNKNOWN;
      name := text;
    }

    method CheckCustoms(number: uint8, text: CString)
      modifies this`customs
      ensures customs == UpdateAll(old(customs), name, number, text)
    {
      ghost var before := customs;
      for i := 0 to |customs|
        invariant |customs| == |before|
        invariant forall j :: 0 <= j < i ==> customs[j] == Updated(before[j], name, number, text)
        invariant forall j :: i <= j < |customs| ==> customs[j] == before[j]
      {
        var inside := StringStartsWith(name, customs[i].statement);
        if inside && number == customs[i].number {
          customs := customs[i := customs[i].(value := text, updated := true)];
        }
      }
    }

    method CheckKey(number: uint8, text: CString)
      modifies this`flags, this`idsCount, this`satellites
      ensures Now() == WithKey(old(Now()), number, text)
    {
      var key := Or(statement * 32, number);
      if IsSatelliteKey(key) {
        idsCount := ToUint8(idsCount + 1);
        if idsCount == satellites {
          idsCount := 0;
          flags := SetFlag(flags, key);
        }
      } else {
        if key == 7 {
          var count, temp := Atoi(text);
          satellites := ToUint8(temp);
        }
        flags := SetFlag(flags, key);
      }
    }

    method CheckGsv(number: uint8, text: CString)
      modifies this`gsvCount, this`gsvNumber
      ensures Now() == old(Now()).(told := WithGsv(old(Now()).told, number, text))
    {
      if statement == GPGSV {
        if number == 1 {
          var count, temp := Atoi(text);
          gsvCount := ToUint8(temp);
        }
        if number == 2 {
          var count, temp := Atoi(text);
          gsvNumber := ToUint8(temp);
        }
      }
    }

    method CheckTerm(number: uint8, text: CString)
      requires number == 0 ==> |text| < NAME_SIZE
      modifies this
      ensures Now() == WithTerm(old(Now()), number, text)
    {
      if number == 0 {
        NameStatement(text);
        return;
      }
      CheckCustoms(number, text);
      CheckKey(number, text);
      CheckGsv(number, text);
    }
  }

  class Parser {
    const line: Receiver
    const data: Collector
    var firstTime: bool
    var status: Status

    ghost predicate Valid()
    {
      line.term.Length == TERM_SIZE
    }

    ghost function Snapshot(): State
      reads this, line, data, line.term
    {
      State(line.Now(), data.Now(), firstTime, status)
    }

    constructor (customs: seq<Custom>)
      ensures Valid() && fresh(line) && fresh(line.term) && fresh(data)
      ensures firstTime && line.Now() == Line(Repeat(0, TERM_SIZE), 0, 0, 0, false)
      ensures data.Now() == Data(Told(UNKNOWN, [], 0, 0, 0, 0), {}, ResetAll(customs))
    {
      line := new Receiver();
      data := new Collector(customs);
      firstTime := true;
      status := FirstDataWaiting;
      new;
      assert |line.Now().term| == TERM_SIZE;
    }

    method Return() returns (result: Status)
      modifies this
      ensures Snapshot() == Report(line.Now(), data.Now(), old(firstTime)) && result == status
    {
      var ok := data.FlagsOk();
      if ok {
        firstTime := false;
        status := NewData;
      } else if firstTime {
        status := FirstDataWaiting;
      } else {
        status := OldData;
      }
      return status;
    }

    method Age()
      modifies this`status, data
      ensures data.Now() == Aged(old(data.Now()))
    {
      var ok := data.FlagsOk();
      if ok {
        data.ClearFlags();
        status := OldData;
      }
    }

    /** The end of a term, at a comma or a star. */
    method EndTerm()
      requires line.pos < TERM_SIZE == line.term.Length
      requires line.number == 0 ==> |line.Now().Put(0).TermText()| < NAME_SIZE
      modifies line, line.term, data
      ensures line.Now() == old(line.Now()).Put(0).NextTerm()
      ensures data.Now() == WithEnd(old(data.Now()), old(line.Now()).Put(0))
    {
      line.Put(0);
      data.CheckEmpty(line.number, line.pos);
      data.CheckTerm(line.number, UpToNul(line.term[..]));
      line.NextTerm();
    }

    method StartSentence()
      requires Valid()
      modifies line, line.term
      ensures line.Now() == NextLine(old(line.Now()), DOLLAR)
    {
      line.Start();
      line.Put(DOLLAR);
    }

    method EndLine()
      modifies line`number, data`flags
      ensures line.Now() == NextLine(old(line.Now()), LF)
      ensures data.Now() == Learn(old(data.Now()), old(line.Now()), LF)
    {
      line.number := 0;
      if data.statement == GPGSV && data.gsvCount == data.gsvNumber {
        data.flags := data.flags + {DESCRIPTIONS};
      }
    }

    method EndSentence()
      requires Valid() && line.pos < TERM_SIZE
      modifies line, line.term, data
      ensures line.Now() == NextLine(old(line.Now()), CR)
      ensures data.Now() == Learn(old(data.Now()), old(line.Now()), CR)
    {
      line.Put(0);
      ghost var held := line.Now();
      var received := Checksum(line.term[0], line.term[1]);
      assert received == Received(held);
      if received != line.crc {
        data.ClearFlags();
      }
      line.number := 0;
      assert line.Now() == held.(number := 0);
    }

    method Separator(c: uint8)
      requires (c == COMMA || c == STAR) && Valid() && Safe(Snapshot(), c)
      modifies line, line.term, data
      ensures line.Now() == NextLine(old(line.Now()), c)
      ensures data.Now() == Learn(old(data.Now()), old(line.Now()), c)
    {
      if c == COMMA {
        line.crc := Xor(line.crc, c);
      } else {
        line.star := true;
      }
      EndTerm();
    }

    /** Any other character is part of a term. */
    method Plain(c: uint8)
      requires !IsControl(c) && Valid() && Safe(Snapshot(), c)
      modifies line, line.term
      ensures line.Now() == NextLine(old(line.Now()), c)
    {
      if !line.star {
        line.crc := Xor(line.crc, c);
      }
      line.Put(c);
    }

    method Do(c: uint8) returns (result: Status)
      requires Valid() && Safe(Snapshot(), c)
      modifies this, line, line.term, data
      ensures Snapshot() == Step(old(Snapshot()), c) && result == status
    {
      Age();
      if c == DOLLAR {
        StartSentence();
      } else if c == COMMA || c == STAR {
        Separator(c);
      } else if c == LF {
        EndLine();
      } else if c == CR {
        EndSentence();
      } else {
        Plain(c);
      }
      result := Return();
    }

    method Next(buffer: Text, k: nat) returns (found: bool)
      requires Valid() && k < |buffer| && SafeRun(Snapshot(), buffer[k..])
      modifies this, line, line.term, data
      ensures Search(Step, IsNew, old(Snapshot()), buffer[k..], k)
              == if found then (Snapshot(), k + 1, true)
                 else Search(Step, IsNew, Snapshot(), buffer[k + 1..], k + 1)
      ensures SafeRun(Snapshot(), buffer[k + 1..]) && (found ==> status == NewData)
    {
      assert buffer[k..][1..] == buffer[k + 1..];
      SearchOfMore(Step, IsNew, Snapshot(), buffer, k);
      var result := Do(buffer[k]);
      found := result == NewData;
    }

    /** Takes characters out of the buffer up to the first report of new data; the
        rest stays for the next call. */
    method Update(buffer: Text) returns (result: Status, taken: nat)
      requires Valid() && SafeRun(Snapshot(), buffer)
      modifies this, line, line.term, data
      ensures (Snapshot(), taken) == UpdateOf(old(Snapshot()), buffer) && result == status
    {
      taken := 0;
      assert buffer[taken..] == buffer;
      while taken < |buffer|
        invariant taken <= |buffer| && SafeRun(Snapshot(), buffer[taken..])
        invariant Search(Step, IsNew, Snapshot(), buffer[taken..], taken)
               == Search(Step, IsNew, old(Snapshot()), buffer, 0)
      {
        var found := Next(buffer, taken);
        taken := taken + 1;
        if found {
          return NewData, taken;
        }
      }
      result := Poll();
    }

    method Poll() returns (result: Status)
      modifies this`status
      ensures Snapshot() == Polled(old(Snapshot())) && result == status
    {
      result := if firstTime then FirstDataWaiting else OldData;
      status := result;
    }
  }

  /** An empty buffer brings no new data. */
  function Polled(s: State): State { s.(status := if s.firstTime then FirstDataWaiting else OldData) }

  /** The state after an update, and the number of characters it has taken. */
  function UpdateOf(s: State, buffer: Text): (State, nat) {
    var (t, k, found) := Search(Step, IsNew, s, buffer, 0);
    (if found then t else Polled(t), k)
  }

  /** An update ends with the first report of new data, or it takes the whole buffer
      and there was none. */
  lemma UpdateStopsAtFirstReport(trace: seq<State>, buffer: Text)
    requires IsRun(Step, trace, buffer)
    ensures var (t, k) := UpdateOf(trace[0], buffer);
            || EndsAtReport(trace, t, k)
            || (k == |buffer| && FindsNone(trace, t, k))
  {
    var r := Search(Step, IsNew, trace[0], buffer, 0);
    SearchFromStart(Step, IsNew, trace, buffer, r);
    if r.2 {
      assert EndsAtReport(trace, r.0, r.1);
    } else {
      assert FindsNone(trace, Polled(r.0), r.1);
    }
  }

  ghost predicate EndsAtReport(trace: seq<State>, t: State, k: nat) {
    0 < k < |trace| && t == trace[k] && t.status == NewData && NoStop(IsNew, trace, k - 1)
  }

  ghost predicate FindsNone(trace: seq<State>, t: State, k: nat) {
    && k < |trace| && NoStop(IsNew, trace, k)
    && t.line == trace[k].line && t.data == trace[k].data && t.firstTime == trace[k].firstTime
    && t.status == if t.firstTime then FirstDataWaiting else OldData
  }
}
