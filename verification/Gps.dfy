/** The NMEA receiver: a state machine that is fed one character at a time.

    The state has two halves.  The `Line` is the sentence being received: its term
    buffer, counters and checksum.  The `Data` are what has been learnt from the
    terms so far.  The line never depends on the data. */
module Gps {
  import opened CTypes
  import opened Numerals
  import opened GpsNumbers
  import opened Folds
  import opened Bits

  const TERM_SIZE := 15
  const NAME_SIZE := 7

  const DOLLAR: uint8 := '$' as int
  const COMMA: uint8 := ',' as int
  const STAR: uint8 := '*' as int
  const CR: uint8 := '\r' as int
  const LF: uint8 := '\n' as int

  // --- The line ---

  datatype Line = Line(term: Text, number: uint8, pos: uint8, crc: uint8, star: bool) {
    predicate Valid() { |term| == TERM_SIZE }

    /** The term as a C string. */
    function TermText(): CString { UpToNul(term) }

    /** A character goes into the term; past its end nothing is modelled. */
    function Put(c: uint8): Line {
      if pos < TERM_SIZE == |term| then this.(term := term[pos := c], pos := pos + 1) else this
    }

    function NextTerm(): Line { this.(number := ToUint8(number + 1), pos := 0) }
  }

  /** A text without NUL, as C strings are. */
  type CString = t: Text | 0 !in t

  /** The characters before the first NUL. */
  function UpToNul(t: Text): (r: CString)
    ensures r <= t && (|r| < |t| ==> t[|r|] == 0)
  {
    if t == [] || t[0] == 0 then [] else [t[0]] + UpToNul(t[1..])
  }

  function Xor(a: uint8, b: uint8): uint8 {
    assert Power(2, 8) == 0x100;
    XorBounded(a, b, 8);
    ExclusiveOr(a, b)
  }

  function NextLine(l: Line, c: uint8): Line {
    if c == DOLLAR then l.(star := false, crc := 0, number := 0, pos := 0).Put(c)
    else if c == COMMA then l.(crc := Xor(l.crc, c)).Put(0).NextTerm()
    else if c == LF then l.(number := 0)
    else if c == CR then l.Put(0).(number := 0)
    else if c == STAR then l.(star := true).Put(0).NextTerm()
    else l.(crc := if l.star then l.crc else Xor(l.crc, c)).Put(c)
  }

  // --- The data ---

  datatype Status = NewData | OldData | FirstDataWaiting

  type Statement = x: int | 0 <= x < 5
  const GPGGA: Statement := 0
  const GPRMC: Statement := 1
  const GPGSA: Statement := 2
  const GPGSV: Statement := 3
  const UNKNOWN: Statement := 4

  /** A statement and term that the user asked for. */
  datatype Custom = Custom(statement: CString, number: uint8, value: CString, updated: bool)

  /** What the terms so far have told: the statement they belong to, the number of
      satellites in use, how many of their numbers have come, and the number of
      satellite descriptions, in all and so far. */
  datatype Told = Told(statement: Statement, name: CString, satellites: uint8, idsCount: uint8,
                       gsvCount: uint8, gsvNumber: uint8)

  /** `flags` holds the numbers of the bits that are set in the flag word. */
  datatype Data = Data(told: Told, flags: set<int>, customs: seq<Custom>) {
    predicate Complete() { flags == AllFlags() && AllUpdated(customs) }

    function Cleared(): Data { Data(told, {}, ResetAll(customs)) }

    function Flagged(key: int): Data { Data(told, SetFlag(flags, key), customs) }

    /** The switch key: statement << 5 | term number. */
    function Key(number: uint8): int { Or(told.statement * 32, number) }
  }

  const FLAGS := 19

  function FirstFlags(n: nat): (f: set<int>)
    ensures |f| == n && forall i :: i in f <==> 0 <= i < n
  {
    if n == 0 then {} else FirstFlags(n - 1) + {n - 1}
  }

  function AllFlags(): set<int> { FirstFlags(FLAGS) }

  predicate IsSatelliteKey(key: int) { 67 <= key <= 78 }

  /** The flag that belongs to a key; -1 if there is none. */
  function FlagOf(key: int): (f: int)
    ensures -1 <= f < FLAGS
  {
    match key
    case 2 => 0   // latitude
    case 4 => 1   // longitude
    case 7 => 2   // satellites in use
    case 6 => 3   // fix
    case 9 => 4   // altitude
    case 5 => 5   // east or west
    case 3 => 6   // north or south
    case 1 => 7   // time
    case 39 => 8  // speed
    case 41 => 9  // date
    case 34 => 10 // validity
    case 80 => 11 // horizontal dilution
    case 81 => 12 // vertical dilution
    case 79 => 13 // position dilution
    case 66 => 14 // fix mode
    case 40 => 15 // direction
    case 99 => 16 // satellites in view
    case _ => if IsSatelliteKey(key) then 17 else -1
  }

  const DESCRIPTIONS := 18

  function SetFlag(flags: set<int>, key: int): set<int> {
    if FlagOf(key) >= 0 then flags + {FlagOf(key)} else flags
  }

  predicate AllUpdated(customs: seq<Custom>) { forall i :: 0 <= i < |customs| ==> customs[i].updated }

  function Reset(c: Custom): Custom { c.(updated := false) }

  function ResetAll(customs: seq<Custom>): (r: seq<Custom>)
    ensures |r| == |customs| && forall i :: 0 <= i < |r| ==> r[i] == Reset(customs[i])
  {
    if customs == [] then [] else ResetAll(customs[..|customs| - 1]) + [Reset(customs[|customs| - 1])]
  }

  /** An empty term is as good as a filled one. */
  function WithEmpty(d: Data, number: uint8, pos: uint8): Data {
    if pos == 1 then d.Flagged(d.Key(number)) else d
  }

  function Ascii(s: string): (t: CString)
    requires forall i :: 0 <= i < |s| ==> 0 < s[i] as int < 0x100
  {
    if s == "" then [] else [s[0] as int] + Ascii(s[1..])
  }

  const GGA := Ascii("$GPGGA")
  const RMC := Ascii("$GPRMC")
  const GSA := Ascii("$GPGSA")
  const GSV := Ascii("$GPGSV")

  function StatementOf(text: Text): Statement {
    if GGA <= text then GPGGA
    else if RMC <= text then GPRMC
    else if GSA <= text then GPGSA
    else if GSV <= text then GPGSV
    else UNKNOWN
  }

  function Number(text: Text): uint32 { ToUint32(Value(LeadingDigits(text), 10)) }

  function Updated(c: Custom, name: CString, number: uint8, text: CString): Custom {
    if c.statement <= name && c.number == number then c.(value := text, updated := true) else c
  }

  function UpdateAll(customs: seq<Custom>, name: CString, number: uint8, text: CString): (r: seq<Custom>)
    ensures |r| == |customs| && forall i :: 0 <= i < |r| ==> r[i] == Updated(customs[i], name, number, text)
  {
    if customs == [] then []
    else UpdateAll(customs[..|customs| - 1], name, number, text)
         + [Updated(customs[|customs| - 1], name, number, text)]
  }

  /** The switch over the terms that are known. */
  function WithKey(d: Data, number: uint8, text: CString): Data {
    var key := d.Key(number);
    if IsSatelliteKey(key) then
      var count := ToUint8(d.told.idsCount + 1);
      if count == d.told.satellites then d.Flagged(key).(told := d.told.(idsCount := 0))
      else d.(told := d.told.(idsCount := count))
    else if key == 7 then d.Flagged(key).(told := d.told.(satellites := ToUint8(Number(text))))
    else d.Flagged(key)
  }

  function WithGsv(t: Told, number: uint8, text: CString): Told {
    if t.statement == GPGSV && number == 1 then t.(gsvCount := ToUint8(Number(text)))
    else if t.statement == GPGSV && number == 2 then t.(gsvNumber := ToUint8(Number(text)))
    else t
  }

  /** The first term names the statement; any other term is looked up. */
  function WithTerm(d: Data, number: uint8, text: CString): Data {
    if number == 0 then d.(told := d.told.(statement := StatementOf(text), name := text))
    else
      var e := WithKey(d.(customs := UpdateAll(d.customs, d.told.name, number, text)), number, text);
      e.(told := WithGsv(e.told, number, text))
  }

  /** The end of a term whose NUL is in place. */
  function WithEnd(d: Data, l: Line): Data { WithTerm(WithEmpty(d, l.number, l.pos), l.number, l.TermText()) }

  /** What a character does to the data, by the line it meets. */
  function Learn(d: Data, l: Line, c: uint8): Data {
    if c == COMMA || c == STAR then WithEnd(d, l.Put(0))
    else if c == LF then
      if d.told.statement == GPGSV && d.told.gsvCount == d.told.gsvNumber then d.(flags := d.flags + {DESCRIPTIONS})
      else d
    else if c == CR then if Received(l.Put(0)) != l.crc then d.Cleared() else d
    else d
  }

  function Received(l: Line): uint8 {
    if |l.term| >= 2 then Checksum(l.term[0], l.term[1]) else 0
  }

  /** New data are reported once: the next character makes them old. */
  function Aged(d: Data): Data { if d.Complete() then d.Cleared() else d }

  // --- Both ---

  datatype State = State(line: Line, data: Data, firstTime: bool, status: Status) {
    predicate Valid() { line.Valid() }
  }

  /** The report on the data. */
  function Report(l: Line, d: Data, firstTime: bool): State {
    if d.Complete() then State(l, d, false, NewData)
    else State(l, d, firstTime, if firstTime then FirstDataWaiting else OldData)
  }

  function Step(s: State, c: uint8): State {
    Report(NextLine(s.line, c), Learn(Aged(s.data), s.line, c), s.firstTime)
  }

  function Run(s: State, input: Text): State { Fold(Step, s, input) }

  /** The character can be handled within the driver's buffers: there is room for
      it in the term, the name of a statement fits its copy, and satellite numbers
      come from terms 3 to 14. */
  predicate Safe(s: State, c: uint8) {
    && (c != DOLLAR && c != LF ==> s.line.pos < TERM_SIZE)
    && (c == COMMA || c == STAR ==>
          && (s.line.number == 0 ==> |s.line.Put(0).TermText()| < NAME_SIZE)
          && (s.line.number != 0 && IsSatelliteKey(s.data.Key(s.line.number)) ==> 3 <= s.line.number <= 14))
  }

  predicate SafeRun(s: State, input: Text)
    decreases |input|
  {
    input == [] || (Safe(s, input[0]) && SafeRun(Step(s, input[0]), input[1..]))
  }
}
