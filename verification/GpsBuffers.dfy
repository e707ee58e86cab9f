/** Which streams leave the buffers of the NMEA receiver, exactly. */
module GpsBuffers {
  import opened CTypes
  import opened Numerals
  import opened GpsNumbers
  import opened Bits
  import opened Gps
  import opened GpsRuns

  /** What a stream without NUL tells about the buffers: the characters of the current
      term up to its first NUL, the place for the next one, the number of the term, and
      the statement. */
  datatype Reading = Reading(text: Text, pos: nat, number: uint8, statement: Statement) {
    /** A carriage return ends the text of a term, but its place moves on. */
    function Next(c: uint8): Reading {
      if c == DOLLAR then Reading([c], 1, 0, statement)
      else if c == COMMA || c == STAR then
        Reading([], 0, ToUint8(number + 1), if number == 0 then StatementOf(text) else statement)
      else if c == CR then Reading(text, pos + 1, 0, statement)
      else if c == LF then Reading(text, pos, 0, statement)
      else Reading(if |text| == pos then text + [c] else text, pos + 1, number, statement)
    }

    /** A term that is taken for one of the twelve satellite numbers but comes too late
        in its sentence to have a place among them. */
    predicate IsLate() { number >= 32 && TakenFor(statement, number) == GPGSA && 3 <= number % 32 <= 14 }

    /** There is room for the character in the term, for the text of a first term in the
        copy of the name, and for a satellite number in its array. */
    predicate HasRoom(c: uint8) {
      && (c != DOLLAR && c != LF ==> pos < 15)
      && (c == COMMA || c == STAR ==> if number == 0 then |text| < 7 else !IsLate())
    }
  }

  predicate HasRoomFor(d: Reading, input: Text)
    decreases |input|
  {
    input == [] || (d.HasRoom(input[0]) && HasRoomFor(d.Next(input[0]), input[1..]))
  }

  predicate ReadsLine(d: Reading, l: Line) {
    l.Valid() && d.pos == l.pos <= TERM_SIZE && d.number == l.number && d.text == UpToNul(l.term[..l.pos])
  }

  predicate Reads(d: Reading, s: State) { ReadsLine(d, s.line) && d.statement == s.data.told.statement }

  /** Without a NUL the whole text counts, up to one that follows it ... */
  lemma {:induction false} NoNul(t: Text, u: Text)
    requires 0 !in t && (u == [] || u[0] == 0)
    ensures UpToNul(t + u) == t
  {
    if t == [] {
      assert t + u == u;
    } else {
      NoNul(t[1..], u);
      assert (t + u)[1..] == t[1..] + u;
    }
  }

  /** ... and behind a NUL nothing does. */
  lemma {:induction false} PastNul(t: Text, u: Text)
    requires 0 in t
    ensures UpToNul(t + u) == UpToNul(t) && |UpToNul(t)| < |t|
  {
    if t[0] != 0 {
      PastNul(t[1..], u);
      assert (t + u)[1..] == t[1..] + u;
    }
  }

  /** The text of a term that has just been ended. */
  lemma TextOfTerm(l: Line)
    requires l.Valid() && l.pos < TERM_SIZE
    ensures l.Put(0).TermText() == UpToNul(l.term[..l.pos])
  {
    var t, u := l.term[..l.pos], [0] + l.term[l.pos + 1..];
    assert l.Put(0).term == t + u;
    if 0 in t {
      PastNul(t, u);
    } else {
      NoNul(t, u);
      NoNul(t, []);
      assert t + [] == t;
    }
  }

  /** One character behind the text so far. */
  lemma TextOfMore(t: Text, c: uint8)
    ensures var r := UpToNul(t);
            UpToNul(t + [c]) == if |r| == |t| && c != 0 then r + [c] else r
  {
    if 0 in t {
      PastNul(t, [c]);
    } else {
      NoNul(t, []);
      assert t + [] == t;
      if c == 0 {
        NoNul(t, [c]);
      } else {
        NoNul(t + [c], []);
        assert t + [c] + [] == t + [c];
      }
    }
  }

  lemma LateKey(statement: Statement, number: uint8)
    ensures IsSatelliteKey(Or(statement * 32, number)) && !(3 <= number <= 14)
       <==> number >= 32 && TakenFor(statement, number) == GPGSA && 3 <= number % 32 <= 14
  {
    KeySplits(statement, number);
    if number < 32 {
      KeyIsSum(statement, number);
    }
  }

  lemma RoomIsSafe(s: State, d: Reading, c: uint8)
    requires Reads(d, s)
    ensures Safe(s, c) <==> d.HasRoom(c)
  {
    LateKey(d.statement, d.number);
    if s.line.pos < TERM_SIZE {
      TextOfTerm(s.line);
    }
  }

  lemma StatementAfterLookup(d: Data, number: uint8, text: CString)
    ensures WithKey(d, number, text).told.statement == d.told.statement
  {
  }

  /** The statement after a term that has ended. */
  lemma StatementAfterTerm(d: Data, number: uint8, pos: uint8, text: CString, named: Statement)
    requires named == StatementOf(text)
    ensures WithTerm(WithEmpty(d, number, pos), number, text).told.statement
         == if number == 0 then named else d.told.statement
  {
    var e := WithEmpty(d, number, pos);
    StatementAfterLookup(e.(customs := UpdateAll(e.customs, e.told.name, number, text)), number, text);
  }

  lemma StatementAfter(d: Data, l: Line, c: uint8, text: CString, named: Statement)
    requires text == l.Put(0).TermText() && named == StatementOf(text)
    ensures Learn(d, l, c).told.statement
         == if (c == COMMA || c == STAR) && l.number == 0 then named else d.told.statement
  {
    StatementAfterTerm(d, l.Put(0).number, l.Put(0).pos, text, named);
  }

  lemma TextAfter(l: Line, c: uint8)
    requires l.Valid() && l.pos < TERM_SIZE
    ensures var r := UpToNul(l.term[..l.pos]);
            UpToNul(l.Put(c).term[..l.Put(c).pos]) == if |r| == l.pos && c != 0 then r + [c] else r
  {
    assert l.Put(c).term[..l.pos + 1] == l.term[..l.pos] + [c];
    TextOfMore(l.term[..l.pos], c);
  }

  lemma LineGoesOn(l: Line, d: Reading, c: uint8)
    requires ReadsLine(d, l) && d.HasRoom(c) && c != 0
    ensures ReadsLine(d.Next(c), NextLine(l, c))
  {
    if c == DOLLAR {
      TextAfter(l.(star := false, crc := 0, number := 0, pos := 0), c);
    } else if c == CR {
      TextAfter(l, 0);
    } else if c != LF && c != COMMA && c != STAR {
      TextAfter(l.(crc := if l.star then l.crc else Xor(l.crc, c)), c);
    }
  }

  lemma ReadingGoesOn(s: State, d: Reading, c: uint8)
    requires Reads(d, s) && d.HasRoom(c) && c != 0
    ensures Reads(d.Next(c), Step(s, c))
  {
    LineGoesOn(s.line, d, c);
    if s.line.pos < TERM_SIZE {
      TextOfTerm(s.line);
    }
    StatementGoesOn(s, d, c, s.line.Put(0).TermText(), StatementOf(s.line.Put(0).TermText()));
  }

  lemma NextStatement(d: Reading, l: Line, c: uint8, named: Statement)
    requires d.number == l.number && (c == COMMA || c == STAR ==> StatementOf(d.text) == named)
    ensures d.Next(c).statement == if (c == COMMA || c == STAR) && l.number == 0 then named else d.statement
  {
  }

  lemma StatementGoesOn(s: State, d: Reading, c: uint8, text: CString, named: Statement)
    requires text == s.line.Put(0).TermText() && named == StatementOf(text)
    requires d.number == s.line.number && d.statement == s.data.told.statement
    requires c == COMMA || c == STAR ==> d.text == text
    ensures d.Next(c).statement == Step(s, c).data.told.statement
  {
    NextStatement(d, s.line, c, named);
    StatementAfter(Aged(s.data), s.line, c, text, named);
  }

  /** A stream without NUL stays within the buffers exactly if there is room for each
      of its characters. */
  lemma {:induction false} SafeIffRoom(s: State, d: Reading, input: Text)
    requires Reads(d, s) && 0 !in input
    ensures SafeRun(s, input) <==> HasRoomFor(d, input)
    decreases |input|
  {
    if input != [] {
      RoomIsSafe(s, d, input[0]);
      if d.HasRoom(input[0]) {
        ReadingGoesOn(s, d, input[0]);
        SafeIffRoom(Step(s, input[0]), d.Next(input[0]), input[1..]);
      }
    }
  }

  /** A term of 15 characters or more always runs past its buffer, whatever came before
      and whatever the characters are. */
  lemma LongTermOverflows(s: State, term: Text)
    requires s.Valid() && |term| >= 15 && forall i :: 0 <= i < |term| ==> !IsControl(term[i])
    ensures !SafeRun(s, [DOLLAR] + term)
  {
    assert ([DOLLAR] + term)[1..] == term;
    TermOverflows(Step(s, DOLLAR), term);
  }

  lemma {:induction false} TermOverflows(s: State, term: Text)
    requires s.Valid() && s.line.pos <= TERM_SIZE < s.line.pos + |term|
    requires forall i :: 0 <= i < |term| ==> !IsControl(term[i])
    ensures !SafeRun(s, term)
    decreases |term|
  {
    if s.line.pos < TERM_SIZE {
      assert Step(s, term[0]).line.pos == s.line.pos + 1;
      TermOverflows(Step(s, term[0]), term[1..]);
    }
  }
}
