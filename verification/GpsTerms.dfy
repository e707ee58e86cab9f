/** What each character and term tells the NMEA receiver, in plain numbers. */
module GpsTerms {
  import opened CTypes
  import opened Numerals
  import opened GpsNumbers
  import opened Bits
  import opened Gps
  import opened GpsRuns
  import opened GpsBuffers

  /** The characters with a meaning: dollar sign, comma, star, carriage return and line
      feed. */
  lemma ControlCharacters(c: uint8)
    ensures IsControl(c) <==> c == 36 || c == 44 || c == 42 || c == 13 || c == 10
    ensures DOLLAR == 36 && COMMA == 44 && STAR == 42 && CR == 13 && LF == 10
  {
  }

  /** The four statements are known by their first six characters. */
  lemma StatementsAreKnown(text: Text)
    ensures StatementOf(text) == 0 <==> [36, 71, 80, 71, 71, 65] <= text
    ensures StatementOf(text) == 1 <==> [36, 71, 80, 82, 77, 67] <= text
    ensures StatementOf(text) == 2 <==> [36, 71, 80, 71, 83, 65] <= text
    ensures StatementOf(text) == 3 <==> [36, 71, 80, 71, 83, 86] <= text
  {
    SixLetters("$GPGGA");
    SixLetters("$GPRMC");
    SixLetters("$GPGSA");
    SixLetters("$GPGSV");
    assert GGA <= text ==> text[3] == 71 && text[4] == 71;
    assert RMC <= text ==> text[3] == 82;
    assert GSA <= text ==> text[3] == 71 && text[4] == 83 && text[5] == 65;
    assert GSV <= text ==> text[3] == 71 && text[4] == 83 && text[5] == 86;
  }

  lemma FirstLetter(s: string, k: nat)
    requires k < |s| && forall i :: 0 <= i < |s| ==> 0 < s[i] as int < 0x100
    ensures Ascii(s[k..]) == [s[k] as int] + Ascii(s[k + 1..])
  {
    assert s[k..][1..] == s[k + 1..];
  }

  lemma SixLetters(s: string)
    requires |s| == 6 && forall i :: 0 <= i < |s| ==> 0 < s[i] as int < 0x100
    ensures Ascii(s) == [s[0] as int, s[1] as int, s[2] as int, s[3] as int, s[4] as int, s[5] as int]
  {
    assert s[0..] == s;
    FirstLetter(s, 0);
    FirstLetter(s, 1);
    FirstLetter(s, 2);
    FirstLetter(s, 3);
    FirstLetter(s, 4);
    FirstLetter(s, 5);
  }

  /** A term that has ended and is not the first tells the number of satellites in use if
      it is term 7 of GPGGA, the number of satellite descriptions and of their sentence
      if it is term 1 or 2 of GPGSV; a satellite number that is not empty is counted. */
  lemma TermTells(d: Data, l: Line, c: uint8)
    requires l.Valid() && l.pos < TERM_SIZE && (c == 44 || c == 42) && l.number != 0
    ensures var digits := Value(LeadingDigits(UpToNul(l.term[..l.pos])), 10);
            var s, n := d.told.statement, l.number;
            var t := Learn(d, l, c).told;
            && t.statement == s && t.name == d.told.name
            && t.satellites == (if s == 0 && n == 7 then digits % 0x1_0000_0000 % 0x100 else d.told.satellites)
            && t.gsvCount == (if s == 3 && n == 1 then digits % 0x1_0000_0000 % 0x100 else d.told.gsvCount)
            && t.gsvNumber == (if s == 3 && n == 2 then digits % 0x1_0000_0000 % 0x100 else d.told.gsvNumber)
  {
    TextOfTerm(l);
    var text, e := l.Put(0).TermText(), WithEmpty(d, l.number, l.pos + 1);
    SevenOfGga(d.told.statement, l.number);
    LookupTells(e, l.number, text);
  }

  lemma SevenOfGga(statement: Statement, number: uint8)
    ensures Or(statement * 32, number) == 7 <==> statement == 0 && number == 7
  {
    KeySplits(statement, number);
    OrAtLeast(statement, number / 32);
  }

  lemma {:induction false} OrAtLeast(a: nat, b: nat)
    ensures a <= Or(a, b) && b <= Or(a, b)
  {
    if a > 0 && b > 0 {
      OrAtLeast(a / 2, b / 2);
    }
  }

  lemma LookupTells(d: Data, number: uint8, text: CString)
    requires number != 0
    ensures var t, seven := WithTerm(d, number, text).told, d.Key(number) == 7;
            && t.statement == d.told.statement && t.name == d.told.name
            && t.satellites == (if seven then ToUint8(Number(text)) else d.told.satellites)
            && t.gsvCount == (if d.told.statement == 3 && number == 1 then ToUint8(Number(text)) else d.told.gsvCount)
            && t.gsvNumber == (if d.told.statement == 3 && number == 2 then ToUint8(Number(text)) else d.told.gsvNumber)
  {
    var e := d.(customs := UpdateAll(d.customs, d.told.name, number, text));
    assert e.Key(number) == d.Key(number);
  }

  /** The satellite numbers, terms 3 to 14 of GPGSA, are counted up to the number of
      satellites in use. */
  lemma NumbersAreCounted(d: Data, l: Line, c: uint8)
    requires l.Valid() && l.pos < TERM_SIZE && (c == 44 || c == 42) && 0 < l.number < 32
    ensures var count := (d.told.idsCount + 1) % 0x100;
            Learn(d, l, c).told.idsCount
            == if d.told.statement != 2 || !(3 <= l.number <= 14) then d.told.idsCount
               else if count == d.told.satellites then 0 else count
  {
    KeyIsSum(d.told.statement, l.number);
    var e := WithEmpty(d, l.number, l.pos + 1);
    LookupCounts(e, l.number, l.Put(0).TermText());
  }

  lemma LookupCounts(d: Data, number: uint8, text: CString)
    requires number != 0
    ensures var count := ToUint8(d.told.idsCount + 1);
            WithTerm(d, number, text).told.idsCount
            == if !IsSatelliteKey(d.Key(number)) then d.told.idsCount
               else if count == d.told.satellites then 0 else count
  {
    var e := d.(customs := UpdateAll(d.customs, d.told.name, number, text));
    assert e.Key(number) == d.Key(number);
  }

  /** The first term names the statement. */
  lemma FirstTermNames(d: Data, l: Line, c: uint8)
    requires l.Valid() && l.pos < TERM_SIZE && (c == 44 || c == 42) && l.number == 0
    ensures var text := UpToNul(l.term[..l.pos]);
            Learn(d, l, c).told == d.told.(statement := StatementOf(text), name := text)
            && Learn(d, l, c).customs == d.customs
  {
    TextOfTerm(l);
  }

  /** A term becomes the value of every custom term that asks for its number in a
      statement whose name begins the name of this one. */
  lemma CustomsAreUpdated(d: Data, l: Line, c: uint8, i: nat)
    requires l.Valid() && l.pos < TERM_SIZE && (c == 44 || c == 42) && l.number != 0 && i < |d.customs|
    ensures var after, asked := Learn(d, l, c).customs, d.customs[i];
            && |after| == |d.customs| && after[i].statement == asked.statement && after[i].number == asked.number
            && if asked.statement <= d.told.name && asked.number == l.number
               then after[i].value == UpToNul(l.term[..l.pos]) && after[i].updated
               else after[i] == asked
  {
    TextOfTerm(l);
    var text, e := l.Put(0).TermText(), WithEmpty(d, l.number, l.pos + 1);
    assert e.customs == d.customs;
    LookupKeepsCustoms(e.(customs := UpdateAll(e.customs, e.told.name, l.number, text)), l.number, text);
  }

  lemma LookupKeepsCustoms(d: Data, number: uint8, text: CString)
    ensures WithKey(d, number, text).customs == d.customs
  {
  }

  /** Of the other characters, the line feed of a GPGSV sentence completes the
      descriptions if it is the last of them; the carriage return compares the checksum;
      the rest tells nothing. */
  lemma OtherCharactersTell(d: Data, l: Line, c: uint8)
    requires c != 44 && c != 42 && c != 13
    ensures Learn(d, l, c).told == d.told && Learn(d, l, c).customs == d.customs
    ensures Learn(d, l, c).flags
         == if c == 10 && d.told.statement == 3 && d.told.gsvCount == d.told.gsvNumber then d.flags + {18} else d.flags
  {
  }

  /** The data are complete with all 19 flags and no other, and with all custom terms. */
  lemma CompleteOnlyIf(d: Data, f: int, i: nat)
    requires d.Complete()
    ensures f in d.flags <==> 0 <= f < 19
    ensures i < |d.customs| ==> d.customs[i].updated
  {
  }

  lemma CompleteIf(d: Data)
    requires forall f :: f in d.flags <==> 0 <= f < 19
    requires forall i :: 0 <= i < |d.customs| ==> d.customs[i].updated
    ensures d.Complete()
  {
    SameFlags(d.flags, 19);
  }

  lemma SameFlags(flags: set<int>, n: nat)
    requires forall f :: f in flags <==> 0 <= f < n
    ensures flags == FirstFlags(n)
  {
  }

  /** What has been reported is forgotten with the next character. */
  lemma ReportedDataAreForgotten(s: State, c: uint8)
    requires s.data.Complete() && c != 44 && c != 42 && c != 10
    ensures var d := Step(s, c).data;
            && d.flags == {} && d.told == s.data.told && |d.customs| == |s.data.customs|
            && forall i :: 0 <= i < |d.customs| ==> !d.customs[i].updated
  {
  }
}
