/** What holds of the NMEA receiver over whole streams of characters. */
module GpsRuns {
  import opened CTypes
  import opened Numerals
  import opened GpsNumbers
  import opened Folds
  import opened Bits
  import opened Gps

  lemma RunOfMore(s: State, input: Text, c: uint8)
    ensures Run(s, input + [c]) == Step(Run(s, input), c)
  {
  }

  function RunLine(l: Line, input: Text): Line { Fold(NextLine, l, input) }

  /** The line goes its own way. */
  lemma {:induction false} LineOfRun(s: State, input: Text)
    ensures Run(s, input).line == RunLine(s.line, input)
  {
    if input != [] {
      LineOfRun(s, input[..|input| - 1]);
    }
  }

  // --- Which streams fit the buffers ---

  /** The characters in the current term after one more character. */
  function PosAfter(pos: nat, c: uint8): nat {
    if c == DOLLAR then 1 else if c == COMMA || c == STAR then 0 else if c == LF then pos else pos + 1
  }

  /** The terms of the current sentence that have ended. */
  function TermsAfter(number: nat, c: uint8): nat {
    if c == COMMA || c == STAR then number + 1 else if c == DOLLAR || c == CR || c == LF then 0 else number
  }

  predicate FitsNext(pos: nat, number: nat, c: uint8) {
    && (c != DOLLAR && c != LF ==> pos < 15)
    && (c == COMMA || c == STAR ==> number < 32 && (number == 0 ==> pos < 7))
  }

  /** Every term has at most 14 characters, the first of a sentence at most 6, and
      no sentence has more than 32 terms. */
  predicate Fits(pos: nat, number: nat, input: Text)
    decreases |input|
  {
    input == [] ||
    (FitsNext(pos, number, input[0]) && Fits(PosAfter(pos, input[0]), TermsAfter(number, input[0]), input[1..]))
  }

  lemma LineCounts(l: Line, c: uint8)
    requires l.Valid() && FitsNext(l.pos, l.number, c)
    ensures var m := NextLine(l, c);
            m.Valid() && m.pos == PosAfter(l.pos, c) && m.number == TermsAfter(l.number, c)
  {
  }

  /** A stream that fits never leaves the buffers, whatever came before. */
  lemma {:induction false} FitsIsSafe(s: State, input: Text)
    requires s.Valid() && Fits(s.line.pos, s.line.number, input)
    ensures SafeRun(s, input)
    decreases |input|
  {
    if input != [] {
      StepFits(s, input[0]);
      LineCounts(s.line, input[0]);
      FitsIsSafe(Step(s, input[0]), input[1..]);
    }
  }

  lemma StepFits(s: State, c: uint8)
    requires s.Valid() && FitsNext(s.line.pos, s.line.number, c)
    ensures Safe(s, c)
  {
    if c == COMMA || c == STAR {
      KeyIsSum(s.data.told.statement, s.line.number);
      assert s.line.Put(0).term[s.line.pos] == 0;
    }
  }

  lemma OrOfDouble(a: nat, b: nat, r: nat)
    ensures Or(2 * a, 2 * b + r) == 2 * Or(a, b + r / 2) + r % 2
  {
  }

  lemma OneBitMore(a: nat, b: nat, r: nat, c: nat)
    requires Or(a, b + r / 2) == c + r / 2
    ensures Or(2 * a, 2 * b + r) == 2 * c + r
  {
    OrOfDouble(a, b, r);
  }

  /** A shifted number leaves the lower bits of the other one alone. */
  lemma {:induction false} OrSplits(a: nat, q: nat, r: nat, k: nat)
    requires r < Power(2, k)
    ensures Or(Shl(a, k), Shl(q, k) + r) == Shl(Or(a, q), k) + r
  {
    if k > 0 {
      OrSplits(a, q, r / 2, k - 1);
      OneBitMore(Shl(a, k - 1), Shl(q, k - 1), r, Shl(Or(a, q), k - 1));
    }
  }

  /** The shifted statement and a term number below 32 do not overlap, so different
      terms have different keys. */
  lemma OrIsSum(a: nat, b: nat, k: nat)
    requires b < Power(2, k)
    ensures Or(Shl(a, k), b) == Shl(a, k) + b
  {
    OrSplits(a, 0, b, k);
    ShlOfZero(k);
  }

  lemma ShlBy5(a: nat)
    ensures Shl(a, 5) == a * 32
  {
    assert Shl(a, 1) == a * 2;
    assert Shl(a, 3) == a * 8;
  }

  // --- Which term sets which flag ---

  /** The statement and the number of the term that a flag stands for; the flag of the
      satellite numbers has eleven more terms behind the one given. */
  function TermOf(flag: int): (Statement, uint8)
    requires 0 <= flag < DESCRIPTIONS
  {
    match flag
    case 0 => (GPGGA, 2) case 1 => (GPGGA, 4) case 2 => (GPGGA, 7) case 3 => (GPGGA, 6) case 4 => (GPGGA, 9)
    case 5 => (GPGGA, 5) case 6 => (GPGGA, 3) case 7 => (GPGGA, 1)
    case 8 => (GPRMC, 7) case 9 => (GPRMC, 9) case 10 => (GPRMC, 2) case 15 => (GPRMC, 8)
    case 11 => (GPGSA, 16) case 12 => (GPGSA, 17) case 13 => (GPGSA, 15) case 14 => (GPGSA, 2)
    case 16 => (GPGSV, 3)
    case _ => (GPGSA, 3)
  }

  ghost predicate StandsFor(flag: int, statement: Statement, number: uint8)
    requires 0 <= flag < DESCRIPTIONS
  {
    var (s, n) := TermOf(flag);
    statement == s && n <= number <= (if flag == 17 then n + 11 else n)
  }

  /** In a sentence of at most 32 terms every term sets just the flag that stands for
      it, and every flag but the one for the descriptions has such a term. */
  lemma TermSetsItsFlag(statement: Statement, number: uint8, flag: int)
    requires number < 32 && 0 <= flag < DESCRIPTIONS
    ensures FlagOf(Or(statement * 32, number)) == flag <==> StandsFor(flag, statement, number)
  {
    KeyIsSum(statement, number);
    FlagOfSum(statement, number);
    FlagHasOneTerm(statement, number, flag);
  }

  /** The flag of a term, read off statement by statement. */
  function FlagOfTerm(statement: Statement, number: uint8): int {
    match statement
    case 0 => (match number case 1 => 7 case 2 => 0 case 3 => 6 case 4 => 1 case 5 => 5 case 6 => 3 case 7 => 2
                            case 9 => 4 case _ => -1)
    case 1 => (match number case 2 => 10 case 7 => 8 case 8 => 15 case 9 => 9 case _ => -1)
    case 2 => (match number case 2 => 14 case 15 => 13 case 16 => 11 case 17 => 12
                            case _ => if 3 <= number <= 14 then 17 else -1)
    case 3 => if number == 3 then 16 else -1
    case _ => -1
  }

  lemma FlagOfSum(statement: Statement, number: uint8)
    requires number < 32
    ensures FlagOf(statement * 32 + number) == FlagOfTerm(statement, number)
  {
  }

  lemma FlagHasOneTerm(statement: Statement, number: uint8, flag: int)
    requires 0 <= flag < DESCRIPTIONS
    ensures FlagOfTerm(statement, number) == flag <==> StandsFor(flag, statement, number)
  {
  }

  /** What a later term is taken for: the upper bits of its number are mixed into the
      statement. */
  function TakenFor(statement: Statement, number: uint8): nat { Or(statement, number / 32) }

  lemma KeySplits(statement: Statement, number: uint8)
    ensures Or(statement * 32, number) == TakenFor(statement, number) * 32 + number % 32
  {
    ShlBy5(statement);
    ShlBy5(number / 32);
    ShlBy5(TakenFor(statement, number));
    assert Power(2, 5) == 32;
    OrSplits(statement, number / 32, number % 32, 5);
  }

  lemma KeyIsSum(statement: Statement, number: uint8)
    requires number < 32
    ensures Or(statement * 32, number) == statement * 32 + number
  {
    ShlBy5(statement);
    assert Power(2, 5) == 32;
    OrIsSum(statement, number, 5);
  }

  /** The flag that any term sets, wherever it stands in its sentence. */
  lemma FlagOfAnyTerm(statement: Statement, number: uint8, flag: int)
    requires 0 <= flag < DESCRIPTIONS
    ensures var taken := TakenFor(statement, number);
            FlagOf(Or(statement * 32, number)) == flag <==> taken < 5 && StandsFor(flag, taken, number % 32)
  {
    var taken := TakenFor(statement, number);
    KeySplits(statement, number);
    if taken < 5 {
      FlagOfSum(taken, number % 32);
      FlagHasOneTerm(taken, number % 32, flag);
    }
  }

  ghost predicate SetsOwnFlag(statement: Statement, number: uint8, flag: int)
    requires 0 <= flag < DESCRIPTIONS
  {
    FlagOf(Or(statement * 32, number)) == flag <==> StandsFor(flag, statement, number)
  }

  /** So a term sets no flag but its own exactly if it is among the first 32, or if what
      it is taken for has no flag. */
  lemma SetsOwnFlagIff(statement: Statement, number: uint8)
    ensures (forall flag :: 0 <= flag < DESCRIPTIONS ==> SetsOwnFlag(statement, number, flag))
       <==> number < 32 || TakenFor(statement, number) > 4
            || FlagOfTerm(TakenFor(statement, number), number % 32) == -1
  {
    if number < 32 {
      forall flag | 0 <= flag < DESCRIPTIONS
        ensures SetsOwnFlag(statement, number, flag)
      {
        TermSetsItsFlag(statement, number, flag);
      }
    } else {
      LateTerm(statement, number);
    }
  }

  lemma LateTerm(statement: Statement, number: uint8)
    requires number >= 32
    ensures (forall flag :: 0 <= flag < DESCRIPTIONS ==> SetsOwnFlag(statement, number, flag))
       <==> TakenFor(statement, number) > 4 || FlagOfTerm(TakenFor(statement, number), number % 32) == -1
  {
    FlagOfLateTerm(statement, number);
    if FlagOf(Or(statement * 32, number)) >= 0 {
      assert !SetsOwnFlag(statement, number, FlagOf(Or(statement * 32, number)));
    }
  }

  lemma FlagOfLateTerm(statement: Statement, number: uint8)
    ensures var taken := TakenFor(statement, number);
            FlagOf(Or(statement * 32, number)) == if taken < 5 then FlagOfTerm(taken, number % 32) else -1
  {
    KeySplits(statement, number);
    if TakenFor(statement, number) < 5 {
      FlagOfSum(TakenFor(statement, number), number % 32);
    }
  }

  /** Term 34 of a GPGGA sentence is taken for term 2 of a GPRMC sentence, while
      term 33 is taken for one that nobody looks at. */
  lemma LateTermExamples()
    ensures FlagOf(Or(GPGGA * 32, 34)) == 10 && StandsFor(10, GPRMC, 2)
    ensures FlagOf(Or(GPGGA * 32, 33)) == -1
  {
  }

  /** The flags after a term: the one of its key is set, also by an empty term; but the
      numbers of satellites that are not empty set theirs only with the last of them. */
  lemma FlagsAfterTerm(d: Data, l: Line, c: uint8)
    requires l.Valid() && l.pos < TERM_SIZE && (c == COMMA || c == STAR)
    ensures var f := FlagOf(d.Key(l.number));
            Learn(d, l, c).flags
            == if 0 <= f && (l.pos == 0 || f != 17 || ToUint8(d.told.idsCount + 1) == d.told.satellites)
               then d.flags + {f} else d.flags
  {
    var m := l.Put(0);
    var e := WithEmpty(d, m.number, m.pos);
    FlagsAfterLookup(e, m.number, m.TermText());
    FirstHasNoFlag(d.told.statement);
  }

  lemma FirstHasNoFlag(statement: Statement)
    ensures FlagOf(Or(statement * 32, 0)) == -1
  {
    KeyIsSum(statement, 0);
    FlagOfSum(statement, 0);
  }

  lemma FlagsAfterLookup(d: Data, number: uint8, text: CString)
    ensures var f := FlagOf(d.Key(number));
            WithTerm(d, number, text).flags
            == if number != 0 && 0 <= f && (f != 17 || ToUint8(d.told.idsCount + 1) == d.told.satellites)
               then d.flags + {f} else d.flags
  {
    var e := d.(customs := UpdateAll(d.customs, d.told.name, number, text));
    assert e.Key(number) == d.Key(number);
  }

  // --- The checksum ---

  /** The characters that the receiver treats specially. */
  predicate IsControl(c: uint8) { c == DOLLAR || c == COMMA || c == STAR || c == CR || c == LF }

  /** The characters of a sentence between the dollar sign and the star. */
  predicate IsBody(t: Text) { forall i :: 0 <= i < |t| ==> t[i] == COMMA || !IsControl(t[i]) }

  function XorOf(body: Text): uint8 {
    if body == [] then 0 else Xor(XorOf(body[..|body| - 1]), body[|body| - 1])
  }

  /** The checksum that is kept while a body is received. */
  lemma {:induction false} BodyIsSummed(l: Line, body: Text)
    requires l.Valid() && IsBody(body)
    ensures var t := RunLine(l, [DOLLAR] + body); t.Valid() && t.crc == XorOf(body) && !t.star
  {
    if body == [] {
      assert [DOLLAR] + body == [] + [DOLLAR];
      FoldOfMore(NextLine, l, [], DOLLAR);
    } else {
      var front, c := body[..|body| - 1], body[|body| - 1];
      assert [DOLLAR] + body == [DOLLAR] + front + [c];
      BodyIsSummed(l, front);
      FoldOfMore(NextLine, l, [DOLLAR] + front, c);
    }
  }

  function Sentence(body: Text, high: uint8, low: uint8): Text { [DOLLAR] + body + [STAR, high, low] }

  /** At the end of a sentence the receiver holds the sum of the body and the two
      digits. */
  lemma SentenceIsHeld(l: Line, body: Text, high: uint8, low: uint8)
    requires l.Valid() && IsBody(body) && !IsControl(high) && !IsControl(low)
    ensures var t := RunLine(l, Sentence(body, high, low));
            t.Valid() && t.crc == XorOf(body) && t.pos == 2 && t.term[0] == high && t.term[1] == low
  {
    var a := [DOLLAR] + body;
    assert Sentence(body, high, low) == a + [STAR] + [high] + [low];
    BodyIsSummed(l, body);
    FoldOfMore(NextLine, l, a, STAR);
    FoldOfMore(NextLine, l, a + [STAR], high);
    FoldOfMore(NextLine, l, a + [STAR] + [high], low);
    DigitsAreHeld(RunLine(l, a), high, low);
  }

  lemma DigitsAreHeld(l: Line, high: uint8, low: uint8)
    requires l.Valid() && !IsControl(high) && !IsControl(low)
    ensures var t := NextLine(NextLine(NextLine(l, STAR), high), low);
            t.Valid() && t.crc == l.crc && t.pos == 2 && t.term[0] == high && t.term[1] == low
  {
  }

  /** Whatever the receiver has seen before: at the carriage return of a sentence
      it keeps its flags if the two digits are the exclusive or of the characters
      between the dollar sign and the star, and loses all of them otherwise. */
  lemma ChecksumDecides(s: State, body: Text, high: uint8, low: uint8)
    requires SafeRun(s, Sentence(body, high, low) + [CR])
    requires s.Valid() && IsBody(body) && !IsControl(high) && !IsControl(low)
    ensures var before := Aged(Run(s, Sentence(body, high, low)).data);
            Run(s, Sentence(body, high, low) + [CR]).data
            == if Checksum(high, low) == XorOf(body) then before else before.Cleared()
  {
    var t := Sentence(body, high, low);
    SentenceIsHeld(s.line, body, high, low);
    LineOfRun(s, t);
    RunOfMore(s, t, CR);
    ReturnDecides(Run(s, t), high, low);
  }

  lemma ReturnDecides(s: State, high: uint8, low: uint8)
    requires s.line.Valid() && s.line.pos == 2 && s.line.term[0] == high && s.line.term[1] == low
    ensures Step(s, CR).data == if Checksum(high, low) == s.line.crc then Aged(s.data) else Aged(s.data).Cleared()
  {
  }

  /** A checksum printed as two hexadecimal digits with zeros as filler, in either
      case, is always accepted. */
  lemma PrintedChecksumIsAccepted(s: State, body: Text, upper: bool)
    requires s.Valid() && IsBody(body)
    ensures var t := Padded(ZERO, 2, Numeral(XorOf(body), 16, upper));
            && |t| == 2
            && (SafeRun(s, Sentence(body, t[0], t[1]) + [CR]) ==>
                  Run(s, Sentence(body, t[0], t[1]) + [CR]).data == Aged(Run(s, Sentence(body, t[0], t[1])).data))
  {
    ChecksumRoundTrip(XorOf(body), upper);
    var t := Padded(ZERO, 2, Numeral(XorOf(body), 16, upper));
    assert t[0] != DOLLAR && t[1] != DOLLAR;
    if SafeRun(s, Sentence(body, t[0], t[1]) + [CR]) {
      ChecksumDecides(s, body, t[0], t[1]);
    }
  }

  // --- Status reports ---

  lemma SetFlagAddsOne(flags: set<int>, key: int)
    ensures |SetFlag(flags, key)| <= |flags| + 1
    ensures SetFlag(SetFlag(flags, key), key) == SetFlag(flags, key)
  {
  }

  lemma KeySetsFlag(d: Data, number: uint8, text: CString)
    ensures WithKey(d, number, text).flags == d.flags
         || WithKey(d, number, text).flags == SetFlag(d.flags, d.Key(number))
  {
  }

  /** An empty term sets the same flag as its key would. */
  lemma TermAddsOne(d: Data, number: uint8, pos: uint8, text: CString)
    ensures |WithTerm(WithEmpty(d, number, pos), number, text).flags| <= |d.flags| + 1
  {
    var e := WithEmpty(d, number, pos);
    SetFlagAddsOne(d.flags, d.Key(number));
    KeySetsFlag(e.(customs := UpdateAll(e.customs, e.told.name, number, text)), number, text);
  }

  lemma EndAddsOne(d: Data, l: Line)
    ensures |WithEnd(d, l).flags| <= |d.flags| + 1
  {
    TermAddsOne(d, l.number, l.pos, l.TermText());
  }

  /** A character adds at most one flag. */
  lemma OneFlagAtMost(d: Data, l: Line, c: uint8)
    ensures |Learn(d, l, c).flags| <= |d.flags| + 1
  {
    if c == COMMA || c == STAR {
      EndAddsOne(d, l.Put(0));
    }
  }

  /** What the status after a character has to do with the state before it. */
  predicate Follows(s: State, t: State) {
    && (t.status == NewData <==> t.data.Complete())
    && (t.status == FirstDataWaiting <==> t.firstTime)
    && (t.firstTime <==> s.firstTime && t.status != NewData)
    && |t.data.flags| <= (if s.data.Complete() then 0 else |s.data.flags|) + 1
  }

  lemma StepFollows(s: State, c: uint8)
    ensures Follows(s, Step(s, c))
  {
    OneFlagAtMost(Aged(s.data), s.line, c);
  }

  predicate FollowsAt(t: seq<State>, k: nat)
    requires 1 <= k < |t|
  {
    Follows(t[k - 1], t[k])
  }

  lemma RunFollows(t: seq<State>, input: Text)
    requires IsRun(Step, t, input)
    ensures forall k :: 1 <= k < |t| ==> FollowsAt(t, k)
  {
    forall k | 1 <= k < |t|
      ensures FollowsAt(t, k)
    {
      assert StepAt(Step, t, input, k);
      StepFollows(t[k - 1], input[k - 1]);
    }
  }

  predicate IsNew(s: State) { s.status == NewData }
  predicate Waits(s: State) { s.firstTime }
  function FlagCount(s: State): nat { |s.data.flags| }

  lemma WaitingLasts(t: seq<State>, k: nat)
    requires 1 <= k < |t| && FollowsAt(t, k)
    ensures LastsAt(Waits, IsNew, t, k)
  {
  }

  lemma FlagsAreCounted(t: seq<State>, k: nat)
    requires 2 <= k < |t| && FollowsAt(t, k - 1) && FollowsAt(t, k)
    ensures CountsAt(FlagCount, IsNew, t, k)
  {
    FlagsGrow(t[k - 2], t[k - 1], t[k]);
  }

  lemma FlagsGrow(r: State, s: State, t: State)
    requires Follows(r, s) && Follows(s, t)
    ensures FlagCount(t) <= (if IsNew(s) then 0 else FlagCount(s)) + 1
  {
  }

  /** A receiver that waits for its first data reports just that until it reports
      new data, and never again afterwards. */
  lemma WaitsUntilFirstData(t: seq<State>, input: Text, k: nat)
    requires IsRun(Step, t, input) && 1 <= k <= |input| && t[0].firstTime
    ensures t[k].status == NewData <==> t[k].data.Complete()
    ensures t[k].status == FirstDataWaiting <==> NoStop(IsNew, t, k)
  {
    RunFollows(t, input);
    forall i | 1 <= i <= k
      ensures LastsAt(Waits, IsNew, t, i)
    {
      WaitingLasts(t, i);
    }
    LastsUntilStop(Waits, IsNew, t, k);
    assert FollowsAt(t, k);
  }

  /** The flags that can be there a number of characters after a report. */
  lemma FlagsSinceReport(t: seq<State>, i: nat, j: nat)
    requires 1 <= i < j < |t| && IsNew(t[i]) && forall k :: 1 <= k < |t| ==> FollowsAt(t, k)
    ensures FlagCount(t[j]) <= j - i
  {
    forall k | i < k <= j
      ensures CountsAt(FlagCount, IsNew, t, k)
    {
      FlagsAreCounted(t, k);
    }
    CountSinceStop(FlagCount, IsNew, t, i, j);
  }

  /** Two reports of new data are at least one character per flag apart. */
  lemma ReportsAreApart(t: seq<State>, input: Text, i: nat, j: nat)
    requires IsRun(Step, t, input) && 1 <= i < j <= |input|
    requires t[i].status == t[j].status == NewData
    ensures j - i >= 19
  {
    RunFollows(t, input);
    assert FollowsAt(t, j);
    FlagsSinceReport(t, i, j);
  }
}
