/** The button press classifier: a timed state machine that is polled with samples of
    a pin and of the clock. */
module Buttons {
  import opened CTypes

  datatype Press = OnPressed | Normal | Long

  datatype Stage = Start | Pressed | WaitRelease

  /** The settings: the pin's level while the button is held down, and how long a
      normal and a long press have to last. */
  datatype Settings = Settings(active: uint8, normalTime: uint16, longTime: uint16)

  /** One reading of the pin and of the clock. */
  datatype Sample = Sample(status: uint8, now: uint32)

  /** The classifier's state, with all the calls of the handler so far. */
  datatype Watch = Watch(stage: Stage, startTime: uint32, calls: seq<Press>)

  /** The clock value that ends a waiting time; the sum wraps as the clock does. */
  function Limit(start: uint32, time: uint16): uint32 { ToUint32(start + time) }

  // --- The state machine ---

  function AtStart(c: Settings, w: Watch, s: Sample): Watch {
    if w.stage == Start && s.status == c.active then Watch(Pressed, s.now, w.calls + [OnPressed]) else w
  }

  function WhilePressed(c: Settings, w: Watch, s: Sample): Watch {
    if w.stage != Pressed then w
    else if s.status == c.active then
      if s.now > Limit(w.startTime, c.longTime) then w.(stage := WaitRelease, calls := w.calls + [Long]) else w
    else if s.now > Limit(w.startTime, c.normalTime) then w.(stage := WaitRelease, calls := w.calls + [Normal])
    else w.(stage := Start)
  }

  function AtRelease(c: Settings, w: Watch, s: Sample): Watch {
    if w.stage == WaitRelease && s.status != c.active then w.(stage := Start) else w
  }

  function Check(c: Settings, w: Watch, s: Sample): Watch { AtRelease(c, WhilePressed(c, AtStart(c, w, s), s), s) }

  /** The run over a sequence of samples. */
  function Run(c: Settings, w: Watch, samples: seq<Sample>): Watch {
    if samples == [] then w else Check(c, Run(c, w, samples[..|samples| - 1]), samples[|samples| - 1])
  }

  // --- What it is to do, said about the samples alone ---

  predicate Down(c: Settings, samples: seq<Sample>, k: nat)
    requires k < |samples|
  {
    samples[k].status == c.active
  }

  /** The first sample of the unbroken press that sample k belongs to. */
  function PressStart(c: Settings, samples: seq<Sample>, k: nat): (i: nat)
    requires k < |samples| && Down(c, samples, k)
    ensures i <= k && forall j :: i <= j <= k ==> Down(c, samples, j)
    ensures i > 0 ==> !Down(c, samples, i - 1)
  {
    if k == 0 || !Down(c, samples, k - 1) then k else PressStart(c, samples, k - 1)
  }

  predicate After(samples: seq<Sample>, i: nat, time: uint16, j: nat)
    requires i < |samples| && j < |samples|
  {
    samples[j].now > Limit(samples[i].now, time)
  }

  /** One of the samples from i up to but not including k is late enough for a long
      press that starts at i. */
  predicate LongBefore(c: Settings, samples: seq<Sample>, i: nat, k: nat)
    requires i <= k <= |samples|
  {
    exists j :: i <= j < k && After(samples, i, c.longTime, j)
  }

  /** The calls at sample k: a press begins; it becomes long, once; or it ends before
      that but after the time of a normal press. */
  function CallsAt(c: Settings, samples: seq<Sample>, k: nat): seq<Press>
    requires k < |samples|
  {
    if Down(c, samples, k) then
      var i := PressStart(c, samples, k);
      (if i == k then [OnPressed] else [])
      + (if After(samples, i, c.longTime, k) && !LongBefore(c, samples, i, k) then [Long] else [])
    else if k > 0 && Down(c, samples, k - 1) then
      var i := PressStart(c, samples, k - 1);
      if After(samples, i, c.normalTime, k) && !LongBefore(c, samples, i, k) then [Normal] else []
    else []
  }

  function CallsUpTo(c: Settings, samples: seq<Sample>, k: nat): seq<Press>
    requires k <= |samples|
  {
    if k == 0 then [] else CallsUpTo(c, samples, k - 1) + CallsAt(c, samples, k - 1)
  }

  /** The stage that goes with the samples up to the k-th. */
  predicate Agrees(c: Settings, samples: seq<Sample>, k: nat, w: Watch)
    requires k <= |samples|
  {
    if k == 0 || !Down(c, samples, k - 1) then w.stage == Start
    else
      var i := PressStart(c, samples, k - 1);
      if LongBefore(c, samples, i, k) then w.stage == WaitRelease
      else w.stage == Pressed && w.startTime == samples[i].now
  }

  lemma CheckAgrees(c: Settings, samples: seq<Sample>, k: nat, w: Watch)
    requires k < |samples| && Agrees(c, samples, k, w)
    ensures var v := Check(c, w, samples[k]);
            Agrees(c, samples, k + 1, v) && v.calls == w.calls + CallsAt(c, samples, k)
  {
  }

  lemma {:induction false} RunAgrees(c: Settings, w: Watch, samples: seq<Sample>, k: nat)
    requires w.stage == Start && k <= |samples|
    ensures Agrees(c, samples, k, Run(c, w, samples[..k]))
  {
    if k > 0 {
      RunAgrees(c, w, samples, k - 1);
      RunOfMore(c, w, samples, k - 1);
      CheckAgrees(c, samples, k - 1, Run(c, w, samples[..k - 1]));
    }
  }

  /** From the start, the handler is called just as it should be, at every sample. */
  lemma {:induction false} RunIsAsMeant(c: Settings, w: Watch, samples: seq<Sample>, k: nat)
    requires w.stage == Start && k <= |samples|
    ensures Run(c, w, samples[..k]).calls == w.calls + CallsUpTo(c, samples, k)
  {
    if k > 0 {
      RunIsAsMeant(c, w, samples, k - 1);
      CallsOfMore(c, w, samples, k - 1);
      Regroup(w.calls, CallsUpTo(c, samples, k - 1), CallsAt(c, samples, k - 1));
    }
  }

  lemma CallsOfMore(c: Settings, w: Watch, samples: seq<Sample>, k: nat)
    requires w.stage == Start && k < |samples|
    ensures Run(c, w, samples[..k + 1]).calls == Run(c, w, samples[..k]).calls + CallsAt(c, samples, k)
  {
    RunOfMore(c, w, samples, k);
    RunAgrees(c, w, samples, k);
    CheckAgrees(c, samples, k, Run(c, w, samples[..k]));
  }

  lemma Regroup<T>(a: seq<T>, b: seq<T>, c: seq<T>)
    ensures a + b + c == a + (b + c)
  {
  }

  lemma RunOfMore(c: Settings, w: Watch, samples: seq<Sample>, k: nat)
    requires k < |samples|
    ensures Run(c, w, samples[..k + 1]) == Check(c, Run(c, w, samples[..k]), samples[k])
  {
    assert samples[..k + 1][..k] == samples[..k];
  }

  /** As long as the clock does not wrap, a long press has lasted for more than the
      long time, unbroken, and a normal press has ended after more than the normal
      time and was never reported as long. */
  lemma PressesTakeTime(c: Settings, samples: seq<Sample>, k: nat)
    requires k < |samples|
    requires forall j :: 0 <= j < |samples| ==> samples[j].now < 0xffff_0000
    ensures Long in CallsAt(c, samples, k) ==>
              exists i :: 0 <= i < k && OnPressed in CallsAt(c, samples, i)
                          && (forall j :: i <= j <= k ==> Down(c, samples, j))
                          && samples[k].now > samples[i].now + c.longTime
    ensures Normal in CallsAt(c, samples, k) ==>
              exists i :: 0 <= i < k && OnPressed in CallsAt(c, samples, i)
                          && (forall j :: i <= j < k ==> Down(c, samples, j) && Long !in CallsAt(c, samples, j))
                          && !Down(c, samples, k) && samples[k].now > samples[i].now + c.normalTime
  {
    if Long in CallsAt(c, samples, k) {
      var i := PressStart(c, samples, k);
      assert PressStart(c, samples, i) == i;
    }
    if Normal in CallsAt(c, samples, k) {
      var i := PressStart(c, samples, k - 1);
      assert PressStart(c, samples, i) == i;
      forall j | i <= j < k
        ensures Long !in CallsAt(c, samples, j)
      {
        SamePress(c, samples, i, j);
      }
    }
  }

  lemma {:induction false} SamePress(c: Settings, samples: seq<Sample>, i: nat, j: nat)
    requires i <= j < |samples| && forall l :: i <= l <= j ==> Down(c, samples, l)
    requires i == 0 || !Down(c, samples, i - 1)
    ensures PressStart(c, samples, j) == i
  {
  }

  // --- When each call is made ---

  /** The calls of the handler at sample k. */
  function NewCalls(c: Settings, w: Watch, samples: seq<Sample>, k: nat): seq<Press>
    requires k < |samples|
  {
    var before, after := Run(c, w, samples[..k]).calls, Run(c, w, samples[..k + 1]).calls;
    if before <= after then after[|before|..] else []
  }

  lemma NewCallsAreMeant(c: Settings, w: Watch, samples: seq<Sample>, k: nat)
    requires w.stage == Start && k < |samples|
    ensures Run(c, w, samples[..k + 1]).calls == Run(c, w, samples[..k]).calls + NewCalls(c, w, samples, k)
    ensures NewCalls(c, w, samples, k) == CallsAt(c, samples, k)
  {
    CallsOfMore(c, w, samples, k);
  }

  /** Sample i is the first of a press that is not broken up to sample k. */
  predicate Unbroken(c: Settings, samples: seq<Sample>, i: nat, k: nat)
    requires i <= k < |samples|
  {
    (forall j :: i <= j <= k ==> samples[j].status == c.active) && (i > 0 ==> samples[i - 1].status != c.active)
  }

  lemma UnbrokenStart(c: Settings, samples: seq<Sample>, i: nat, k: nat)
    requires i <= k < |samples|
    ensures Unbroken(c, samples, i, k) <==> Down(c, samples, k) && i == PressStart(c, samples, k)
  {
    if Unbroken(c, samples, i, k) {
      forall l | i <= l <= k
        ensures Down(c, samples, l)
      {
      }
      SamePress(c, samples, i, k);
    }
  }

  /** Before sample k, no sample of the press has been later than `limit`. */
  predicate NotLate(samples: seq<Sample>, i: nat, k: nat, limit: int)
    requires i <= k <= |samples|
  {
    forall j :: i <= j < k ==> samples[j].now <= limit
  }

  lemma LongAt(c: Settings, samples: seq<Sample>, i: nat, k: nat, limit: int)
    requires k < |samples| && i <= k && Unbroken(c, samples, i, k)
    requires limit == (samples[i].now + c.longTime) % 0x1_0000_0000
    ensures Long in CallsAt(c, samples, k) <==> samples[k].now > limit && NotLate(samples, i, k, limit)
  {
    UnbrokenStart(c, samples, i, k);
    NotLongBefore(c, samples, i, k, limit);
  }

  lemma NotLongBefore(c: Settings, samples: seq<Sample>, i: nat, k: nat, limit: int)
    requires i <= k <= |samples| && i < |samples| && limit == (samples[i].now + c.longTime) % 0x1_0000_0000
    ensures LongBefore(c, samples, i, k) <==> !NotLate(samples, i, k, limit)
  {
    if j :| i <= j < k && samples[j].now > limit {
      assert After(samples, i, c.longTime, j);
    }
  }

  lemma NormalAt(c: Settings, samples: seq<Sample>, i: nat, k: nat, limit: int)
    requires 0 < k < |samples| && i < k && Unbroken(c, samples, i, k - 1)
    requires limit == (samples[i].now + c.longTime) % 0x1_0000_0000
    ensures Normal in CallsAt(c, samples, k) <==>
            && samples[k].status != c.active
            && samples[k].now > (samples[i].now + c.normalTime) % 0x1_0000_0000
            && NotLate(samples, i, k, limit)
  {
    UnbrokenStart(c, samples, i, k - 1);
    NotLongBefore(c, samples, i, k, limit);
  }

  /** The handler is told of a press exactly at the first sample of it. */
  lemma PressIsCalledIff(c: Settings, w: Watch, samples: seq<Sample>, k: nat)
    requires w.stage == Start && k < |samples|
    ensures OnPressed in NewCalls(c, w, samples, k)
       <==> samples[k].status == c.active && (k == 0 || samples[k - 1].status != c.active)
  {
    NewCallsAreMeant(c, w, samples, k);
  }

  /** It is told of a long press exactly at the first sample of an unbroken press that is
      later than the long time after its start, in the 32 bits of the clock: if there
      is such a call, there is such a press ... */
  lemma LongOnlyIf(c: Settings, w: Watch, samples: seq<Sample>, k: nat) returns (i: nat)
    requires w.stage == Start && k < |samples| && Long in NewCalls(c, w, samples, k)
    ensures i <= k && (forall j :: i <= j <= k ==> samples[j].status == c.active)
    ensures i > 0 ==> samples[i - 1].status != c.active
    ensures samples[k].now > (samples[i].now + c.longTime) % 0x1_0000_0000
    ensures forall j :: i <= j < k ==> samples[j].now <= (samples[i].now + c.longTime) % 0x1_0000_0000
  {
    NewCallsAreMeant(c, w, samples, k);
    i := PressStart(c, samples, k);
    UnbrokenStart(c, samples, i, k);
    LongAt(c, samples, i, k, (samples[i].now + c.longTime) % 0x1_0000_0000);
  }

  /** ... and if there is such a press, there is such a call. */
  lemma LongIf(c: Settings, w: Watch, samples: seq<Sample>, k: nat, i: nat)
    requires w.stage == Start && i <= k < |samples|
    requires forall j :: i <= j <= k ==> samples[j].status == c.active
    requires i > 0 ==> samples[i - 1].status != c.active
    requires samples[k].now > (samples[i].now + c.longTime) % 0x1_0000_0000
    requires forall j :: i <= j < k ==> samples[j].now <= (samples[i].now + c.longTime) % 0x1_0000_0000
    ensures Long in NewCalls(c, w, samples, k)
  {
    NewCallsAreMeant(c, w, samples, k);
    LongAt(c, samples, i, k, (samples[i].now + c.longTime) % 0x1_0000_0000);
  }

  /** It is told of a normal press exactly when an unbroken press has just ended that was
      never long, later than the normal time after its start. */
  lemma NormalOnlyIf(c: Settings, w: Watch, samples: seq<Sample>, k: nat) returns (i: nat)
    requires w.stage == Start && k < |samples| && Normal in NewCalls(c, w, samples, k)
    ensures i < k && (forall j :: i <= j < k ==> samples[j].status == c.active) && samples[k].status != c.active
    ensures i > 0 ==> samples[i - 1].status != c.active
    ensures samples[k].now > (samples[i].now + c.normalTime) % 0x1_0000_0000
    ensures forall j :: i <= j < k ==> samples[j].now <= (samples[i].now + c.longTime) % 0x1_0000_0000
  {
    NewCallsAreMeant(c, w, samples, k);
    i := PressStart(c, samples, k - 1);
    UnbrokenStart(c, samples, i, k - 1);
    NormalAt(c, samples, i, k, (samples[i].now + c.longTime) % 0x1_0000_0000);
  }

  lemma NormalIf(c: Settings, w: Watch, samples: seq<Sample>, k: nat, i: nat)
    requires w.stage == Start && i < k < |samples|
    requires (forall j :: i <= j < k ==> samples[j].status == c.active) && samples[k].status != c.active
    requires i > 0 ==> samples[i - 1].status != c.active
    requires samples[k].now > (samples[i].now + c.normalTime) % 0x1_0000_0000
    requires forall j :: i <= j < k ==> samples[j].now <= (samples[i].now + c.longTime) % 0x1_0000_0000
    ensures Normal in NewCalls(c, w, samples, k)
  {
    NewCallsAreMeant(c, w, samples, k);
    NormalAt(c, samples, i, k, (samples[i].now + c.longTime) % 0x1_0000_0000);
  }

  /** While the clock does not wrap, these are the plain times.  Of a press with first
      sample i that is unbroken up to sample k: */
  lemma PlainLong(c: Settings, w: Watch, samples: seq<Sample>, i: nat, k: nat)
    requires w.stage == Start && i <= k < |samples| && samples[i].now < 0xffff_0000
    requires forall j :: i <= j <= k ==> samples[j].status == c.active
    requires i > 0 ==> samples[i - 1].status != c.active
    ensures Long in NewCalls(c, w, samples, k)
       <==> samples[k].now > samples[i].now + c.longTime
            && forall j :: i <= j < k ==> samples[j].now <= samples[i].now + c.longTime
  {
    NewCallsAreMeant(c, w, samples, k);
    LongAt(c, samples, i, k, samples[i].now + c.longTime);
  }

  /** ... and up to the one before sample k: */
  lemma PlainNormal(c: Settings, w: Watch, samples: seq<Sample>, i: nat, k: nat)
    requires w.stage == Start && i < k < |samples| && samples[i].now < 0xffff_0000
    requires forall j :: i <= j < k ==> samples[j].status == c.active
    requires i > 0 ==> samples[i - 1].status != c.active
    ensures Normal in NewCalls(c, w, samples, k)
       <==> samples[k].status != c.active && samples[k].now > samples[i].now + c.normalTime
            && forall j :: i <= j < k ==> samples[j].now <= samples[i].now + c.longTime
  {
    NewCallsAreMeant(c, w, samples, k);
    assert (samples[i].now + c.normalTime) % 0x1_0000_0000 == samples[i].now + c.normalTime;
    NormalAt(c, samples, i, k, samples[i].now + c.longTime);
  }

  // --- The order of the calls ---

  /** The language (OnPressed (Normal | Long)?)*. */
  predicate InOrder(calls: seq<Press>) {
    calls == [] ||
    (var n := |calls| - 1;
     if calls[n] == OnPressed then InOrder(calls[..n])
     else n > 0 && calls[n - 1] == OnPressed && InOrder(calls[..n - 1]))
  }

  predicate Ordered(w: Watch) {
    InOrder(w.calls) && (w.stage == Pressed ==> w.calls != [] && w.calls[|w.calls| - 1] == OnPressed)
  }

  lemma CallKeepsOrder(calls: seq<Press>, p: Press)
    requires InOrder(calls)
    requires p == OnPressed || (calls != [] && calls[|calls| - 1] == OnPressed)
    ensures InOrder(calls + [p])
  {
    var all := calls + [p];
    assert all[..|calls|] == calls;
    if p != OnPressed {
      assert all[..|calls| - 1] == calls[..|calls| - 1];
    }
  }

  lemma StartKeepsOrder(c: Settings, w: Watch, s: Sample)
    requires Ordered(w)
    ensures Ordered(AtStart(c, w, s))
  {
  }

  lemma PressedKeepsOrder(c: Settings, w: Watch, s: Sample)
    requires Ordered(w)
    ensures Ordered(WhilePressed(c, w, s))
  {
    if w.stage == Pressed {
      CallKeepsOrder(w.calls, if s.status == c.active then Long else Normal);
    }
  }

  lemma CheckKeepsOrder(c: Settings, w: Watch, s: Sample)
    requires Ordered(w)
    ensures Ordered(Check(c, w, s))
  {
    StartKeepsOrder(c, w, s);
    PressedKeepsOrder(c, AtStart(c, w, s), s);
    assert Check(c, w, s).calls == WhilePressed(c, AtStart(c, w, s), s).calls;
  }

  /** Whatever the samples and the clock, every normal or long press comes directly
      after the start of its press. */
  lemma {:induction false} CallsAreInOrder(c: Settings, w: Watch, samples: seq<Sample>)
    requires w.stage == Start && w.calls == []
    ensures Ordered(Run(c, w, samples))
  {
    if samples != [] {
      CallsAreInOrder(c, w, samples[..|samples| - 1]);
      CheckKeepsOrder(c, Run(c, w, samples[..|samples| - 1]), samples[|samples| - 1]);
    }
  }

  // --- The driver ---

  class Button {
    const settings: Settings
    const handler: bool
    var stage: Stage
    var startTime: uint32
    var lastStatus: uint8
    var calls: seq<Press>

    ghost function Now(): Watch
      reads this
    {
      Watch(stage, startTime, calls)
    }

    /** The state machine's next state; without a handler nothing is called. */
    ghost function Checked(w: Watch, s: Sample): Watch {
      var v := Check(settings, w, s);
      if handler then v else v.(calls := w.calls)
    }

    constructor (settings: Settings, handler: bool)
      ensures this.settings == settings && this.handler == handler && Now() == Watch(Start, 0, [])
    {
      this.settings := settings;
      this.handler := handler;
      stage, startTime, lastStatus, calls := Start, 0, 0, [];
    }

    method Call(p: Press)
      modifies this`calls
      ensures calls == if handler then old(calls) + [p] else old(calls)
    {
      if handler {
        calls := calls + [p];
      }
    }

    method CheckButton(status: uint8, now: uint32)
      modifies this
      ensures Now() == Checked(old(Now()), Sample(status, now)) && lastStatus == status
    {
      if stage == Start {
        if status == settings.active {
          stage := Pressed;
          startTime := now;
          Call(OnPressed);
        }
      }
      if stage == Pressed {
        if status == settings.active {
          if now > ToUint32(startTime + settings.longTime) {
            Call(Long);
            stage := WaitRelease;
          }
        } else if now > ToUint32(startTime + settings.normalTime) {
          Call(Normal);
          stage := WaitRelease;
        } else {
          stage := Start;
        }
      }
      if stage == WaitRelease {
        if status != settings.active {
          stage := Start;
        }
      }
      lastStatus := status;
    }
  }

  /** One reading for every button; the buttons do not disturb each other. */
  method Update(buttons: array<Button>, samples: seq<Sample>)
    requires |samples| == buttons.Length
    requires forall i, j :: 0 <= i < j < buttons.Length ==> buttons[i] != buttons[j]
    modifies set i | 0 <= i < buttons.Length :: buttons[i]
    ensures forall i :: 0 <= i < buttons.Length ==>
              buttons[i].Now() == buttons[i].Checked(old(buttons[i].Now()), samples[i])
  {
    for i := 0 to buttons.Length
      invariant forall j :: 0 <= j < i ==> buttons[j].Now() == buttons[j].Checked(old(buttons[j].Now()), samples[j])
      invariant forall j :: i <= j < buttons.Length ==> buttons[j].Now() == old(buttons[j].Now())
    {
      buttons[i].CheckButton(samples[i].status, samples[i].now);
    }
  }
}
