/** The text-reveal cursor of the web UI (src/stream-reveal.js:32-41, 56-217). Characters are counted
    as UTF-16 units; times are milliseconds. */
module StreamReveal {
  import opened Text

  const REVEAL_MAX_LAG_MS: real := 240.0
  const MIN_LAG_MS: real := 80.0
  const MAX_HOLDBACK: real := 600.0
  const STALL_MS: real := 100.0

  /** `visible` is None for a historical cursor, which shows everything. */
  datatype Cursor = Cursor(
    text: string,
    visible: Option<nat>,
    holdback: real,
    deadline: real,
    cadence: real,
    rate: real,
    lastArrival: Option<real>,
    frame: bool,
    timer: bool,
    lastTick: real)

  function Initial(live: bool): Cursor {
    Cursor("", if live then Some(0) else None, 0.0, 0.0, 80.0, 0.0, None, false, false, 0.0)
  }

  function Max(a: real, b: real): real {
    if a < b then b else a
  }

  function Min(a: real, b: real): real {
    if a < b then a else b
  }

  /** JavaScript's Math.round. */
  function Round(x: real): int {
    (x + 0.5).Floor
  }

  // --- Operations -----------------------------------------------------------------

  function CommonPrefix(a: string, b: string): (n: nat)
    ensures n <= |a| && n <= |b| && a[..n] == b[..n]
    ensures n < |a| && n < |b| ==> a[n] != b[n]
  {
    if a != "" && b != "" && a[0] == b[0] then CommonPrefix(a[1..], b[1..]) + 1 else 0
  }

  /** The texts share too short a head. */
  predicate IsReplacement(previous: string, next: string) {
    && previous != "" && next != ""
    && var limit := if |previous| < |next| then |previous| else |next|;
       CommonPrefix(previous, next) as real < Min(24.0, limit as real * 0.5)
  }

  function Cancelled(c: Cursor): Cursor {
    c.(frame := false, timer := false)
  }

  function Finished(c: Cursor): Cursor {
    Cancelled(c).(holdback := 0.0, visible := Some(|c.text|))
  }

  function Armed(c: Cursor, now: real): Cursor {
    c.(frame := true, timer := true, lastTick := if c.frame then c.lastTick else now)
  }

  function Spread(c: Cursor): real {
    if c.rate > 0.0 then Max(c.cadence * 1.1, c.holdback / c.rate) else REVEAL_MAX_LAG_MS
  }

  /** Characters for each millisecond. */
  function Pace(gained: int, gap: real): real
    requires gap > 0.0
  {
    gained as real / gap
  }

  /** What is left when `dt` of the `remaining` time has gone by. */
  function Drained(holdback: real, dt: real, remaining: real): real
    requires remaining > 0.0
  {
    Max(0.0, holdback - holdback * dt / remaining)
  }

  /** Arrival of `gained` characters. */
  function Measured(c: Cursor, gained: int, now: real): (m: Cursor)
    ensures m == c.(cadence := m.cadence, rate := m.rate)
  {
    if gained > 0 && c.lastArrival.Some? && now - c.lastArrival.value >= 16.0 then
      var gap := now - c.lastArrival.value;
      c.(cadence := c.cadence * 0.5 + Min(gap, 220.0) * 0.5,
         rate := if c.rate > 0.0 then c.rate * 0.5 + Pace(gained, gap) * 0.5 else Pace(gained, gap))
    else c
  }

  function Updated(c: Cursor, text: string, animate: bool, now: real): Cursor {
    if text == c.text then
      if !animate then Finished(c) else if c.holdback > 0.0 then Armed(c, now) else c
    else if !animate || c.visible.None? || IsReplacement(c.text, text) then Finished(c.(text := text))
    else
      var gained := |text| - |c.text|;
      var holdback := Max(0.0, c.holdback + gained as real);
      if holdback > MAX_HOLDBACK then Finished(c.(text := text))
      else
        var m := Measured(c.(text := text, holdback := holdback), gained, now).(
          lastArrival := Some(now),
          visible := if |text| < c.visible.value then Some(|text|) else c.visible);
        if holdback <= 0.0 then Cancelled(m)
        else Armed(m.(deadline := now + Min(REVEAL_MAX_LAG_MS, Max(MIN_LAG_MS, Spread(m)))), now)
  }

  function Ticked(c: Cursor, now: real): Cursor {
    var remaining := c.deadline - now;
    if c.holdback <= 0.5 || remaining <= 0.0 then Finished(c)
    else
      var dt := Max(0.0, Min(now - c.lastTick, remaining));
      var holdback := Drained(c.holdback, dt, remaining);
      var target := |c.text| - Round(holdback);
      c.(frame := true, lastTick := now, holdback := holdback,
         visible := if c.visible.Some? && target > c.visible.value then Some(target) else c.visible)
  }

  /** The stalled-frame watchdog goes off. */
  function Watched(c: Cursor, now: real): Cursor {
    if now - c.lastTick >= STALL_MS then Finished(c) else c.(timer := true)
  }

  // --- What every step keeps ----------------------------------------------------------

  /** What is hidden is the rounded holdback, and a live drain has its next frame booked. */
  predicate Kept(c: Cursor) {
    && 0.0 <= c.holdback <= MAX_HOLDBACK
    && (c.visible.None? ==> c.holdback == 0.0)
    && (c.visible.Some? ==> c.visible.value == |c.text| - Round(c.holdback))
    && (c.holdback > 0.0 ==> c.lastArrival.Some? && c.deadline <= c.lastArrival.value + REVEAL_MAX_LAG_MS)
  }

  lemma RoundShifts(x: real, n: int)
    ensures Round(x + n as real) == Round(x) + n
  {
    assert x + n as real + 0.5 == (x + 0.5) + n as real;
  }

  lemma RoundZero()
    ensures Round(0.0) == 0
  {
  }

  lemma RoundOrdered(x: real, y: real)
    requires x <= y
    ensures Round(x) <= Round(y)
  {
  }

  lemma UpdateKeeps(c: Cursor, text: string, animate: bool, now: real)
    requires Kept(c)
    ensures Kept(Updated(c, text, animate, now))
  {
    hide IsReplacement, Spread;
    var gained := |text| - |c.text|;
    RoundShifts(c.holdback, gained);
    assert Round(0.0) == 0;
    if c.holdback + gained as real <= 0.0 {
      RoundOrdered(c.holdback + gained as real, 0.0);
    }
  }

  lemma DrainShare(h: real, dt: real, remaining: real)
    requires 0.0 <= h && 0.0 <= dt <= remaining && 0.0 < remaining
    ensures 0.0 <= Drained(h, dt, remaining) <= h
  {
    assert h * dt >= 0.0;
    assert h * dt / remaining >= 0.0;
  }

  lemma TickKeeps(c: Cursor, now: real)
    requires Kept(c)
    ensures Kept(Ticked(c, now))
  {
    hide Drained, Round;
    RoundZero();
    var remaining := c.deadline - now;
    if c.holdback > 0.5 && remaining > 0.0 {
      var dt := Max(0.0, Min(now - c.lastTick, remaining));
      DrainShare(c.holdback, dt, remaining);
      var left := Drained(c.holdback, dt, remaining);
      RoundOrdered(left, c.holdback);
      RoundOrdered(0.0, left);
    }
  }

  lemma WatchKeeps(c: Cursor, now: real)
    requires Kept(c)
    ensures Kept(Watched(c, now))
  {
    assert Round(0.0) == 0;
  }

  /** What can happen to a cursor; `Stopped` is a frame loop torn down from outside. */
  datatype Event =
    | Update(text: string, animate: bool, now: real)
    | Frame(now: real)
    | Watchdog(now: real)
    | Finish
    | Stopped

  function Step(c: Cursor, e: Event): Cursor {
    match e
    case Update(text, animate, now) => Updated(c, text, animate, now)
    case Frame(now) => Ticked(c, now)
    case Watchdog(now) => Watched(c, now)
    case Finish => Finished(c)
    case Stopped => Cancelled(c)
  }

  lemma StepKeeps(c: Cursor, e: Event)
    requires Kept(c)
    ensures Kept(Step(c, e))
  {
    hide Kept, Updated, Ticked, Watched;
    match e {
      case Update(text, animate, now) => UpdateKeeps(c, text, animate, now);
      case Frame(now) => TickKeeps(c, now);
      case Watchdog(now) => WatchKeeps(c, now);
      case Finish => TrivialKeeps(c);
      case Stopped => TrivialKeeps(c);
    }
  }

  lemma TrivialKeeps(c: Cursor)
    requires Kept(c)
    ensures Kept(Finished(c)) && Kept(Cancelled(c))
  {
    assert Round(0.0) == 0;
  }

  function After(c: Cursor, events: seq<Event>): Cursor
    decreases |events|
  {
    if events == [] then c else After(Step(c, events[0]), events[1..])
  }

  /** Over any run, in any order of updates, frames and timers. */
  lemma {:induction false} RunKeeps(c: Cursor, events: seq<Event>)
    requires Kept(c)
    ensures Kept(After(c, events))
    decreases |events|
  {
    hide Kept, Step;
    if events != [] {
      StepKeeps(c, events[0]);
      RunKeeps(Step(c, events[0]), events[1..]);
    }
  }

  lemma InitialKept(live: bool)
    ensures Kept(Initial(live))
  {
    assert Round(0.0) == 0;
  }

  function Shown(c: Cursor): nat {
    if c.visible.Some? then c.visible.value else |c.text|
  }

  /** The visible part falls only when the text itself becomes shorter than it. */
  lemma VisibleFallsOnlyWithText(c: Cursor, e: Event)
    requires Kept(c)
    ensures Shown(Step(c, e)) < Shown(c) ==> e.Update? && |e.text| < Shown(c) && Shown(Step(c, e)) == |e.text|
  {
    hide IsReplacement, Spread, Drained, Round;
    StepKeeps(c, e);
    RoundZero();
    RoundOrdered(0.0, c.holdback);
    match e {
      case Update(text, animate, now) => RoundShifts(c.holdback, |text| - |c.text|);
      case Frame(now) =>
      case Watchdog(now) =>
      case Finish =>
      case Stopped =>
    }
  }

  /** Nothing stays hidden: after any run, the first frame 240 ms or more after the last change of the
      text shows all of it. */
  lemma RevealedInTime(live: bool, events: seq<Event>, now: real)
    requires var c := After(Initial(live), events);
             c.lastArrival.Some? ==> c.lastArrival.value + REVEAL_MAX_LAG_MS <= now
    ensures var c := After(Initial(live), events);
            Shown(Ticked(c, now)) == |c.text| && Ticked(c, now).holdback == 0.0
  {
    InitialKept(live);
    RunKeeps(Initial(live), events);
  }

  lemma StepBooksFrame(c: Cursor, e: Event)
    requires Kept(c) && e != Stopped && (c.holdback > 0.0 ==> c.frame && c.timer)
    ensures Step(c, e).holdback > 0.0 ==> Step(c, e).frame && Step(c, e).timer
  {
    hide IsReplacement, Spread, Drained, Round;
  }

  lemma {:induction false} RunBooksFrame(c: Cursor, events: seq<Event>)
    requires Kept(c) && Stopped !in events && (c.holdback > 0.0 ==> c.frame && c.timer)
    ensures After(c, events).holdback > 0.0 ==> After(c, events).frame && After(c, events).timer
    decreases |events|
  {
    hide Kept, Step;
    if events != [] {
      StepKeeps(c, events[0]);
      StepBooksFrame(c, events[0]);
      RunBooksFrame(Step(c, events[0]), events[1..]);
    }
  }

  /** And that frame comes: in every state of a run that nobody stops, a frame and the watchdog are booked
      whenever text is hidden. An update does so even after a stop. */
  lemma HiddenTextHasAFrame(live: bool, events: seq<Event>)
    ensures Stopped !in events && After(Initial(live), events).holdback > 0.0 ==>
              After(Initial(live), events).frame && After(Initial(live), events).timer
    ensures var c := After(Initial(live), events);
            forall text, now :: Updated(c, text, true, now).holdback > 0.0 ==>
                                  Updated(c, text, true, now).frame && Updated(c, text, true, now).timer
  {
    hide Step, After;
    InitialKept(live);
    if Stopped !in events {
      RunBooksFrame(Initial(live), events);
    }
    forall text, now {
      UpdateBooksFrame(After(Initial(live), events), text, now);
    }
  }

  lemma UpdateBooksFrame(c: Cursor, text: string, now: real)
    ensures var next := Updated(c, text, true, now); next.holdback > 0.0 ==> next.frame && next.timer
  {
    hide IsReplacement, Spread;
  }

  // --- What each event shows ----------------------------------------------------------

  /** A text that goes on from the one before is held back: nothing more is shown at once, and the drain has
      80 to 240 milliseconds. */
  lemma ContinuationMeans(c: Cursor, text: string, now: real)
    requires Kept(c) && c.visible.Some? && text != c.text && !IsReplacement(c.text, text)
    requires c.holdback + (|text| - |c.text|) as real <= 600.0
    ensures var t := Step(c, Update(text, true, now));
            var hidden := c.holdback + (|text| - |c.text|) as real;
            && t.text == text && t.lastArrival == Some(now)
            && Shown(t) == (if |text| < Shown(c) then |text| else Shown(c))
            && t.holdback == (if hidden <= 0.0 then 0.0 else hidden)
            && (t.holdback > 0.0 ==> t.frame && t.timer && now + 80.0 <= t.deadline <= now + 240.0)
            && (t.holdback == 0.0 ==> !t.frame && !t.timer)
  {
    hide IsReplacement, Spread;
  }

  /** How long the drain has: a little over the cadence, or as long as the text takes to come in at the
      measured rate, whichever is longer. The measures move half of the way to each arrival. */
  lemma PacingMeans(c: Cursor, text: string, now: real)
    requires Kept(c) && c.visible.Some? && text != c.text && !IsReplacement(c.text, text)
    requires 0.0 < c.holdback + (|text| - |c.text|) as real <= 600.0
    ensures var t := Step(c, Update(text, true, now));
            var gained := |text| - |c.text|;
            && (t.rate <= 0.0 ==> t.deadline == now + 240.0)
            && (t.rate > 0.0 ==>
                  var spread := Max(t.cadence * 11.0 / 10.0, t.holdback / t.rate);
                  t.deadline - now == if spread < 80.0 then 80.0 else if spread > 240.0 then 240.0 else spread)
            && if c.lastArrival.Some? && now - c.lastArrival.value >= 16.0 && gained > 0 then
                 var gap := now - c.lastArrival.value;
                 var step := if gap > 220.0 then 220.0 else gap;
                 && (t.cadence - step) * 2.0 == c.cadence - step
                 && (c.rate <= 0.0 ==> t.rate == gained as real / gap)
                 && (c.rate > 0.0 ==> (t.rate - gained as real / gap) * 2.0 == c.rate - gained as real / gap)
               else t.cadence == c.cadence && t.rate == c.rate
  {
    hide IsReplacement, Round;
  }

  /** Everything is shown at once where there is no animation, no live cursor, a different text, or too much
      of it. */
  lemma AtOnce(c: Cursor, text: string, animate: bool, now: real)
    requires Kept(c)
    ensures !animate || (text != c.text && (c.visible == None || IsReplacement(c.text, text)
                                            || c.holdback + (|text| - |c.text|) as real > 600.0)) ==>
              var t := Step(c, Update(text, animate, now));
              t.text == text && Shown(t) == |text| && t.holdback == 0.0 && !t.frame && !t.timer
    ensures animate && text == c.text ==>
              var t := Step(c, Update(text, animate, now));
              Shown(t) == Shown(c) && t.holdback == c.holdback && t.deadline == c.deadline
  {
    hide IsReplacement, Spread, Round;
  }

  /** A text replaces the one before exactly if the two share no head of 24 characters or of half of the
      shorter one. */
  lemma ReplacementMeans(a: string, b: string)
    ensures IsReplacement(a, b) <==>
            && a != "" && b != ""
            && forall n: nat :: n <= |a| && n <= |b| && a[..n] == b[..n] ==> n < 24 && (2 * n < |a| && 2 * n < |b|)
  {
    if a != "" && b != "" {
      var common := CommonPrefix(a, b);
      forall n: nat | n <= |a| && n <= |b| && a[..n] == b[..n] ensures n <= common {
        assert forall i :: 0 <= i < n ==> a[i] == a[..n][i] && b[i] == b[..n][i];
      }
    }
  }

  /** A frame before the deadline leaves hidden as much as it should, by the time that went by since the last
      one; a frame at the deadline or later, or with half a character left, shows everything. */
  lemma FrameMeans(c: Cursor, now: real)
    requires Kept(c)
    ensures var t := Step(c, Frame(now));
            && t.text == c.text
            && if c.holdback <= 0.5 || c.deadline <= now then
                 Shown(t) == |c.text| && t.holdback == 0.0 && !t.frame && !t.timer
               else
                 var left := c.deadline - now;
                 var gone := Gone(now - c.lastTick, left);
                 && t.holdback * left == c.holdback * (left - gone)
                 && Shown(t) == |c.text| - Round(t.holdback) && t.frame && t.lastTick == now
                 && t.deadline == c.deadline
  {
    hide Drained, Round, Kept;
    TickKeeps(c, now);
    KeptShows(Ticked(c, now));
    KeptShows(c);
    RoundZero();
    var left := c.deadline - now;
    if c.holdback > 0.5 && left > 0.0 {
      DrainIs(c.holdback, Gone(now - c.lastTick, left), left);
    }
  }

  /** The time that a frame counts. */
  function Gone(since: real, left: real): real {
    if since < 0.0 then 0.0 else if since < left then since else left
  }

  lemma KeptShows(c: Cursor)
    requires Kept(c)
    ensures 0.0 <= c.holdback && Shown(c) == |c.text| - Round(c.holdback)
    ensures c.holdback > 0.0 ==> c.visible.Some?
  {
    hide Round;
    RoundZero();
  }

  lemma DrainIs(h: real, dt: real, remaining: real)
    requires 0.0 <= h && 0.0 <= dt <= remaining && 0.0 < remaining
    ensures Drained(h, dt, remaining) * remaining == h * (remaining - dt)
  {
    var share := h * dt / remaining;
    assert share * remaining == h * dt;
    assert h * dt <= h * remaining;
    assert share <= h;
    assert (h - share) * remaining == h * remaining - h * dt;
  }

  /** The drain runs ahead of its deadline: a frame past the middle between the last frame and the deadline
      shows everything, and an earlier one leaves no more than an even drain would. */
  lemma DrainRunsAhead(c: Cursor, now: real)
    requires Kept(c) && c.holdback > 0.5 && c.lastTick <= now < c.deadline
    ensures var t := Step(c, Frame(now));
            && (t.holdback == 0.0 <==> c.deadline - now <= now - c.lastTick)
            && t.holdback * (c.deadline - c.lastTick) <= c.holdback * (c.deadline - now)
  {
    hide *;
    FrameMeans(c, now);
    StepKeeps(c, Frame(now));
    KeptShows(c);
    KeptShows(Step(c, Frame(now)));
    AheadOfEven(Step(c, Frame(now)).holdback, c.holdback, now - c.lastTick, c.deadline - now);
  }

  lemma AheadOfEven(h: real, before: real, since: real, left: real)
    requires 0.0 <= h && 0.0 < before && 0.0 <= since && 0.0 < left
    requires h * left == before * (left - Gone(since, left))
    ensures h == 0.0 <==> left <= since
    ensures h * (left + since) <= before * left
  {
    if left <= since {
      assert h * left == 0.0;
      assert h == 0.0;
    } else {
      assert before * (left - since) > 0.0;
      assert h > 0.0;
      assert h * left == before * left - before * since;
      assert before * since >= 0.0;
      assert h <= before by {
        assert h * left <= before * left;
      }
      assert h * since <= before * since;
      assert h * (left + since) == h * left + h * since;
    }
  }

  /** The watchdog settles a drain whose frames have not come for a tenth of a second. */
  lemma WatchdogMeans(c: Cursor, now: real)
    requires Kept(c)
    ensures var t := Step(c, Watchdog(now));
            if c.lastTick + 100.0 <= now then Shown(t) == |c.text| && t.holdback == 0.0 && !t.frame && !t.timer
            else t == c.(timer := true)
  {
  }

  // --- The cursor object ------------------------------------------------------------------

  class StreamReveal {
    var text: string
    var visible: Option<nat>
    var holdback: real
    var deadline: real
    var cadence: real
    var rate: real
    var lastArrival: Option<real>
    var frame: bool
    var timer: bool
    var lastTick: real

    function State(): Cursor
      reads this
    {
      Cursor(text, visible, holdback, deadline, cadence, rate, lastArrival, frame, timer, lastTick)
    }

    constructor (live: bool)
      ensures State() == Initial(live)
    {
      text, visible := "", if live then Some(0) else None;
      holdback, deadline := 0.0, 0.0;
      cadence, rate, lastArrival := 80.0, 0.0, None;
      frame, timer, lastTick := false, false, 0.0;
    }

    method Update(next: string, animate: bool, now: real)
      modifies this
      ensures State() == Updated(old(State()), next, animate, now)
    {
      hide IsReplacement, Measured, Spread, Min, Max;
      if next == text {
        if !animate {
          Finish();
          return;
        }
        if holdback > 0.0 {
          Run(now);
        }
        return;
      }
      var previous := text;
      text := next;
      var replaced := Replaces(previous, next);
      if !animate || visible.None? || replaced {
        Finish();
        return;
      }
      var gained := |next| - |previous|;
      holdback := Max(0.0, holdback + gained as real);
      if holdback > MAX_HOLDBACK {
        Finish();
        return;
      }
      Measure(gained, now);
      lastArrival := Some(now);
      if |text| < visible.value {
        visible := Some(|text|);
      }
      if holdback <= 0.0 {
        Cancel();
        return;
      }
      var spread := Spread(State());
      deadline := now + Min(REVEAL_MAX_LAG_MS, Max(MIN_LAG_MS, spread));
      Run(now);
    }

    method Measure(gained: int, now: real)
      modifies this`cadence, this`rate
      ensures State() == Measured(old(State()), gained, now)
    {
      hide Pace, Min;
      if gained > 0 && lastArrival.Some? {
        var gap := now - lastArrival.value;
        if gap >= 16.0 {
          cadence := cadence * 0.5 + Min(gap, 220.0) * 0.5;
          rate := if rate > 0.0 then rate * 0.5 + Pace(gained, gap) * 0.5 else Pace(gained, gap);
        }
      }
    }

    method Run(now: real)
      modifies this`frame, this`timer, this`lastTick
      ensures State() == Armed(old(State()), now)
    {
      if !frame {
        lastTick := now;
        frame := true;
      }
      timer := true;
    }

    method Tick(now: real)
      modifies this
      ensures State() == Ticked(old(State()), now)
    {
      hide Drained, Round;
      frame := false;
      var remaining := deadline - now;
      if holdback <= 0.5 || remaining <= 0.0 {
        holdback := 0.0;
        visible := Some(|text|);
        Cancel();
        return;
      }
      var dt := Max(0.0, Min(now - lastTick, remaining));
      lastTick := now;
      holdback := Drained(holdback, dt, remaining);
      var target := |text| - Round(holdback);
      if visible.Some? && target > visible.value {
        visible := Some(target);
      }
      frame := true;
    }

    method WatchdogFires(now: real)
      modifies this
      ensures State() == Watched(old(State()), now)
    {
      timer := false;
      if now - lastTick >= STALL_MS {
        Finish();
        return;
      }
      timer := true;
    }

    method Finish()
      modifies this`frame, this`timer, this`holdback, this`visible
      ensures State() == Finished(old(State()))
    {
      Cancel();
      holdback := 0.0;
      visible := Some(|text|);
    }

    method Cancel()
      modifies this`frame, this`timer
      ensures State() == Cancelled(old(State()))
    {
      frame := false;
      timer := false;
    }
  }

  method Replaces(previous: string, next: string) returns (r: bool)
    ensures r == IsReplacement(previous, next)
  {
    if previous == "" || next == "" {
      return false;
    }
    var limit := if |previous| < |next| then |previous| else |next|;
    var common := 0;
    while common < limit && previous[common] == next[common]
      invariant 0 <= common <= limit && previous[..common] == next[..common]
    {
      common := common + 1;
    }
    CommonPrefixIs(previous, next, common);
    r := common as real < Min(24.0, limit as real * 0.5);
  }

  lemma {:induction false} CommonPrefixIs(a: string, b: string, n: nat)
    requires n <= |a| && n <= |b| && a[..n] == b[..n] && (n == |a| || n == |b| || a[n] != b[n])
    ensures CommonPrefix(a, b) == n
  {
    if n > 0 {
      assert a[0] == a[..n][0] == b[..n][0] == b[0];
      assert a[1..][..n - 1] == a[..n][1..] == b[..n][1..] == b[1..][..n - 1];
      CommonPrefixIs(a[1..], b[1..], n - 1);
    }
  }
}
