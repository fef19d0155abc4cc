/** The chord-hold detector (`useChordHold`): it tracks the pressed keys,
    starts a hold when every target key is down, reports progress on every
    animation frame, fires the success callback once the hold has lasted the
    configured duration, and then ignores the chord for a 2000 ms cooldown.

    The state is a `Hold` value and every event is a function from the old
    state to the new one; the class `Detector` keeps the same state in mutable
    fields, as the hook keeps it in refs, and each of its methods is tied to
    the matching function. */
module ChordHold {
  import opened Keys

  datatype Option<T> = None | Some(value: T)

  /** A `Date.now()` reading in milliseconds. Epoch readings are positive, so
      a stored start time is never the falsy 0 and `!startTimeRef.current`
      means exactly "no start time". */
  type Millis = t: int | t > 0 witness 1

  /** Delay of the `setTimeout` that clears the completion latch. */
  const CooldownMs: int := 2000

  /** The hook's default hold duration (`duration = 2000`). */
  const DefaultDurationMs: int := 2000

  /** The audible cue the detector emits when a hold starts (`'scanning'`). */
  datatype Cue = Scanning

  /** The hook's arguments: the target key names and the hold duration in ms. */
  datatype Config = Config(targets: seq<string>, duration: int)

  /** The configuration the application mounts: hold C, O and 2 for the
      2000 ms it passes explicitly. */
  const Unlock: Config := Config(["c", "o", "2"], 2000)

  /** The detector's state.
      pressed      - the `pressedKeys` set, lower-cased names
      start        - `startTimeRef`
      completed    - `completedRef`, the latch set on success
      progress     - the last value passed to `setProgress`
      framePending - an `animate` callback is scheduled with `requestAnimationFrame`
      cooldownDue  - the time at which the armed cooldown timer is due
      successes    - how many times `onSuccess` has been called
      cues         - the cues played, in order */
  datatype Hold = Hold(
    pressed: set<string>,
    start: Option<Millis>,
    completed: bool,
    progress: real,
    framePending: bool,
    cooldownDue: Option<int>,
    successes: nat,
    cues: seq<Cue>)

  /** The state right after the hook mounts. */
  function Mounted(): (r: Hold)
    ensures r.pressed == {} && r.start.None? && !r.completed && r.progress == 0.0
    ensures !r.framePending && r.cooldownDue.None? && r.successes == 0 && r.cues == []
  {
    Hold({}, None, false, 0.0, false, None, 0, [])
  }

  /** `Math.min`. */
  function Min(a: real, b: real): (m: real)
    ensures m <= a && m <= b && (m == a || m == b)
  {
    if a <= b then a else b
  }

  /** `Math.min((elapsed / duration) * 100, 100)` over the reals. For a zero
      duration JavaScript divides to +Infinity (read here as 100) when
      `elapsed > 0`; the other zero-duration cases are written as 0. */
  function Progress(elapsed: int, duration: int): (p: real)
    ensures p <= 100.0
    ensures 0 <= elapsed && 0 < duration ==> 0.0 <= p
    ensures 0 < duration && elapsed >= duration ==> p == 100.0
    ensures 0 < duration && elapsed < duration ==> p * duration as real == elapsed as real * 100.0
  {
    if duration == 0 then (if elapsed > 0 then 100.0 else 0.0)
    else Min(elapsed as real / duration as real * 100.0, 100.0)
  }

  lemma {:induction false} ProgressMonotone(e1: int, e2: int, duration: int)
    requires 0 < duration && e1 <= e2
    ensures Progress(e1, duration) <= Progress(e2, duration)
  {
    var d := duration as real;
    assert e1 as real / d <= e2 as real / d by {
      assert (e2 as real - e1 as real) / d >= 0.0;
      assert e2 as real / d - e1 as real / d == (e2 as real - e1 as real) / d;
    }
  }

  /** The object invariant of the detector under configuration `c`. */
  predicate Consistent(c: Config, s: Hold) {
    (forall k :: k in s.pressed ==> Lower(k) == k)
    // a frame is scheduled exactly while a hold is timing
    && (s.framePending <==> s.start.Some?)
    // a hold only times while the whole chord is down and the latch is clear
    && (s.start.Some? ==> ChordSatisfied(c.targets, s.pressed) && !s.completed)
    // the latch is set exactly while the cooldown timer is armed
    && (s.completed <==> s.cooldownDue.Some?)
    // progress reads 0 whenever no hold is timing
    && (s.start.None? ==> s.progress == 0.0)
  }

  /** `handleKeyDown`: the key-down condition under which a hold starts. */
  predicate StartsHold(c: Config, s: Hold, key: string): (r: bool)
    ensures r ==> forall i :: 0 <= i < |c.targets| ==> Lower(c.targets[i]) in s.pressed + {Lower(key)}
    ensures r ==> Lower(key) !in s.pressed && s.start.None? && !s.completed
  {
    && Lower(key) !in s.pressed
    && ChordSatisfied(c.targets, s.pressed + {Lower(key)})
    && s.start.None?
    && !s.completed
  }

  /** `handleKeyDown(e)` with `e.key == key` at time `now`. */
  function AfterKeyDown(c: Config, s: Hold, key: string, now: Millis): (r: Hold)
    ensures r.pressed == s.pressed + {Lower(key)}
    ensures r.successes == s.successes && r.completed == s.completed && r.progress == s.progress
    ensures r.cooldownDue == s.cooldownDue
  {
    var k := Lower(key);
    if k in s.pressed then s
    else if StartsHold(c, s, key) then
      s.(pressed := s.pressed + {k}, start := Some(now), cues := s.cues + [Scanning], framePending := true)
    else
      s.(pressed := s.pressed + {k})
  }

  /** `handleKeyUp(e)` with `e.key == key`. */
  function AfterKeyUp(c: Config, s: Hold, key: string): (r: Hold)
    ensures r.pressed == s.pressed - {Lower(key)}
    ensures r.successes == s.successes && r.completed == s.completed && r.cues == s.cues
    ensures r.cooldownDue == s.cooldownDue
    // a key-up never starts a hold: it keeps the start time or clears it
    ensures r.start == s.start || r.start.None?
    ensures s.start.None? ==> r == s.(pressed := s.pressed - {Lower(key)})
  {
    var pressed := s.pressed - {Lower(key)};
    if !ChordSatisfied(c.targets, pressed) && s.start.Some? then
      s.(pressed := pressed, start := None, progress := 0.0, framePending := false)
    else
      s.(pressed := pressed)
  }

  /** The scheduled `animate` callback running at time `now`. */
  function AfterTick(c: Config, s: Hold, now: Millis): (r: Hold)
    ensures r.pressed == s.pressed && r.cues == s.cues
    ensures s.start.None? ==> r == s
    ensures r.successes <= s.successes + 1
  {
    if s.start.None? then s
    else
      var elapsed := now - s.start.value;
      var p := Progress(elapsed, c.duration);
      if elapsed >= c.duration then
        s.(completed := true, successes := s.successes + 1, start := None,
           progress := 0.0, framePending := false, cooldownDue := Some(now + CooldownMs))
      else
        s.(progress := p, framePending := true)
  }

  /** The cooldown timer firing: `completedRef.current = false`. */
  function AfterCooldown(s: Hold): (r: Hold)
    ensures !r.completed && r.cooldownDue.None?
    ensures r.pressed == s.pressed && r.start == s.start && r.successes == s.successes
    ensures r.progress == s.progress && r.framePending == s.framePending && r.cues == s.cues
  {
    s.(completed := false, cooldownDue := None)
  }

  // ---------------------------------------------------------------------------
  // Key-down

  /** A repeated key-down (same name after lower-casing) changes nothing, so it
      cannot restart the hold timer. */
  lemma RepeatedKeyDownIsNoop(c: Config, s: Hold, key: string, now: Millis)
    requires Lower(key) in s.pressed
    ensures AfterKeyDown(c, s, key, now) == s
  {
  }

  /** A key-down starts a hold exactly when the key is new, every target key,
      lower-cased, is then pressed, no hold is timing and the latch is clear.
      A started hold is timed from `now` and plays exactly one scanning cue. */
  lemma KeyDownStartsHoldIff(c: Config, s: Hold, key: string, now: Millis)
    ensures var r := AfterKeyDown(c, s, key, now);
      (r.start != s.start <==>
        && Lower(key) !in s.pressed
        && (forall i :: 0 <= i < |c.targets| ==> Lower(c.targets[i]) in s.pressed + {Lower(key)})
        && s.start.None?
        && !s.completed)
    ensures var r := AfterKeyDown(c, s, key, now);
      r.start != s.start ==> r.start == Some(now) && r.cues == s.cues + [Scanning] && r.framePending
    ensures var r := AfterKeyDown(c, s, key, now);
      r.start == s.start ==> r.cues == s.cues && r.framePending == s.framePending
  {
    ChordSatisfiedIff(c.targets, s.pressed + {Lower(key)});
  }

  /** Key names that differ only in case are one key to the key-down handler. */
  lemma KeyDownIgnoresCase(c: Config, s: Hold, a: string, b: string, now: Millis)
    requires SameUpToCase(a, b)
    ensures AfterKeyDown(c, s, a, now) == AfterKeyDown(c, s, b, now)
  {
    LowerEqualIff(a, b);
  }

  /** While the latch is set no key-down starts a hold. */
  lemma LatchBlocksKeyDown(c: Config, s: Hold, key: string, now: Millis)
    requires s.completed
    ensures AfterKeyDown(c, s, key, now).start == s.start
    ensures AfterKeyDown(c, s, key, now).cues == s.cues
  {
  }

  // ---------------------------------------------------------------------------
  // Key-up

  /** A key-up that leaves the chord unsatisfied during a hold resets it:
      no start time, progress 0 and the pending frame cancelled. Otherwise the
      timing part of the state is untouched. */
  lemma KeyUpResetsIff(c: Config, s: Hold, key: string)
    requires s.start.Some?
    ensures var r := AfterKeyUp(c, s, key);
      (r.start.None? <==> !(forall i :: 0 <= i < |c.targets| ==> Lower(c.targets[i]) in s.pressed - {Lower(key)}))
    ensures var r := AfterKeyUp(c, s, key);
      r.start.None? ==> r.progress == 0.0 && !r.framePending
    ensures var r := AfterKeyUp(c, s, key);
      r.start.Some? ==> r.start == s.start && r.progress == s.progress && r.framePending == s.framePending
  {
    ChordSatisfiedIff(c.targets, s.pressed - {Lower(key)});
  }

  /** Key names that differ only in case are one key to the key-up handler. */
  lemma KeyUpIgnoresCase(c: Config, s: Hold, a: string, b: string)
    requires SameUpToCase(a, b)
    ensures AfterKeyUp(c, s, a) == AfterKeyUp(c, s, b)
  {
    LowerEqualIff(a, b);
  }

  /** Releasing a key that is not a target key never disturbs a consistent hold. */
  lemma ReleaseOfOtherKeyKeepsHold(c: Config, s: Hold, key: string)
    requires Consistent(c, s)
    requires forall i :: 0 <= i < |c.targets| ==> Lower(c.targets[i]) != Lower(key)
    ensures AfterKeyUp(c, s, key).start == s.start
    ensures AfterKeyUp(c, s, key).framePending == s.framePending
  {
    ReleaseOfNonTarget(c.targets, s.pressed, Lower(key));
  }

  // ---------------------------------------------------------------------------
  // Animation frames

  /** A frame that finds no start time does nothing. */
  lemma TickWithoutHoldIsNoop(c: Config, s: Hold, now: Millis)
    requires s.start.None?
    ensures AfterTick(c, s, now) == s
  {
  }

  /** A frame before the duration has elapsed reports
      `min(elapsed / duration * 100, 100)`, which lies in [0, 100] when the clock
      has not gone backwards and the duration is positive, and schedules the
      next frame. */
  lemma TickReportsProgress(c: Config, s: Hold, now: Millis)
    requires s.start.Some? && now - s.start.value < c.duration
    ensures var r := AfterTick(c, s, now);
      && r.progress == Progress(now - s.start.value, c.duration)
      && r.start == s.start && r.framePending && r.successes == s.successes && r.completed == s.completed
    ensures 0 < c.duration && s.start.value <= now ==>
      0.0 <= AfterTick(c, s, now).progress < 100.0
  {
  }

  /** A frame at or after the duration completes the hold, all at once: latch
      set, exactly one more success, start cleared, progress 0, no further frame,
      cooldown armed for 2000 ms after `now`. A frame completes nothing else. */
  lemma TickCompletesIff(c: Config, s: Hold, now: Millis)
    ensures var r := AfterTick(c, s, now);
      (r.successes == s.successes + 1 <==> s.start.Some? && now - s.start.value >= c.duration)
    ensures var r := AfterTick(c, s, now);
      r.successes == s.successes + 1 ==>
        && r.completed && r.start.None? && r.progress == 0.0 && !r.framePending
        && r.cooldownDue == Some(now + CooldownMs)
    ensures var r := AfterTick(c, s, now);
      r.successes != s.successes + 1 ==> r.successes == s.successes && r.completed == s.completed
  {
  }

  /** Progress never goes down across two frames of the same hold at
      non-decreasing times. */
  lemma ProgressNonDecreasing(c: Config, s: Hold, now1: Millis, now2: Millis)
    requires 0 < c.duration && now1 <= now2 && s.start.Some?
    requires AfterTick(c, s, now1).start.Some?
    requires AfterTick(c, AfterTick(c, s, now1), now2).start.Some?
    ensures AfterTick(c, s, now1).progress <= AfterTick(c, AfterTick(c, s, now1), now2).progress
  {
    ProgressMonotone(now1 - s.start.value, now2 - s.start.value, c.duration);
  }

  // ---------------------------------------------------------------------------
  // Event sequences

  /** The events the detector reacts to: the two key listeners, the animation
      frame and the cooldown timer. */
  datatype Event = KeyDown(key: string, now: Millis) | KeyUp(key: string) | Frame(now: Millis) | CooldownFires

  function Apply(c: Config, s: Hold, e: Event): Hold {
    match e
    case KeyDown(key, now) => AfterKeyDown(c, s, key, now)
    case KeyUp(key) => AfterKeyUp(c, s, key)
    case Frame(now) => AfterTick(c, s, now)
    case CooldownFires => AfterCooldown(s)
  }

  function Run(c: Config, s: Hold, es: seq<Event>): Hold
    decreases |es|
  {
    if es == [] then s else Run(c, Apply(c, s, es[0]), es[1..])
  }

  function Cooldowns(es: seq<Event>): nat {
    if es == [] then 0 else (if es[0].CooldownFires? then 1 else 0) + Cooldowns(es[1..])
  }

  lemma MountedIsConsistent(c: Config)
    ensures Consistent(c, Mounted())
  {
  }

  lemma KeyDownKeepsConsistent(c: Config, s: Hold, key: string, now: Millis)
    requires Consistent(c, s)
    ensures Consistent(c, AfterKeyDown(c, s, key, now))
  {
    LowerIdempotent(key);
    if s.start.Some? {
      ChordMonotone(c.targets, s.pressed, s.pressed + {Lower(key)});
    }
  }

  lemma KeyUpKeepsConsistent(c: Config, s: Hold, key: string)
    requires Consistent(c, s)
    ensures Consistent(c, AfterKeyUp(c, s, key))
  {
  }

  lemma TickKeepsConsistent(c: Config, s: Hold, now: Millis)
    requires Consistent(c, s)
    ensures Consistent(c, AfterTick(c, s, now))
  {
  }

  lemma CooldownKeepsConsistent(c: Config, s: Hold)
    requires Consistent(c, s)
    ensures Consistent(c, AfterCooldown(s))
  {
  }

  lemma ApplyKeepsConsistent(c: Config, s: Hold, e: Event)
    requires Consistent(c, s)
    ensures Consistent(c, Apply(c, s, e))
  {
    match e
    case KeyDown(key, now) => KeyDownKeepsConsistent(c, s, key, now);
    case KeyUp(key) => KeyUpKeepsConsistent(c, s, key);
    case Frame(now) => TickKeepsConsistent(c, s, now);
    case CooldownFires => CooldownKeepsConsistent(c, s);
  }

  /** Every reachable state satisfies the detector's invariant. */
  lemma {:induction false} RunKeepsConsistent(c: Config, s: Hold, es: seq<Event>)
    requires Consistent(c, s)
    ensures Consistent(c, Run(c, s, es))
    decreases |es|
  {
    if es != [] {
      ApplyKeepsConsistent(c, s, es[0]);
      RunKeepsConsistent(c, Apply(c, s, es[0]), es[1..]);
    }
  }

  /** Debounce: while the cooldown timer has not fired, whatever keys are
      pressed and released and whatever frames run, no further success fires
      and the latch stays set. */
  lemma {:induction false} LatchBlocksSuccess(c: Config, s: Hold, es: seq<Event>)
    requires Consistent(c, s) && s.completed
    requires forall i :: 0 <= i < |es| ==> !es[i].CooldownFires?
    ensures Run(c, s, es).successes == s.successes
    ensures Run(c, s, es).completed && Run(c, s, es).start.None?
    decreases |es|
  {
    if es != [] {
      ApplyKeepsConsistent(c, s, es[0]);
      LatchBlocksSuccess(c, Apply(c, s, es[0]), es[1..]);
    }
  }

  /** 1 when the detector is armed (latch clear), 0 while it is latched. */
  function Armed(s: Hold): nat {
    if s.completed then 0 else 1
  }

  /** Success fires at most once per arming: over any run, the successes gained
      never exceed the cooldown expiries seen, plus one if the run started armed. */
  lemma {:induction false} SuccessesBoundedByCooldowns(c: Config, s: Hold, es: seq<Event>)
    requires Consistent(c, s)
    ensures Run(c, s, es).successes + Armed(Run(c, s, es)) <= s.successes + Armed(s) + Cooldowns(es)
    decreases |es|
  {
    if es != [] {
      ApplyKeepsConsistent(c, s, es[0]);
      SuccessesBoundedByCooldowns(c, Apply(c, s, es[0]), es[1..]);
    }
  }

  /** After an early release, a fresh full chord restarts timing from the new
      `now`: the next frame reports the progress of the new hold, not of the
      interrupted one. */
  lemma ReleaseThenRepressRestarts(c: Config, s: Hold, up: string, down: string, now: Millis, later: Millis)
    requires Consistent(c, s) && s.start.Some?
    requires !ChordSatisfied(c.targets, s.pressed - {Lower(up)})
    requires StartsHold(c, AfterKeyUp(c, s, up), down)
    requires later - now < c.duration
    ensures var r := AfterKeyDown(c, AfterKeyUp(c, s, up), down, now);
      r.start == Some(now) && AfterTick(c, r, later).progress == Progress(later - now, c.duration)
  {
  }

  // ---------------------------------------------------------------------------
  // The application's unlock chord, C + O + 2 held for 2000 ms

  /** Running events one after another is running them in one go. */
  lemma {:induction false} RunSnoc(c: Config, s: Hold, es: seq<Event>, e: Event)
    ensures Run(c, s, es + [e]) == Apply(c, Run(c, s, es), e)
    decreases |es|
  {
    if es != [] {
      assert (es + [e])[1..] == es[1..] + [e];
      RunSnoc(c, Apply(c, s, es[0]), es[1..], e);
    }
  }

  lemma LowerSingle(ch: char)
    ensures Lower([ch]) == [LowerChar(ch)]
  {
    assert [ch][1..] == [];
  }

  /** Holding C, O and 2 for the full duration calls `onSuccess` exactly once,
      and the frame half-way reports 50. The C arrives upper-case, as with
      Shift held, and still counts as the target "c". */
  lemma UnlockHappyPath(t: Millis)
    ensures var held := Run(Unlock, Mounted(), [KeyDown("C", t), KeyDown("o", t), KeyDown("2", t)]);
      held.start == Some(t) && held.cues == [Scanning]
    ensures var half := Run(Unlock, Mounted(), [KeyDown("C", t), KeyDown("o", t), KeyDown("2", t), Frame(t + 1000)]);
      half.progress == 50.0 && half.successes == 0
    ensures var done := Run(Unlock, Mounted(), [KeyDown("C", t), KeyDown("o", t), KeyDown("2", t), Frame(t + 1000), Frame(t + 2000)]);
      done.successes == 1 && done.completed && done.progress == 0.0 && !done.framePending
  {
    LowerSingle('C'); LowerSingle('o'); LowerSingle('2');
    var e1, e2, e3, e4, e5 := KeyDown("C", t), KeyDown("o", t), KeyDown("2", t), Frame(t + 1000), Frame(t + 2000);
    var s1 := AfterKeyDown(Unlock, Mounted(), "C", t);
    assert !ChordSatisfied(Unlock.targets, {"c"});
    assert Mounted().pressed + {Lower("C")} == {"c"};
    assert s1 == Hold({"c"}, None, false, 0.0, false, None, 0, []);
    RunSnoc(Unlock, Mounted(), [], e1);
    assert Run(Unlock, Mounted(), [e1]) == s1;
    var s2 := AfterKeyDown(Unlock, s1, "o", t);
    assert {"c"} + {"o"} == {"c", "o"};
    assert !ChordSatisfied(Unlock.targets, {"c", "o"});
    assert s2 == Hold({"c", "o"}, None, false, 0.0, false, None, 0, []);
    RunSnoc(Unlock, Mounted(), [e1], e2);
    assert [e1] + [e2] == [e1, e2];
    var s3 := AfterKeyDown(Unlock, s2, "2", t);
    assert {"c", "o"} + {"2"} == {"c", "o", "2"};
    assert ChordSatisfied(Unlock.targets, {"c", "o", "2"});
    assert s3 == Hold({"c", "o", "2"}, Some(t), false, 0.0, true, None, 0, [Scanning]);
    RunSnoc(Unlock, Mounted(), [e1, e2], e3);
    assert [e1, e2] + [e3] == [e1, e2, e3];
    var s4 := AfterTick(Unlock, s3, t + 1000);
    assert s4.progress == 50.0;
    RunSnoc(Unlock, Mounted(), [e1, e2, e3], e4);
    assert [e1, e2, e3] + [e4] == [e1, e2, e3, e4];
    RunSnoc(Unlock, Mounted(), [e1, e2, e3, e4], e5);
    assert [e1, e2, e3, e4] + [e5] == [e1, e2, e3, e4, e5];
  }

  /** Pressing C and O and releasing O before 2 is ever pressed never starts a
      hold, and progress stays 0. */
  lemma UnlockReleaseBeforeChord(t: Millis)
    ensures var r := Run(Unlock, Mounted(), [KeyDown("c", t), KeyDown("o", t), KeyUp("o")]);
      r.start.None? && r.progress == 0.0 && r.cues == [] && r.pressed == {"c"}
  {
    LowerSingle('c'); LowerSingle('o');
    var e1, e2, e3 := KeyDown("c", t), KeyDown("o", t), KeyUp("o");
    assert !ChordSatisfied(Unlock.targets, {"c"});
    assert Mounted().pressed + {Lower("c")} == {"c"};
    var s1 := AfterKeyDown(Unlock, Mounted(), "c", t);
    assert s1.pressed == {"c"} && s1.start.None? && s1.cues == [];
    assert {"c"} + {"o"} == {"c", "o"};
    assert !ChordSatisfied(Unlock.targets, {"c", "o"});
    var s2 := AfterKeyDown(Unlock, s1, "o", t);
    assert s2.pressed == {"c", "o"} && s2.start.None? && s2.cues == [] && s2.progress == 0.0;
    assert {"c", "o"} - {"o"} == {"c"};
    RunSnoc(Unlock, Mounted(), [], e1);
    RunSnoc(Unlock, Mounted(), [e1], e2);
    assert [e1] + [e2] == [e1, e2];
    RunSnoc(Unlock, Mounted(), [e1, e2], e3);
    assert [e1, e2] + [e3] == [e1, e2, e3];
  }

  // ---------------------------------------------------------------------------
  // The hook as an object whose refs change in place

  class Detector {
    const config: Config
    var pressed: set<string>
    var start: Option<Millis>
    var completed: bool
    var progress: real
    var framePending: bool
    var cooldownDue: Option<int>
    var successes: nat
    var cues: seq<Cue>

    function State(): Hold
      reads this
    {
      Hold(pressed, start, completed, progress, framePending, cooldownDue, successes, cues)
    }

    predicate Valid()
      reads this
    {
      Consistent(config, State())
    }

    /** Mounting `useChordHold(targetKeys, duration, onSuccess)`. */
    constructor (targetKeys: seq<string>, duration: int := DefaultDurationMs)
      ensures config == Config(targetKeys, duration)
      ensures State() == Mounted() && Valid()
    {
      config := Config(targetKeys, duration);
      pressed, start, completed, progress := {}, None, false, 0.0;
      framePending, cooldownDue, successes, cues := false, None, 0, [];
    }

    /** The progress value the hook returns. */
    method CurrentProgress() returns (p: real)
      requires Valid()
      ensures p == progress
      ensures start.None? ==> p == 0.0
    {
      p := progress;
    }

    method KeyDown(key: string, now: Millis)
      requires Valid()
      modifies this
      ensures Valid()
      ensures State() == AfterKeyDown(config, old(State()), key, now)
    {
      KeyDownKeepsConsistent(config, State(), key, now);
      var k := Lower(key);
      if k in pressed {
        return;
      }
      pressed := pressed + {k};
      if ChordSatisfied(config.targets, pressed) && start.None? && !completed {
        start := Some(now);
        cues := cues + [Scanning];
        framePending := true;
      }
    }

    method KeyUp(key: string)
      requires Valid()
      modifies this
      ensures Valid()
      ensures State() == AfterKeyUp(config, old(State()), key)
    {
      KeyUpKeepsConsistent(config, State(), key);
      pressed := pressed - {Lower(key)};
      if !ChordSatisfied(config.targets, pressed) && start.Some? {
        start := None;
        progress := 0.0;
        if framePending {
          framePending := false;
        }
      }
    }

    /** The scheduled `animate` callback runs at time `now`. */
    method Tick(now: Millis)
      requires Valid()
      modifies this
      ensures Valid()
      ensures State() == AfterTick(config, old(State()), now)
    {
      TickKeepsConsistent(config, State(), now);
      if start.None? {
        return;
      }
      var elapsed := now - start.value;
      progress := Progress(elapsed, config.duration);
      if elapsed >= config.duration {
        completed := true;
        successes := successes + 1;
        start := None;
        progress := 0.0;
        framePending := false;
        cooldownDue := Some(now + CooldownMs);
      } else {
        framePending := true;
      }
    }

    /** The armed cooldown timer fires; it cannot fire before it is due. */
    method CooldownExpires(now: int)
      requires Valid()
      requires cooldownDue.Some? && now >= cooldownDue.value
      modifies this
      ensures Valid()
      ensures State() == AfterCooldown(old(State()))
    {
      CooldownKeepsConsistent(config, State());
      completed := false;
      cooldownDue := None;
    }
  }
}
