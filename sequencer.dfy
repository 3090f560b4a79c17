/** The effect sequencer of internal/sync/sequencer.go: it follows the cue
    timeline, switches the active effect with a cut or a fade, initializes each
    effect lazily, and composes the frame during a fade.

    Effects are opaque here. What the sequencer asks of them is recorded as a
    trace of `Call`s (their `Init` and `Update`), and what an effect's `Draw`
    paints is given as a function of the effect index, the pixels it draws
    over and the palette. */
module Sequencing {
  import opened GoNum
  import opened Music
  import opened Sync
  import opened Palettes
  import opened Framebuffers
  import opened CueFiles

  /** A call the sequencer makes on effect number `effect`. */
  datatype Call = InitCall(effect: int) | UpdateCall(effect: int, dt: real)

  /** The sequencer's fields, as a value. */
  datatype State = State(
    currentIdx: int,
    activeIdx: int,
    prevIdx: int,
    fadeAlpha: real,
    fadeDur: real,
    fadeTimer: real,
    fading: bool,
    initialized: set<int>)

  /** The state `NewSequencer` builds: no cue seen, effect 0 active, nothing initialized. */
  const Initial := State(-1, 0, -1, 1.0, 0.0, 0.0, false, {})

  /** The transitions that cross-fade; every other name is a cut. */
  predicate IsFade(transition: string)
  {
    transition == "fade" || transition == "crossfade"
  }

  /** Cue `cueIdx` is new and names an effect that is in range and not already active. */
  predicate Switches(st: State, cues: seq<Cue>, n: int, cueIdx: int)
    requires cueIdx < |cues|
  {
    && 0 <= cueIdx
    && cueIdx != st.currentIdx
    && cues[cueIdx].effectIdx != st.activeIdx
    && 0 <= cues[cueIdx].effectIdx < n
  }

  /** Lines 42-70 of `Update`: a new cue is always recorded; it changes the
      effect only when `Switches` holds, as a fade or as a cut. */
  function Retarget(st: State, cues: seq<Cue>, n: int, cueIdx: int): State
    requires -1 <= cueIdx < |cues|
  {
    if cueIdx < 0 || cueIdx == st.currentIdx then st
    else if !Switches(st, cues, n, cueIdx) then st.(currentIdx := cueIdx)
    else
      var cue := cues[cueIdx];
      var e := cue.effectIdx;
      var st1 := st.(currentIdx := cueIdx, initialized := st.initialized + {e});
      if IsFade(cue.transition) then
        st1.(prevIdx := st.activeIdx, activeIdx := e, fadeDur := cue.fadeDur,
             fadeTimer := 0.0, fadeAlpha := 0.0, fading := true)
      else
        st1.(activeIdx := e, fading := false, fadeAlpha := 1.0)
  }

  /** The `Init` calls of `Retarget`: one if the effect was never initialized,
      and one more for a cut. */
  function RetargetCalls(st: State, cues: seq<Cue>, n: int, cueIdx: int): seq<Call>
    requires -1 <= cueIdx < |cues|
  {
    if !Switches(st, cues, n, cueIdx) then []
    else
      var e := cues[cueIdx].effectIdx;
      (if e in st.initialized then [] else [InitCall(e)])
      + (if IsFade(cues[cueIdx].transition) then [] else [InitCall(e)])
  }

  /** Lines 73-84 of `Update`: a running fade advances by `dt`; it ends when alpha reaches 1. */
  function Advance(st: State, dt: real): State
  {
    if !st.fading then st
    else
      var timer := st.fadeTimer + dt;
      var alpha := if st.fadeDur > 0.0 then timer / st.fadeDur else 1.0;
      if alpha >= 1.0 then st.(fadeTimer := timer, fadeAlpha := 1.0, fading := false)
      else st.(fadeTimer := timer, fadeAlpha := alpha)
  }

  /** Lines 87-92 of `Update`: the active effect, then the previous one while the fade runs. */
  function UpdateCalls(st: State, n: int, dt: real): seq<Call>
  {
    (if 0 <= st.activeIdx < n then [UpdateCall(st.activeIdx, dt)] else [])
    + (if st.fading && 0 <= st.prevIdx < n then [UpdateCall(st.prevIdx, dt)] else [])
  }

  /** One `Update` at playback position `now`. */
  function Step(st: State, cues: seq<Cue>, n: int, now: Position, dt: real): State
  {
    Advance(Retarget(st, cues, n, LastReached(cues, now)), dt)
  }

  /** The effect calls of one `Update`, in order. */
  function StepCalls(st: State, cues: seq<Cue>, n: int, now: Position, dt: real): seq<Call>
  {
    RetargetCalls(st, cues, n, LastReached(cues, now)) + UpdateCalls(Step(st, cues, n, now, dt), n, dt)
  }

  /** The effect `InitFirst` starts with: the first cue's, or 0 without cues. */
  function FirstEffect(cues: seq<Cue>): int
  {
    if |cues| > 0 then cues[0].effectIdx else 0
  }

  /** `InitFirst`: with at least one effect, the first effect becomes active and initialized. */
  function Started(st: State, cues: seq<Cue>, n: int): State
  {
    if n > 0 then
      st.(activeIdx := FirstEffect(cues), initialized := st.initialized + {FirstEffect(cues)})
    else st
  }

  /** The fade fields agree: alpha is in [0, 1], the timer is not negative, and
      a running fade has a positive duration and alpha = timer / duration < 1. */
  predicate FadeInv(st: State)
  {
    && 0.0 <= st.fadeAlpha <= 1.0
    && st.fadeTimer >= 0.0
    && (st.fading ==> st.fadeDur > 0.0 && st.fadeAlpha == st.fadeTimer / st.fadeDur && st.fadeAlpha < 1.0)
  }

  /** Every effect the sequencer may update has been initialized. */
  predicate Ready(st: State, n: int)
  {
    && (0 <= st.activeIdx < n ==> st.activeIdx in st.initialized)
    && (st.fading && 0 <= st.prevIdx < n ==> st.prevIdx in st.initialized)
  }

  /** Alpha is in [0, 1] before and after every `Update` with a non-negative frame time. */
  lemma StepKeepsFadeInv(st: State, cues: seq<Cue>, n: int, now: Position, dt: real)
    requires FadeInv(st) && dt >= 0.0
    ensures FadeInv(Step(st, cues, n, now, dt))
  {
    var r := Retarget(st, cues, n, LastReached(cues, now));
    if r.fading && r.fadeDur > 0.0 {
      var timer := r.fadeTimer + dt;
      assert timer >= 0.0;
      DivNonNegative(timer, r.fadeDur);
    }
  }

  lemma DivNonNegative(a: real, d: real)
    requires a >= 0.0 && d > 0.0
    ensures a / d >= 0.0
  {
  }

  /** While no new effect is switched in, alpha never decreases. */
  lemma AlphaNonDecreasing(st: State, cues: seq<Cue>, n: int, now: Position, dt: real)
    requires FadeInv(st) && dt >= 0.0
    requires !Switches(st, cues, n, LastReached(cues, now))
    ensures Step(st, cues, n, now, dt).fadeAlpha >= st.fadeAlpha
  {
    var r := Retarget(st, cues, n, LastReached(cues, now));
    assert r.fadeAlpha == st.fadeAlpha && r.fadeTimer == st.fadeTimer && r.fading == st.fading
      && r.fadeDur == st.fadeDur;
    if st.fading {
      DivMonotone(st.fadeTimer, st.fadeTimer + dt, st.fadeDur);
    }
  }

  lemma DivMonotone(a: real, b: real, d: real)
    requires a <= b && d > 0.0
    ensures a / d <= b / d
  {
    assert b / d - a / d == (b - a) / d;
    DivNonNegative(b - a, d);
  }

  /** Without a switch, a running fade ends in this `Update` exactly when its
      timer reaches the duration, and then alpha is 1. */
  lemma FadeEndsOnTime(st: State, cues: seq<Cue>, n: int, now: Position, dt: real)
    requires FadeInv(st) && st.fading
    requires !Switches(st, cues, n, LastReached(cues, now))
    ensures var s := Step(st, cues, n, now, dt);
      && (!s.fading <==> st.fadeTimer + dt >= st.fadeDur)
      && (!s.fading ==> s.fadeAlpha == 1.0)
      && s.activeIdx == st.activeIdx && s.prevIdx == st.prevIdx
  {
    var r := Retarget(st, cues, n, LastReached(cues, now));
    assert r.fadeTimer == st.fadeTimer && r.fading && r.fadeDur == st.fadeDur;
    DivAtLeastOne(st.fadeTimer + dt, st.fadeDur);
  }

  lemma DivAtLeastOne(t: real, d: real)
    requires d > 0.0
    ensures t / d >= 1.0 <==> t >= d
  {
    if t / d >= 1.0 {
      MulAtLeast(t / d, d);
    } else {
      MulBelow(t / d, d);
    }
  }

  lemma MulAtLeast(q: real, d: real)
    requires q >= 1.0 && d > 0.0
    ensures q * d >= d
  {
    assert q * d - d == (q - 1.0) * d;
  }

  lemma MulBelow(q: real, d: real)
    requires q < 1.0 && d > 0.0
    ensures q * d < d
  {
    assert d - q * d == (1.0 - q) * d;
  }

  lemma DivBelowHalf(t: real, d: real)
    requires d > 0.0
    ensures t / d < 0.5 <==> 2.0 * t < d
  {
    if t / d < 0.5 {
      MulBelow(2.0 * (t / d), d);
    } else {
      MulAtLeast(2.0 * (t / d), d);
    }
  }

  /** A cue index that is new is recorded even when it does not change the
      effect (same effect as the active one, or an index out of range); it then
      only lets the running fade advance, and calls no `Init`. */
  lemma NewCueAlwaysRecorded(st: State, cues: seq<Cue>, n: int, now: Position, dt: real)
    requires var c := LastReached(cues, now); c >= 0 && c != st.currentIdx
    ensures Step(st, cues, n, now, dt).currentIdx == LastReached(cues, now)
    ensures !Switches(st, cues, n, LastReached(cues, now)) ==>
      && Step(st, cues, n, now, dt) == Advance(st.(currentIdx := LastReached(cues, now)), dt)
      && RetargetCalls(st, cues, n, LastReached(cues, now)) == []
  {
  }

  /** A cue index already seen, or no cue reached yet, changes nothing but the fade. */
  lemma SameCueOnlyAdvances(st: State, cues: seq<Cue>, n: int, now: Position, dt: real)
    requires var c := LastReached(cues, now); c < 0 || c == st.currentIdx
    ensures Step(st, cues, n, now, dt) == Advance(st, dt)
    ensures StepCalls(st, cues, n, now, dt) == UpdateCalls(Advance(st, dt), n, dt)
  {
  }

  /** A fade calls `Init` only for an effect never initialized before, once. */
  lemma FadeInitsLazily(st: State, cues: seq<Cue>, n: int, c: int)
    requires 0 <= c < |cues| && Switches(st, cues, n, c) && IsFade(cues[c].transition)
    ensures var e := cues[c].effectIdx;
      RetargetCalls(st, cues, n, c) == (if e in st.initialized then [] else [InitCall(e)])
    ensures Retarget(st, cues, n, c).initialized == st.initialized + {cues[c].effectIdx}
  {
  }

  /** A cut to an effect never initialized calls its `Init` twice; a cut to an
      effect seen before calls it once more. */
  lemma CutInits(st: State, cues: seq<Cue>, n: int, c: int)
    requires 0 <= c < |cues| && Switches(st, cues, n, c) && !IsFade(cues[c].transition)
    ensures var e := cues[c].effectIdx;
      RetargetCalls(st, cues, n, c) == (if e in st.initialized then [InitCall(e)] else [InitCall(e), InitCall(e)])
  {
  }

  /** Once the first effect is started, no effect is ever updated before it has
      been initialized, and every call is to an effect in range. */
  lemma StepKeepsReady(st: State, cues: seq<Cue>, n: int, now: Position, dt: real)
    requires Ready(st, n)
    ensures Ready(Step(st, cues, n, now, dt), n)
    ensures st.initialized <= Step(st, cues, n, now, dt).initialized
    ensures forall k :: 0 <= k < |StepCalls(st, cues, n, now, dt)| ==>
      && 0 <= StepCalls(st, cues, n, now, dt)[k].effect < n
      && StepCalls(st, cues, n, now, dt)[k].effect in Step(st, cues, n, now, dt).initialized
  {
    var c := LastReached(cues, now);
    var r := Retarget(st, cues, n, c);
    assert Ready(r, n);
    var s := Advance(r, dt);
    assert s.activeIdx == r.activeIdx && s.prevIdx == r.prevIdx && s.initialized == r.initialized;
    var calls := StepCalls(st, cues, n, now, dt);
    assert calls == RetargetCalls(st, cues, n, c) + UpdateCalls(s, n, dt);
    forall k | 0 <= k < |calls|
      ensures 0 <= calls[k].effect < n && calls[k].effect in s.initialized
    {
      if k < |RetargetCalls(st, cues, n, c)| {
        assert calls[k] == InitCall(cues[c].effectIdx);
      } else {
        assert calls[k] in UpdateCalls(s, n, dt);
      }
    }
  }

  /** `InitFirst` on a new sequencer makes it `Ready`: the first effect is initialized. */
  lemma StartedIsReady(cues: seq<Cue>, n: int)
    ensures Ready(Started(Initial, cues, n), n)
    ensures n > 0 ==> Started(Initial, cues, n).initialized == {FirstEffect(cues)}
    ensures FadeInv(Started(Initial, cues, n))
  {
  }

  /** A timeline loaded from a cue file meets `InitFirst`'s requirement when the
      file lists no more effect names than the sequencer has effects. */
  lemma LoadedStartsInRange(t: Timeline, names: int, n: int)
    requires WellFormed(t, names) && names <= n
    ensures n > 0 ==> 0 <= FirstEffect(t.cues) < n
  {
  }

  /** Without that bound a loaded timeline can start outside the sequencer's
      effects: a file naming seven effects whose first cue uses the seventh
      loads, and its first effect index is 6, past the end of six effects. */
  lemma SeventhEffectLoads()
    ensures var names := ["a", "b", "c", "d", "e", "f", "g"];
      var t := Timeline([Cue(Position(0, 0), 6, "cut", 1.0)]);
      && Loaded(names, CueDef(0, 0, "g", "", 0.0), t.cues[0])
      && WellFormed(t, |names|)
      && !(0 <= FirstEffect(t.cues) < 6)
  {
    var names := ["a", "b", "c", "d", "e", "f", "g"];
    assert IsLastIndex(names, "g", 6);
  }

  /** A frame of playback: the position reached and the time since the last frame. */
  datatype Tick = Tick(now: Position, dt: real)

  /** The state after one `Update` per tick. */
  function Run(st: State, cues: seq<Cue>, n: int, ticks: seq<Tick>): State
    decreases |ticks|
  {
    if |ticks| == 0 then st
    else Run(Step(st, cues, n, ticks[0].now, ticks[0].dt), cues, n, ticks[1..])
  }

  /** All effect calls of those `Update`s, in order. */
  function RunCalls(st: State, cues: seq<Cue>, n: int, ticks: seq<Tick>): seq<Call>
    decreases |ticks|
  {
    if |ticks| == 0 then []
    else
      StepCalls(st, cues, n, ticks[0].now, ticks[0].dt)
      + RunCalls(Step(st, cues, n, ticks[0].now, ticks[0].dt), cues, n, ticks[1..])
  }

  /** How many times `calls` initializes effect `e`. */
  function Inits(calls: seq<Call>, e: int): nat
  {
    if |calls| == 0 then 0
    else (if calls[0] == InitCall(e) then 1 else 0) + Inits(calls[1..], e)
  }

  lemma {:induction false} InitsAppend(a: seq<Call>, b: seq<Call>, e: int)
    ensures Inits(a + b, e) == Inits(a, e) + Inits(b, e)
  {
    if |a| > 0 {
      assert (a + b)[0] == a[0] && (a + b)[1..] == a[1..] + b;
      InitsAppend(a[1..], b, e);
    } else {
      assert a + b == b;
    }
  }

  lemma UpdatesInitNothing(st: State, n: int, dt: real, e: int)
    ensures Inits(UpdateCalls(st, n, dt), e) == 0
  {
    var a := if 0 <= st.activeIdx < n then [UpdateCall(st.activeIdx, dt)] else [];
    var b := if st.fading && 0 <= st.prevIdx < n then [UpdateCall(st.prevIdx, dt)] else [];
    InitsAppend(a, b, e);
  }

  /** The `Update` at `now` switches to effect `e` with a cut. */
  predicate CutTo(st: State, cues: seq<Cue>, n: int, now: Position, e: int)
  {
    var c := LastReached(cues, now);
    Switches(st, cues, n, c) && !IsFade(cues[c].transition) && cues[c].effectIdx == e
  }

  /** How many `Update`s of a run cut to effect `e`. */
  function CutsTo(st: State, cues: seq<Cue>, n: int, ticks: seq<Tick>, e: int): nat
    decreases |ticks|
  {
    if |ticks| == 0 then 0
    else
      (if CutTo(st, cues, n, ticks[0].now, e) then 1 else 0)
      + CutsTo(Step(st, cues, n, ticks[0].now, ticks[0].dt), cues, n, ticks[1..], e)
  }

  /** One `Update` initializes `e` once when `e` newly joins `initialized`, and
      once more when it cuts to `e`; never otherwise. */
  lemma StepInits(st: State, cues: seq<Cue>, n: int, now: Position, dt: real, e: int)
    ensures var s := Step(st, cues, n, now, dt);
      && st.initialized <= s.initialized
      && Inits(StepCalls(st, cues, n, now, dt), e)
         == (if e in s.initialized - st.initialized then 1 else 0) + (if CutTo(st, cues, n, now, e) then 1 else 0)
  {
    var c := LastReached(cues, now);
    var s := Step(st, cues, n, now, dt);
    InitsAppend(RetargetCalls(st, cues, n, c), UpdateCalls(s, n, dt), e);
    UpdatesInitNothing(s, n, dt, e);
    if Switches(st, cues, n, c) {
      var f := cues[c].effectIdx;
      var lazy := if f in st.initialized then [] else [InitCall(f)];
      var cut := if IsFade(cues[c].transition) then [] else [InitCall(f)];
      InitsAppend(lazy, cut, e);
      assert Inits(lazy, e) == if f == e && f !in st.initialized then 1 else 0;
      assert s.initialized == st.initialized + {f};
    }
  }

  /** Over any run, effect `e` is initialized once if the run adds it to
      `initialized`, plus once for every cut to it, and at no other time. */
  lemma {:induction false} RunInits(st: State, cues: seq<Cue>, n: int, ticks: seq<Tick>, e: int)
    ensures st.initialized <= Run(st, cues, n, ticks).initialized
    ensures Inits(RunCalls(st, cues, n, ticks), e)
      == (if e in Run(st, cues, n, ticks).initialized - st.initialized then 1 else 0) + CutsTo(st, cues, n, ticks, e)
    decreases |ticks|
  {
    if |ticks| > 0 {
      var s := Step(st, cues, n, ticks[0].now, ticks[0].dt);
      StepInits(st, cues, n, ticks[0].now, ticks[0].dt, e);
      RunInits(s, cues, n, ticks[1..], e);
      InitsAppend(StepCalls(st, cues, n, ticks[0].now, ticks[0].dt), RunCalls(s, cues, n, ticks[1..]), e);
    }
  }

  /** Every cue is a fade. */
  predicate AllFades(cues: seq<Cue>)
  {
    forall i :: 0 <= i < |cues| ==> IsFade(cues[i].transition)
  }

  /** A timeline of fades never cuts. */
  lemma {:induction false} FadesNeverCut(st: State, cues: seq<Cue>, n: int, ticks: seq<Tick>, e: int)
    requires AllFades(cues)
    ensures CutsTo(st, cues, n, ticks, e) == 0
    decreases |ticks|
  {
    if |ticks| > 0 {
      FadesNeverCut(Step(st, cues, n, ticks[0].now, ticks[0].dt), cues, n, ticks[1..], e);
    }
  }

  /** Over any run of a timeline whose cues all fade, each effect is initialized
      at most once, and never if it was initialized before the run. */
  lemma FadesInitOnce(st: State, cues: seq<Cue>, n: int, ticks: seq<Tick>, e: int)
    requires AllFades(cues)
    ensures st.initialized <= Run(st, cues, n, ticks).initialized
    ensures Inits(RunCalls(st, cues, n, ticks), e) == (if e in Run(st, cues, n, ticks).initialized - st.initialized then 1 else 0)
  {
    RunInits(st, cues, n, ticks, e);
    FadesNeverCut(st, cues, n, ticks, e);
  }

  /** A full screen of palette indices. */
  type Pixels = p: seq<byte> | |p| == Size witness seq(Size, _ => 0)

  /** What effect `e`'s `Draw` leaves in a framebuffer holding `p` with palette `pal`. */
  type Painter = (int, Pixels, Palette) -> Pixels

  /** The pixels of a zero-valued `Framebuffer`. */
  const Blank: Pixels := seq(Size, _ => 0)

  /** What `Draw` leaves in a framebuffer holding `p`: the active effect's
      picture, except in the first half of a fade, where it is the previous
      effect's picture drawn over a blank screen. */
  function Frame(st: State, n: int, paint: Painter, p: Pixels, pal: Palette): Pixels
  {
    var drawn := if 0 <= st.activeIdx < n then paint(st.activeIdx, p, pal) else p;
    if st.fading && st.fadeAlpha < 0.5 then
      (if 0 <= st.prevIdx < n then paint(st.prevIdx, Blank, pal) else Blank)
    else drawn
  }

  /** During a fade between two effects in range, the screen shows the previous
      effect while less than half the fade duration has elapsed, then the new one. */
  lemma FadeSwitchesAtHalfway(st: State, n: int, paint: Painter, p: Pixels, pal: Palette)
    requires FadeInv(st) && st.fading
    requires 0 <= st.prevIdx < n && 0 <= st.activeIdx < n
    ensures Frame(st, n, paint, p, pal) ==
      if 2.0 * st.fadeTimer < st.fadeDur then paint(st.prevIdx, Blank, pal) else paint(st.activeIdx, p, pal)
  {
    DivBelowHalf(st.fadeTimer, st.fadeDur);
  }

  /** With no fade running, `Draw` is the active effect's `Draw`, or nothing. */
  lemma SteadyFrame(st: State, n: int, paint: Painter, p: Pixels, pal: Palette)
    requires !st.fading
    ensures Frame(st, n, paint, p, pal) == if 0 <= st.activeIdx < n then paint(st.activeIdx, p, pal) else p
  {
  }

  /** An effect's `Draw` into `fb`: the framebuffer ends up holding `q`. */
  method Render(fb: Framebuffer, q: Pixels)
    requires fb.Valid()
    modifies fb.pixels
    ensures fb.pixels[..] == q
  {
    for i := 0 to Size
      invariant forall j :: 0 <= j < i ==> fb.pixels[j] == q[j]
    {
      fb.pixels[i] := q[i];
    }
  }

  class Sequencer {
    /** `len(effects)`. */
    const numEffects: nat
    const timeline: Timeline

    var currentIdx: int
    var activeIdx: int
    var prevIdx: int
    var fadeAlpha: real
    var fadeDur: real
    var fadeTimer: real
    var fading: bool
    var initialized: set<int>

    /** Every call made on the effects so far. */
    ghost var calls: seq<Call>

    function Snapshot(): State
      reads this
    {
      State(currentIdx, activeIdx, prevIdx, fadeAlpha, fadeDur, fadeTimer, fading, initialized)
    }

    /** `NewSequencer`. */
    constructor (numEffects: nat, timeline: Timeline)
      ensures this.numEffects == numEffects && this.timeline == timeline
      ensures Snapshot() == Initial && calls == []
    {
      this.numEffects := numEffects;
      this.timeline := timeline;
      currentIdx := -1;
      activeIdx := 0;
      prevIdx := -1;
      fadeAlpha := 1.0;
      fadeDur := 0.0;
      fadeTimer := 0.0;
      fading := false;
      initialized := {};
      calls := [];
    }

    /** `InitFirst`. The first cue's effect index is used without a range
        check, so it must be in range. */
    method InitFirst()
      requires numEffects > 0 ==> 0 <= FirstEffect(timeline.cues) < numEffects
      modifies this
      ensures Snapshot() == Started(old(Snapshot()), timeline.cues, numEffects)
      ensures calls == old(calls) + if numEffects > 0 then [InitCall(FirstEffect(timeline.cues))] else []
    {
      if numEffects > 0 {
        var idx := 0;
        if |timeline.cues| > 0 {
          idx := timeline.cues[0].effectIdx;
        }
        activeIdx := idx;
        calls := calls + [InitCall(idx)];
        initialized := initialized + {idx};
      }
    }

    /** `Update`: one frame at the playback position of `info`. */
    method Update(dt: real, info: FrameInfo)
      modifies this
      ensures Snapshot() == Step(old(Snapshot()), timeline.cues, numEffects, Position(info.order, info.row), dt)
      ensures calls == old(calls) + StepCalls(old(Snapshot()), timeline.cues, numEffects, Position(info.order, info.row), dt)
    {
      var cueIdx := ActiveCue(timeline, info);
      Follow(cueIdx);
      AdvanceFade(dt);
      UpdateEffects(dt);
    }

    /** Lines 41-70 of `Update`: takes cue `cueIdx` into account. */
    method Follow(cueIdx: int)
      requires -1 <= cueIdx < |timeline.cues|
      modifies this
      ensures Snapshot() == Retarget(old(Snapshot()), timeline.cues, numEffects, cueIdx)
      ensures calls == old(calls) + RetargetCalls(old(Snapshot()), timeline.cues, numEffects, cueIdx)
    {
      if cueIdx >= 0 && cueIdx != currentIdx {
        var cue := timeline.cues[cueIdx];
        currentIdx := cueIdx;
        var newEffect := cue.effectIdx;
        if newEffect != activeIdx && newEffect >= 0 && newEffect < numEffects {
          if newEffect !in initialized {
            calls := calls + [InitCall(newEffect)];
            initialized := initialized + {newEffect};
          }
          if cue.transition == "fade" || cue.transition == "crossfade" {
            prevIdx := activeIdx;
            activeIdx := newEffect;
            fadeDur := cue.fadeDur;
            fadeTimer := 0.0;
            fadeAlpha := 0.0;
            fading := true;
          } else {
            activeIdx := newEffect;
            fading := false;
            fadeAlpha := 1.0;
            calls := calls + [InitCall(newEffect)];
          }
        }
      }
    }

    /** Lines 73-84 of `Update`: advances a running fade. */
    method AdvanceFade(dt: real)
      modifies this
      ensures Snapshot() == Advance(old(Snapshot()), dt) && calls == old(calls)
    {
      if fading {
        fadeTimer := fadeTimer + dt;
        if fadeDur > 0.0 {
          fadeAlpha := fadeTimer / fadeDur;
        } else {
          fadeAlpha := 1.0;
        }
        if fadeAlpha >= 1.0 {
          fadeAlpha := 1.0;
          fading := false;
        }
      }
    }

    /** Lines 87-92 of `Update`: updates the active effect, and the previous one during a fade. */
    method UpdateEffects(dt: real)
      modifies this`calls
      ensures calls == old(calls) + UpdateCalls(Snapshot(), numEffects, dt)
    {
      if activeIdx >= 0 && activeIdx < numEffects {
        calls := calls + [UpdateCall(activeIdx, dt)];
      }
      if fading && prevIdx >= 0 && prevIdx < numEffects {
        calls := calls + [UpdateCall(prevIdx, dt)];
      }
    }

    /** `Draw`: the effects paint as `paint` says; during a fade the previous
        effect paints a blank framebuffer with `fb`'s palette, and each pixel is
        taken from it while alpha is below one half. */
    method Draw(fb: Framebuffer, paint: Painter)
      requires fb.Valid()
      modifies fb.pixels
      ensures fb.pixels[..] == Frame(Snapshot(), numEffects, paint, old(fb.pixels[..]), fb.palette)
    {
      if !fading {
        if activeIdx >= 0 && activeIdx < numEffects {
          Render(fb, paint(activeIdx, fb.pixels[..], fb.palette));
        }
        return;
      }
      var prevFB := new Framebuffer(fb.palette);
      assert prevFB.pixels[..] == Blank;
      if prevIdx >= 0 && prevIdx < numEffects {
        Render(prevFB, paint(prevIdx, prevFB.pixels[..], prevFB.palette));
      }
      if activeIdx >= 0 && activeIdx < numEffects {
        Render(fb, paint(activeIdx, fb.pixels[..], fb.palette));
      }
      var drawn := fb.pixels[..];
      var earlier := prevFB.pixels[..];
      var alpha := fadeAlpha;
      for i := 0 to Size
        invariant prevFB.pixels[..] == earlier
        invariant forall j :: 0 <= j < Size ==>
          fb.pixels[j] == if j < i && alpha < 0.5 then earlier[j] else drawn[j]
      {
        if alpha < 0.5 {
          fb.pixels[i] := prevFB.pixels[i];
        }
      }
      assert fb.pixels[..] == if alpha < 0.5 then earlier else drawn;
    }
  }
}
