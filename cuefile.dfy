/** The conversion at the heart of `LoadCueFile` (internal/sync/cuefile.go):
    an already-parsed cue file, whose cues name their effects, becomes a
    `Timeline` whose cues carry effect indices, with the documented defaults. */
module CueFiles {
  import opened Sync

  /** One cue record as written in the cue file. */
  datatype CueDef = CueDef(order: int, row: int, effect: string, transition: string, fadeDur: real)

  /** The parsed cue file: the effect names in list order, and the cues. */
  datatype CueFile = CueFile(effects: seq<string>, cues: seq<CueDef>)

  datatype Result<T> = Ok(value: T) | Err(message: string)

  /** `i` is the last position of `name` in `names`: the index the name map
      keeps when a name is listed more than once. */
  predicate IsLastIndex(names: seq<string>, name: string, i: int)
  {
    && 0 <= i < |names|
    && names[i] == name
    && forall j :: i < j < |names| ==> names[j] != name
  }

  /** `c` is what loading makes of the record `d`: same position, the effect's
      index, "cut" for a missing transition, 1 second for a non-positive fade. */
  predicate Loaded(effects: seq<string>, d: CueDef, c: Cue)
  {
    && c.pos == Position(d.order, d.row)
    && IsLastIndex(effects, d.effect, c.effectIdx)
    && c.transition == (if d.transition == "" then "cut" else d.transition)
    && c.fadeDur == (if d.fadeDur <= 0.0 then 1.0 else d.fadeDur)
  }

  /** What the sequencer relies on: every effect index is in range and every fade is positive. */
  predicate WellFormed(t: Timeline, numEffects: int)
  {
    forall i :: 0 <= i < |t.cues| ==> 0 <= t.cues[i].effectIdx < numEffects && t.cues[i].fadeDur > 0.0
  }

  /** The first cue whose effect name is not declared. */
  predicate FirstUnknown(cf: CueFile, i: int)
  {
    && 0 <= i < |cf.cues|
    && cf.cues[i].effect !in cf.effects
    && forall j :: 0 <= j < i ==> cf.cues[j].effect in cf.effects
  }

  /** Lines 33-36 of `LoadCueFile`: the effect-name map; a name listed twice
      keeps its last index. */
  method NameMap(effects: seq<string>) returns (m: map<string, int>)
    ensures forall name :: name in m <==> name in effects
    ensures forall name :: name in m ==> IsLastIndex(effects, name, m[name])
  {
    m := map[];
    var i := 0;
    while i < |effects|
      invariant 0 <= i <= |effects|
      invariant forall name :: name in m <==> name in effects[..i]
      invariant forall name :: name in m ==> IsLastIndex(effects[..i], name, m[name])
    {
      m := m[effects[i] := i];
      i := i + 1;
    }
    assert effects[..i] == effects;
  }

  /** Lines 52-57 of `LoadCueFile`: one cue record, its effect name known, with
      the defaults filled in. */
  method ResolveCue(m: map<string, int>, effects: seq<string>, d: CueDef) returns (c: Cue)
    requires d.effect in m
    requires forall name :: name in m ==> IsLastIndex(effects, name, m[name])
    ensures Loaded(effects, d, c)
  {
    var transition := d.transition;
    if transition == "" {
      transition := "cut";
    }
    var fadeDur := d.fadeDur;
    if fadeDur <= 0.0 {
      fadeDur := 1.0;
    }
    c := Cue(Position(d.order, d.row), m[d.effect], transition, fadeDur);
  }

  /** Lines 33-60 of `LoadCueFile`: builds the name map, then converts the cues
      in order, failing on the first unknown effect name. */
  method BuildTimeline(cf: CueFile) returns (r: Result<Timeline>)
    ensures r.Err? <==> exists i :: 0 <= i < |cf.cues| && cf.cues[i].effect !in cf.effects
    ensures r.Err? ==> exists i :: FirstUnknown(cf, i) && r.message == "unknown effect: " + cf.cues[i].effect
    ensures r.Ok? ==> |r.value.cues| == |cf.cues|
    ensures r.Ok? ==> forall i :: 0 <= i < |cf.cues| ==> Loaded(cf.effects, cf.cues[i], r.value.cues[i])
    ensures r.Ok? ==> WellFormed(r.value, |cf.effects|)
  {
    var effectMap := NameMap(cf.effects);
    var cues: seq<Cue> := [];
    var k := 0;
    while k < |cf.cues|
      invariant 0 <= k <= |cf.cues| && |cues| == k
      invariant forall j :: 0 <= j < k ==> cf.cues[j].effect in cf.effects
      invariant forall j :: 0 <= j < k ==> Loaded(cf.effects, cf.cues[j], cues[j])
    {
      var cd := cf.cues[k];
      if cd.effect !in effectMap {
        assert FirstUnknown(cf, k);
        return Err("unknown effect: " + cd.effect);
      }
      var c := ResolveCue(effectMap, cf.effects, cd);
      cues := cues + [c];
      k := k + 1;
    }
    r := Ok(Timeline(cues));
  }

  /** When a name is listed twice, cues naming it resolve to its last position. */
  lemma DuplicateNameLastWins(a: string, b: string)
    requires a != b
    ensures IsLastIndex([a, b, a], a, 2)
    ensures !IsLastIndex([a, b, a], a, 0)
    ensures IsLastIndex([a, b, a], b, 1)
  {
  }
}
