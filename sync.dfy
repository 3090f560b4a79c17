/** The demo timeline of internal/sync/sync.go: cues keyed on a tracker
    position, the resolution of the active cue, and the small music-reactive
    helpers that effects read from a frame's playback state. */
module Sync {
  import opened GoNum
  import opened Music

  /** A point in the tracker timeline; a `row` of -1 means "any row". */
  datatype Position = Position(order: int, row: int)

  /** A trigger point: when playback reaches `pos`, effect `effectIdx` becomes
      active with the given transition ("cut", "fade", "crossfade"). */
  datatype Cue = Cue(pos: Position, effectIdx: int, transition: string, fadeDur: real)

  datatype Timeline = Timeline(cues: seq<Cue>)

  /** Lexicographic order on (order, row). */
  predicate NotAfter(p: Position, q: Position)
  {
    p.order < q.order || (p.order == q.order && p.row <= q.row)
  }

  /** The test of `ActiveCue`: playback at `now` has reached the cue threshold `p`. */
  predicate Reached(now: Position, p: Position)
  {
    now.order > p.order || (now.order == p.order && now.row >= p.row)
  }

  /** The last index of `cues` whose threshold `now` has reached, or -1. */
  function LastReached(cues: seq<Cue>, now: Position): (r: int)
    ensures -1 <= r < |cues|
    ensures r >= 0 ==> Reached(now, cues[r].pos)
    ensures forall j :: r < j < |cues| ==> !Reached(now, cues[j].pos)
  {
    if |cues| == 0 then -1
    else if Reached(now, cues[|cues| - 1].pos) then |cues| - 1
    else LastReached(cues[..|cues| - 1], now)
  }

  /** `Timeline.ActiveCue`: scans every cue and keeps the last one reached. */
  method ActiveCue(t: Timeline, info: FrameInfo) returns (best: int)
    ensures -1 <= best < |t.cues|
    ensures best >= 0 ==> Reached(Position(info.order, info.row), t.cues[best].pos)
    ensures forall j :: best < j < |t.cues| ==> !Reached(Position(info.order, info.row), t.cues[j].pos)
    ensures best == LastReached(t.cues, Position(info.order, info.row))
  {
    var now := Position(info.order, info.row);
    best := -1;
    var i := 0;
    while i < |t.cues|
      invariant 0 <= i <= |t.cues|
      invariant best == LastReached(t.cues[..i], now)
    {
      var cue := t.cues[i];
      if info.order > cue.pos.order || (info.order == cue.pos.order && info.row >= cue.pos.row) {
        best := i;
      }
      assert t.cues[..i + 1][..i] == t.cues[..i];
      i := i + 1;
    }
    assert t.cues[..i] == t.cues;
  }

  /** Reaching a threshold is the lexicographic order, and it is kept as playback advances. */
  lemma ReachedIsOrder(now: Position, later: Position, p: Position)
    ensures Reached(now, p) <==> NotAfter(p, now)
    ensures Reached(now, p) && NotAfter(now, later) ==> Reached(later, p)
  {
  }

  /** Monotonic resolution: when (order, row) does not go backwards, the resolved
      cue index never decreases. */
  lemma {:induction false} LastReachedMonotone(cues: seq<Cue>, now: Position, later: Position)
    requires NotAfter(now, later)
    ensures LastReached(cues, now) <= LastReached(cues, later)
  {
    var r := LastReached(cues, now);
    if r >= 0 {
      ReachedIsOrder(now, later, cues[r].pos);
      assert Reached(later, cues[r].pos);
    }
  }

  /** A cue with row -1 is reached at every row from -1 on of its order. */
  lemma AnyRowWildcard(order: int, row: int)
    requires row >= -1
    ensures Reached(Position(order, row), Position(order, -1))
  {
  }

  /** The last match in list order wins, not the latest threshold: with an
      out-of-order list, an earlier threshold listed later is chosen. */
  lemma ListOrderWins(a: Cue, b: Cue)
    requires a.pos == Position(2, 0) && b.pos == Position(0, 0)
    ensures LastReached([a, b], Position(3, 0)) == 1
    ensures NotAfter(b.pos, a.pos) && a.pos != b.pos
  {
  }

  /** Thresholds in non-decreasing order. */
  predicate Sorted(cues: seq<Cue>)
  {
    forall i, j :: 0 <= i <= j < |cues| ==> NotAfter(cues[i].pos, cues[j].pos)
  }

  /** For a list authored in threshold order, the resolved cue carries the latest
      threshold reached. */
  lemma SortedResolvesLatest(cues: seq<Cue>, now: Position)
    requires Sorted(cues)
    ensures var r := LastReached(cues, now);
      forall j :: 0 <= j < |cues| && Reached(now, cues[j].pos) ==> 0 <= r && NotAfter(cues[j].pos, cues[r].pos)
  {
  }

  /** `BeatPulse`: 0 without a positive speed, otherwise one minus the row progress. */
  function BeatPulse(info: FrameInfo): (p: real)
    ensures info.speed <= 0 ==> p == 0.0
    ensures info.speed > 0 ==> p + info.beatProgress == 1.0
    ensures info.speed > 0 && 0.0 <= info.beatProgress <= 1.0 ==> 0.0 <= p <= 1.0
  {
    if info.speed <= 0 then 0.0 else 1.0 - info.beatProgress
  }

  /** `RowPulse`: 1 on the first tick of a row and 0 on every other tick. */
  function RowPulse(info: FrameInfo): (p: real)
    ensures p == 1.0 <==> info.frame == 0
    ensures p == 0.0 <==> info.frame != 0
  {
    if info.frame == 0 then 1.0 else 0.0
  }

  /** `MaxChannelVolume`: the loudest of the first `numChannels` channel volumes
      (never below 0), scaled by 1/255. */
  method MaxChannelVolume(info: FrameInfo) returns (v: real)
    requires info.numChannels <= MaxChannels
    ensures v == PeakOf(info.channelVol, info.numChannels) as real / 255.0
    ensures 0.0 <= v
    ensures forall i :: 0 <= i < info.numChannels ==> info.channelVol[i] as real / 255.0 <= v
    ensures info.numChannels <= 0 ==> v == 0.0
  {
    var max := 0;
    var i := 0;
    while i < info.numChannels
      invariant 0 <= i <= Max(info.numChannels, 0)
      invariant max == PeakOf(info.channelVol, i)
    {
      if info.channelVol[i] > max {
        max := info.channelVol[i];
      }
      i := i + 1;
    }
    v := max as real / 255.0;
  }
}
