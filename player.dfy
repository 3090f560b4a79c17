/** The audio player of internal/music/player.go: a fixed-capacity ring of PCM
    bytes filled by the render loop (producer) and drained by `Read` (consumer),
    together with the playback-position record that libxmp reports per frame.

    The goroutines, the condition variable and the `done` channel are replaced
    by a sequential object: a producer that would block on a full ring reports
    `Waiting` instead, and the closed `done` channel is the boolean `done`. */
module Music {
  import opened GoNum

  const SampleRate := 44100
  /** Capacity of the ring, `1 << 20` bytes. */
  const BufSize := 0x10_0000
  /** Number of tracker channels libxmp exposes. */
  const MaxChannels := 64

  /** Go's `[MaxChannels]int`. */
  type ChannelVolumes = s: seq<int> | |s| == MaxChannels witness seq(MaxChannels, _ => 0)

  /** Playback state of one rendered frame (`FrameInfo`), taken as a plain input record. */
  datatype FrameInfo = FrameInfo(
    order: int,
    pattern: int,
    row: int,
    numRows: int,
    frame: int,
    speed: int,
    bpm: int,
    timeMs: int,
    totalTimeMs: int,
    loopCount: int,
    channelVol: ChannelVolumes,
    numChannels: int,
    beatProgress: real)

  /** The largest of the first `n` channel volumes, starting from 0. */
  function PeakOf(vols: seq<int>, n: int): (m: int)
    requires n <= |vols|
    ensures 0 <= m
    ensures forall i :: 0 <= i < n ==> vols[i] <= m
    ensures m == 0 || exists i :: 0 <= i < n && vols[i] == m
  {
    if n <= 0 then 0 else Max(PeakOf(vols, n - 1), vols[n - 1])
  }

  // ---------------------------------------------------------------------------
  // The ring as a queue of bytes: what one write pass and one read do to it.

  /** Bytes one write pass deposits: as many of `chunk` as there is room for. */
  function Accepted(queue: seq<byte>, chunk: seq<byte>): (a: seq<byte>)
    requires |queue| <= BufSize
    ensures a <= chunk
    ensures |queue + a| <= BufSize
    ensures |a| < |chunk| ==> |queue + a| == BufSize
  {
    chunk[..Min(BufSize - |queue|, |chunk|)]
  }

  /** Bytes one read of at most `want` bytes takes: the oldest ones available. */
  function Delivered(queue: seq<byte>, want: nat): (d: seq<byte>)
    ensures d <= queue
    ensures |d| == Min(want, |queue|)
  {
    queue[..Min(want, |queue|)]
  }

  /** One step of a producer/consumer interleaving. */
  datatype Event = Put(chunk: seq<byte>) | Take(want: nat)

  /** Runs `events` from `queue`: the final queue, all bytes accepted, all bytes delivered. */
  function Replay(queue: seq<byte>, events: seq<Event>): (seq<byte>, seq<byte>, seq<byte>)
    requires |queue| <= BufSize
    decreases |events|
  {
    if events == [] then (queue, [], [])
    else match events[0]
      case Put(chunk) =>
        var a := Accepted(queue, chunk);
        var r := Replay(queue + a, events[1..]);
        (r.0, a + r.1, r.2)
      case Take(want) =>
        var d := Delivered(queue, want);
        var r := Replay(queue[|d|..], events[1..]);
        (r.0, r.1, d + r.2)
  }

  /** FIFO, no loss, no duplication: under any interleaving of write passes and
      reads, what was queued plus everything accepted equals everything delivered
      followed by what is still queued, and the queue never exceeds the capacity. */
  lemma {:induction false} ReplayIsFifo(queue: seq<byte>, events: seq<Event>)
    requires |queue| <= BufSize
    ensures var r := Replay(queue, events); queue + r.1 == r.2 + r.0 && |r.0| <= BufSize
    decreases |events|
  {
    if events != [] {
      match events[0]
      case Put(chunk) =>
        var a := Accepted(queue, chunk);
        ReplayIsFifo(queue + a, events[1..]);
        var r := Replay(queue + a, events[1..]);
        assert queue + (a + r.1) == (queue + a) + r.1;
      case Take(want) =>
        var d := Delivered(queue, want);
        ReplayIsFifo(queue[|d|..], events[1..]);
        var r := Replay(queue[|d|..], events[1..]);
        assert queue == d + queue[|d|..];
        assert d + r.2 + r.0 == d + (r.2 + r.0);
    }
  }

  /** Clamp of `SetVolume` into [0, 1]. */
  function ClampVolume(v: real): (r: real)
    ensures 0.0 <= r <= 1.0
    ensures 0.0 <= v <= 1.0 ==> r == v
    ensures v < 0.0 ==> r == 0.0
    ensures v > 1.0 ==> r == 1.0
  {
    if v < 0.0 then 0.0 else if v > 1.0 then 1.0 else v
  }

  /** Position in the ring of the `k`-th byte after cursor `r`, for a cursor
      in [0, BufSize) and `k` at most BufSize. */
  function Slot(r: int, k: int): int
  {
    if r + k < BufSize then r + k else r + k - BufSize
  }

  /** `Slot` is the modular index the Go code computes with `% bufSize`. */
  lemma SlotIsMod(r: int, k: int)
    requires 0 <= r < BufSize && 0 <= k <= BufSize
    ensures Slot(r, k) == (r + k) % BufSize
  {
  }

  /** Result of one pass of the render loop's write loop. */
  datatype WriteOutcome =
    | Wrote(count: nat)   // copied `count` bytes into the ring
    | Waiting             // the ring is full and playback goes on: the producer sleeps until a Read
    | Interrupted         // playback was stopped: the render loop returns

  class Player {
    var ring: array<byte>
    var ringR: int
    var ringW: int
    var ringLen: int
    var playing: bool
    /** True once the render loop has returned (its deferred `close(done)` ran). */
    var done: bool
    var volume: real
    var bytesWritten: nat
    var bytesRead: nat
    /** The bytes available to `Read`, oldest first. */
    ghost var contents: seq<byte>

    ghost predicate Valid()
      reads this, ring
    {
      && RingValid()
      && bytesWritten - bytesRead == ringLen
      && 0.0 <= volume <= 1.0
    }

    /** The cursors delimit `contents` in the ring. */
    ghost predicate RingValid()
      reads this, ring
    {
      && ring.Length == BufSize
      && 0 <= ringR < BufSize
      && 0 <= ringLen <= BufSize
      && ringW == Slot(ringR, ringLen)
      && |contents| == ringLen
      && (forall k :: 0 <= k < ringLen ==> contents[k] == ring[Slot(ringR, k)])
    }

    /** The player state `NewPlayer` builds once the module is loaded. */
    constructor ()
      ensures Valid() && fresh(ring)
      ensures contents == [] && !playing && !done && volume == 1.0
      ensures ringR == 0 && bytesWritten == 0 && bytesRead == 0
    {
      ring := new byte[BufSize];
      ringR, ringW, ringLen := 0, 0, 0;
      playing, done := false, false;
      volume := 1.0;
      bytesWritten, bytesRead := 0, 0;
      contents := [];
    }

    /** `Start`: marks playback as running (the render goroutine is the caller of WriteChunk). */
    method Start()
      requires Valid()
      modifies this
      ensures Valid() && playing
      ensures contents == old(contents) && done == old(done) && ringR == old(ringR)
      ensures bytesWritten == old(bytesWritten) && bytesRead == old(bytesRead) && volume == old(volume)
    {
      playing := true;
    }

    /** `Stop`: clears `playing`, so the next write pass is `Interrupted`. */
    method Stop()
      requires Valid()
      modifies this
      ensures Valid() && !playing
      ensures contents == old(contents) && done == old(done) && ringR == old(ringR)
      ensures bytesWritten == old(bytesWritten) && bytesRead == old(bytesRead) && volume == old(volume)
    {
      playing := false;
    }

    /** The render loop returning for any reason other than an interrupted write
        (end of module, or `playing` false at the top of the loop). */
    method EndRender()
      requires Valid()
      modifies this
      ensures Valid() && done
      ensures contents == old(contents) && playing == old(playing) && ringR == old(ringR)
      ensures bytesWritten == old(bytesWritten) && bytesRead == old(bytesRead) && volume == old(volume)
    {
      done := true;
    }

    /** One pass of the render loop's outer write loop over the frame `buf`,
        `written` bytes of which are already in the ring. */
    method WriteChunk(buf: seq<byte>, written: nat) returns (outcome: WriteOutcome)
      requires Valid()
      requires written < |buf|
      modifies this`ringW, this`ringLen, this`bytesWritten, this`contents, this`done, ring
      ensures Valid() && ring == old(ring)
      ensures playing == old(playing) && volume == old(volume) && ringR == old(ringR)
      ensures bytesRead == old(bytesRead)
      ensures !old(playing) ==> outcome == Interrupted && done
      ensures old(playing) && old(ringLen) == BufSize ==> outcome == Waiting && done == old(done)
      ensures outcome.Wrote? <==> old(playing) && old(ringLen) < BufSize
      ensures outcome.Wrote? ==>
        && outcome.count == Min(BufSize - old(ringLen), |buf| - written) > 0
        && contents == old(contents) + buf[written..written + outcome.count]
        && contents == old(contents) + Accepted(old(contents), buf[written..])
        && bytesWritten == old(bytesWritten) + outcome.count
        && done == old(done)
      ensures !outcome.Wrote? ==> contents == old(contents) && bytesWritten == old(bytesWritten)
    {
      if ringLen >= BufSize && playing {
        return Waiting;
      }
      if !playing {
        done := true;
        return Interrupted;
      }
      var space := BufSize - ringLen;
      var toWrite := |buf| - written;
      if toWrite > space {
        toWrite := space;
      }
      CopyIn(buf, written, toWrite);
      bytesWritten := bytesWritten + toWrite;
      outcome := Wrote(toWrite);
    }

    /** The byte-copy loop of a write pass: appends `buf[from..from + count]`
        at the write cursor. */
    method CopyIn(buf: seq<byte>, from: int, count: int)
      requires RingValid()
      requires 0 <= from && 0 <= count && from + count <= |buf| && ringLen + count <= BufSize
      modifies this`ringW, this`ringLen, this`contents, ring
      ensures RingValid()
      ensures ringLen == old(ringLen) + count
      ensures contents == old(contents) + buf[from..from + count]
    {
      var i := 0;
      while i < count
        invariant 0 <= i <= count
        invariant RingValid()
        invariant ringLen == old(ringLen) + i
        invariant contents == old(contents) + buf[from..from + i]
      {
        Push(buf[from + i]);
        assert buf[from..from + i + 1] == buf[from..from + i] + [buf[from + i]];
        i := i + 1;
      }
    }

    /** One step of the byte-copy loop: `b` goes in at the write cursor, which
        wraps around the end of the ring. */
    method Push(b: byte)
      requires RingValid() && ringLen < BufSize
      modifies this`ringW, this`ringLen, this`contents, ring
      ensures RingValid()
      ensures ringLen == old(ringLen) + 1
      ensures contents == old(contents) + [b]
    {
      forall k | 0 <= k < ringLen
        ensures Slot(ringR, k) != ringW
      {
      }
      ring[ringW] := b;
      ringW := (ringW + 1) % BufSize;
      ringLen := ringLen + 1;
      contents := contents + [b];
    }

    /** The copy loop of `Read`: moves the oldest `min(buf.Length, ringLen)`
        bytes into `buf` and advances the read cursor. */
    method Drain(buf: array<byte>) returns (n: int)
      requires RingValid() && buf != ring
      modifies this`ringR, this`ringLen, this`contents, buf
      ensures RingValid()
      ensures n == Min(buf.Length, old(ringLen))
      ensures buf[..n] == old(contents)[..n]
      ensures forall k :: n <= k < buf.Length ==> buf[k] == old(buf[k])
      ensures contents == old(contents)[n..]
      ensures ringR == Slot(old(ringR), n)
    {
      n := 0;
      while n < buf.Length && ringLen > 0
        invariant RingValid()
        invariant 0 <= n <= buf.Length
        invariant n <= old(ringLen) && ringLen == old(ringLen) - n
        invariant ringR == Slot(old(ringR), n)
        invariant contents == old(contents)[n..]
        invariant forall k :: 0 <= k < n ==> buf[k] == old(contents)[k]
        invariant forall k :: n <= k < buf.Length ==> buf[k] == old(buf[k])
        decreases ringLen
      {
        var next := (ringR + 1) % BufSize;
        forall k | 0 <= k < ringLen - 1
          ensures Slot(next, k) == Slot(ringR, k + 1)
        {
        }
        buf[n] := ring[ringR];
        ringR := next;
        ringLen := ringLen - 1;
        contents := contents[1..];
        n := n + 1;
      }
      assert buf[..n] == old(contents)[..n];
    }

    /** `Read`: drains up to `buf.Length` bytes and pads the rest with silence;
        reports end of stream only when nothing was read and the render loop has
        finished. Returns the byte count and whether `io.EOF` is reported. */
    method Read(buf: array<byte>) returns (n: int, eof: bool)
      requires Valid() && buf != ring
      modifies this`ringR, this`ringLen, this`bytesRead, this`contents, buf
      ensures Valid()
      ensures playing == old(playing) && done == old(done) && volume == old(volume)
      ensures bytesWritten == old(bytesWritten)
      ensures var m := Min(buf.Length, old(ringLen));
        && buf[..m] == Delivered(old(contents), buf.Length)
        && contents == old(contents)[m..]
        && ringR == (old(ringR) + m) % BufSize
        && bytesRead == old(bytesRead) + m
      ensures eof <==> Min(buf.Length, old(ringLen)) == 0 && done
      ensures eof ==> n == 0 && buf[..] == old(buf[..])
      ensures !eof ==> n == buf.Length
      ensures !eof ==> forall k :: Min(buf.Length, old(ringLen)) <= k < buf.Length ==> buf[k] == 0
    {
      n := Drain(buf);
      bytesRead := bytesRead + n;
      SlotIsMod(old(ringR), n);
      if n == 0 {
        if done {
          assert buf[..] == old(buf[..]);
          return 0, true;
        }
        Silence(buf, 0);
        return buf.Length, false;
      }
      if n < buf.Length {
        Silence(buf, n);
        return buf.Length, false;
      }
      return n, false;
    }

    /** The zero-filling loops of `Read`: `buf[from..]` becomes silence. */
    static method Silence(buf: array<byte>, from: int)
      requires 0 <= from <= buf.Length
      modifies buf
      ensures buf[..from] == old(buf[..from])
      ensures forall k :: from <= k < buf.Length ==> buf[k] == 0
    {
      var i := from;
      while i < buf.Length
        invariant from <= i <= buf.Length
        invariant buf[..from] == old(buf[..from])
        invariant forall k :: from <= k < i ==> buf[k] == 0
      {
        buf[i] := 0;
        i := i + 1;
      }
    }

    /** `Volume`. */
    method Volume() returns (v: real)
      requires Valid()
      ensures 0.0 <= v <= 1.0 && v == volume
    {
      v := volume;
    }

    /** `SetVolume`: stores `v` clamped into [0, 1]. */
    method SetVolume(v: real)
      requires Valid()
      modifies this
      ensures Valid() && volume == ClampVolume(v)
      ensures contents == old(contents) && playing == old(playing) && done == old(done)
      ensures ringR == old(ringR) && bytesWritten == old(bytesWritten) && bytesRead == old(bytesRead)
    {
      var c := v;
      if c < 0.0 {
        c := 0.0;
      }
      if c > 1.0 {
        c := 1.0;
      }
      volume := c;
    }
  }
}
