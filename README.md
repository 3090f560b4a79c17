# VGA demo core in Dafny

This project models the sequential core of a Go demo. The demo plays a tracker module and draws VGA Mode 13h effects in sync with it. The model covers:

- **Audio ring buffer** (`Music`, player.go). A 1 MiB circular byte store. The render loop fills it one write pass at a time, and `Read` drains it, pads with silence and reports end of stream. The class `Player` keeps the ring in an array with its cursors and byte counters, and a ghost sequence `contents` holds the queued bytes. `Replay` is the pure queue model of any interleaving of write passes and reads.
- **Cue timeline** (`Sync`, sync.go). Positions, cues, the resolution of the active cue, and the music-reactive helpers.
- **Cue file conversion** (`CueFiles`, cuefile.go). An already-parsed cue file becomes a timeline: effect names are resolved to indices and defaults are filled in.
- **Effect sequencer** (`Sequencing`, sequencer.go).
  - The class `Sequencer` has the fields of the Go struct and a ghost trace of the `Init` and `Update` calls it makes on the effects.
  - `Update` is proved equal to the pure step `Step`, which is `Retarget` followed by `Advance`. `Draw` is proved equal to `Frame`.
- **Framebuffer** (`Framebuffers`, framebuffer.go). 320x200 palette indices with pixel, line and rectangle primitives and RGBA expansion.
- **Sprites** (`Sprites`, sprite.go).
  - Each blitter is proved to perform exactly the stores of a pure list of writes (`SpriteWrites`, `ScaledWrites`).
  - Transparency and exactness are proved about those lists.
  - The glyph conversion is proved pixel by pixel against the font's bits.
- **Palettes** (`Palettes`, palette.go). The default Mode 13h palette and the fire gradient, each proved equal to a closed-form entry function.
- **Fire effect** (`Fires`, fire.go). The heat field, its seeding, its top-down propagation, and the pixel write.

Go's numeric conventions that matter are written out in `GoNum`:
- `byte` is a newtype, and `byte(v)` wraps;
- `int(f)` truncates toward zero, as does integer `/`;
- `&` and `<<` are modelled on natural numbers.

The active cue is the last cue in list order whose threshold has been reached, which is not always the cue with the latest threshold reached. `Sync.ListOrderWins` shows a list where the two differ; `Sync.SortedResolvesLatest` shows they agree when the list is sorted by threshold.

## Model

| member | source | states |
|---|---|---|
| GoNum.ByteOf | internal/effects/fire.go:90 | `byte(v)` keeps v modulo 256 and is the identity on 0..255 |
| GoNum.Trunc | internal/effects/fire.go:47 | `int(f)` truncates toward zero: the result is within 1 of f on the side of 0 |
| GoNum.Quot | internal/effects/fire.go:75 | integer `/` truncates toward zero: the quotient times the divisor is within one divisor of the dividend, on the side of 0 |
| GoNum.AndBit | internal/vga/sprite.go:75 | `row & (1 << x) != 0` holds exactly when binary digit x of row is set |
| Music.PeakOf | internal/sync/sync.go:60-68 | the scan's maximum is at least 0, at least every scanned volume, and is 0 or one of them |
| Music.Accepted | internal/music/player.go:159-171 | a write pass takes a prefix of the chunk, never overfills the ring, and takes less than the whole chunk only when the ring ends up full |
| Music.Delivered | internal/music/player.go:209-214 | a read takes the oldest min(want, queued) bytes |
| Music.ReplayIsFifo | internal/music/player.go:143-247 | under any interleaving of write passes and reads, queued-before plus accepted equals delivered plus still-queued, and the queue stays within capacity |
| Music.ClampVolume | internal/music/player.go:291-297 | the volume is clamped into [0, 1] and kept when already inside |
| Music.SlotIsMod | internal/music/player.go:167 | the wrap-around cursor step equals the `% bufSize` of the source |
| Music.Player.constructor | internal/music/player.go:57-62 | a new player has an empty ring, volume 1, not playing, not done, zero counters |
| Music.Player.Start | internal/music/player.go:96-102 | `playing` becomes true and nothing else changes |
| Music.Player.Stop | internal/music/player.go:257-261 | `playing` becomes false and the queued bytes are kept |
| Music.Player.EndRender | internal/music/player.go:105-117 | the render loop returning closes `done`; the queue is kept |
| Music.Player.WriteChunk | internal/music/player.go:145-172 | one write pass: not playing means Interrupted with `done` set and nothing written; a full ring means Waiting; otherwise exactly min(space, remaining) bytes of the chunk are appended, `bytesWritten` grows by that count, and the ring invariant and `bytesWritten - bytesRead == ringLen` are kept |
| Music.Player.CopyIn | internal/music/player.go:165-171 | the copy loop appends `buf[from..from+count]` to the queue and keeps the cursors consistent |
| Music.Player.Push | internal/music/player.go:165-168 | one byte goes in at the write cursor, which wraps, and the queue grows by that byte |
| Music.Player.Drain | internal/music/player.go:207-215 | moves the oldest min(len(buf), ringLen) bytes into buf in order, removes them from the queue, advances `ringR` modulo the capacity, and leaves the rest of buf |
| Music.Player.Read | internal/music/player.go:206-247 | drains the oldest bytes; EOF exactly when nothing was read and `done` is set, with buf untouched; otherwise reports len(buf) and zero-pads after the bytes read; the counters keep `bytesWritten - bytesRead == ringLen` |
| Music.Player.Silence | internal/music/player.go:239-246 | the zero-fill loop clears `buf[from..]` and keeps the bytes before |
| Music.Player.Volume | internal/music/player.go:284-288 | returns the volume, which is in [0, 1] |
| Music.Player.SetVolume | internal/music/player.go:291-301 | stores the clamped volume and changes nothing else |
| Sync.LastReached | internal/sync/sync.go:31-40 | the result is -1 or an index; that cue is reached and no later-listed cue is |
| Sync.ActiveCue | internal/sync/sync.go:31-40 | the loop returns -1 when no cue is reached, otherwise the last index in list order whose threshold is reached |
| Sync.ReachedIsOrder | internal/sync/sync.go:34-35 | the reached test is the lexicographic order on (order, row), and a reached cue stays reached as playback advances |
| Sync.LastReachedMonotone | internal/sync/sync.go:31-40 | when (order, row) advances, the resolved index never decreases |
| Sync.AnyRowWildcard | internal/sync/sync.go:8 | a cue with row -1 is reached at every row from -1 on of its order |
| Sync.ListOrderWins | internal/sync/sync.go:33-38 | with an out-of-order list, the later-listed cue wins over the later threshold |
| Sync.SortedResolvesLatest | internal/sync/sync.go:29-40 | for a list sorted by threshold, the resolved cue has the latest threshold reached |
| Sync.BeatPulse | internal/sync/sync.go:44-49 | 0 without a positive speed, otherwise 1 - beatProgress, which is in [0, 1] when the progress is |
| Sync.RowPulse | internal/sync/sync.go:52-57 | 1 exactly on the first tick of a row, 0 on every other tick |
| Sync.MaxChannelVolume | internal/sync/sync.go:60-68 | the maximum of the first numChannels volumes over 255, at least each of them, at least 0, and 0 without channels |
| CueFiles.NameMap | internal/sync/cuefile.go:33-36 | the map holds exactly the listed names, each mapped to its last position |
| CueFiles.ResolveCue | internal/sync/cuefile.go:44-57 | the cue keeps the position, takes the effect's index, defaults the transition to "cut" and a non-positive fade to 1 |
| CueFiles.BuildTimeline | internal/sync/cuefile.go:33-60 | fails exactly when some cue names an unknown effect, with the first such name in the message; otherwise one loaded cue per record in order, every effect index valid and every fade positive |
| CueFiles.DuplicateNameLastWins | internal/sync/cuefile.go:33-36 | a name listed twice resolves to its last position |
| Palettes.CubeColor | internal/vga/palette.go:41-46 | cube level r, g, b gives channels 51r, 51g, 51b, opaque |
| Palettes.Grey | internal/vga/palette.go:54-55 | a grey of level v has three equal channels v, opaque |
| Palettes.DefaultEntry | internal/vga/palette.go:12-59 | every default entry is opaque |
| Palettes.CubeEntry | internal/vga/palette.go:36-50 | entry 16 + 36r + 6g + b is the cube colour (51r, 51g, 51b) |
| Palettes.CubeCoversRange | internal/vga/palette.go:36-50 | every entry from 16 to 231 is a cube entry, so the cube fills that range |
| Palettes.DefaultPalette | internal/vga/palette.go:12-59 | every entry equals the closed form: the CGA colours, the cube, then greys 8 + 10j |
| Palettes.FireEntry | internal/vga/palette.go:62-82 | every fire entry is opaque |
| Palettes.FirePalette | internal/vga/palette.go:62-82 | every entry equals the banded closed form |
| Palettes.FireBrightens | internal/vga/palette.go:61-82 | each channel of the gradient is non-decreasing in the index |
| Palettes.FireBands | internal/vga/palette.go:66-78 | black at 0, red at 64, yellow at 128, white from 192 |
| Framebuffers.Coords | internal/vga/framebuffer.go:35-37 | index y*Width + x lies in column x of row y |
| Framebuffers.Framebuffer.constructor | internal/vga/framebuffer.go:23-25 | all pixels 0 and the given palette |
| Framebuffers.Framebuffer.GetPixel | internal/vga/framebuffer.go:47-49 | the pixel at y*Width + x |
| Framebuffers.Framebuffer.Clear | internal/vga/framebuffer.go:28-32 | every pixel becomes the colour |
| Framebuffers.Framebuffer.SetPixel | internal/vga/framebuffer.go:35-37 | `GetPixel` then returns the colour; every other pixel is unchanged |
| Framebuffers.Framebuffer.SetPixelSafe | internal/vga/framebuffer.go:40-44 | writes only an on-screen point, and changes nothing otherwise |
| Framebuffers.Framebuffer.HLine | internal/vga/framebuffer.go:52-69 | exactly the clipped span of row y between x0 and x1, in either order, is painted; nothing when y is off screen |
| Framebuffers.Framebuffer.VLine | internal/vga/framebuffer.go:72-88 | exactly the clipped span of column x between y0 and y1 is painted; nothing when x is off screen |
| Framebuffers.Framebuffer.FillRect | internal/vga/framebuffer.go:91-95 | exactly the pixels of the rows' `HLine` spans are painted |
| Framebuffers.Framebuffer.RGBA | internal/vga/framebuffer.go:99-109 | bytes 4i..4i+3 are R, G, B, A of the palette colour of pixel i, and all of them are returned |
| Framebuffers.Framebuffer.SetPalette | internal/vga/framebuffer.go:112-114 | the palette is replaced |
| Framebuffers.Framebuffer.SetPaletteColor | internal/vga/framebuffer.go:117-119 | only the given entry changes |
| Framebuffers.Framebuffer.CopyFrom | internal/vga/framebuffer.go:122-124 | the pixels become the source's, and the palette is untouched |
| Framebuffers.ZeroWidthRect | internal/vga/framebuffer.go:91-95 | because of the endpoint swap, a zero-width rectangle still paints columns x0-1 and x0 |
| Framebuffers.EmptyRect | internal/vga/framebuffer.go:91-95 | a rectangle with no height paints nothing |
| Sprites.Sprite.Blank | internal/vga/sprite.go:9-15 | a w x h sprite of zeros |
| Sprites.Sprite.FromData | internal/vga/sprite.go:17-24 | always w*h pixels: the data zero-padded when short, otherwise its first w*h bytes |
| Sprites.Sprite.GetPixel | internal/vga/sprite.go:33-38 | the pixel at y*width + x inside the sprite, and 0 outside |
| Sprites.Sprite.SetPixel | internal/vga/sprite.go:26-31 | writes an in-bounds pixel, which `GetPixel` then returns; a no-op outside |
| Sprites.SpriteWritesHit | internal/vga/sprite.go:40-49 | every store of the blit writes a non-zero colour to the target of a non-zero sprite pixel |
| Sprites.SpriteWritesInside | internal/vga/sprite.go:45 | when the sprite fits, every store lands in the framebuffer |
| Sprites.BlitTransparent | internal/vga/sprite.go:40-49 | colour 0 is transparent: a pixel under no non-zero sprite pixel keeps its value |
| Sprites.BlitExact | internal/vga/sprite.go:40-49 | a sprite no wider than the screen leaves each non-zero pixel's colour at its target |
| Sprites.DrawSpriteRow | internal/vga/sprite.go:42-47 | one sprite row performs exactly that row's stores |
| Sprites.DrawSprite | internal/vga/sprite.go:40-49 | the framebuffer ends up as the old one after the blit's stores, in order |
| Sprites.ScaledWritesHit | internal/vga/sprite.go:51-67 | every store of the scaled blit writes a non-zero colour inside the block of a non-zero pixel |
| Sprites.ScaledWritesInside | internal/vga/sprite.go:61 | when the scaled sprite fits, every store lands in the framebuffer |
| Sprites.DrawBlockRow | internal/vga/sprite.go:60-62 | one row of a block performs exactly that row's stores |
| Sprites.DrawBlock | internal/vga/sprite.go:59-63 | a scale x scale block performs exactly its stores |
| Sprites.DrawScaledRow | internal/vga/sprite.go:56-65 | one sprite row performs a block per non-zero pixel, left to right |
| Sprites.EffectiveScale | internal/vga/sprite.go:52-54 | a scale of 0 or less counts as 1; a positive scale is kept |
| Sprites.DrawScaledRows | internal/vga/sprite.go:55-66 | the sprite's rows, top to bottom, perform exactly the scaled stores |
| Sprites.DrawSpriteScaled | internal/vga/sprite.go:51-67 | the framebuffer ends up as the old one after the scaled stores at the effective scale |
| Sprites.ScaledTransparent | internal/vga/sprite.go:51-67 | colour 0 stays transparent at any scale |
| Sprites.ScaleOneIsPlain | internal/vga/sprite.go:51-67 | at scale 1 the scaled blit makes exactly the stores of `DrawSprite` |
| Sprites.GlyphRow | internal/vga/sprite.go:72-79 | one font row: pixel x of row y becomes 255 when bit x is set, and stays 0 otherwise |
| Sprites.CharToSprite | internal/vga/sprite.go:69-81 | an 8x8 sprite whose pixel (x, y) is 255 if bit x of glyph row y is set, and 0 otherwise |
| Sequencing.StepKeepsFadeInv | internal/sync/sequencer.go:73-84 | with dt >= 0, alpha stays in [0, 1]; a running fade has a positive duration and alpha = timer / duration < 1 |
| Sequencing.AlphaNonDecreasing | internal/sync/sequencer.go:73-84 | while no new effect is switched in, alpha never decreases |
| Sequencing.FadeEndsOnTime | internal/sync/sequencer.go:73-84 | a running fade ends exactly when its timer reaches the duration, and then alpha is 1 |
| Sequencing.NewCueAlwaysRecorded | internal/sync/sequencer.go:41-47 | a new cue index is recorded even when its effect is the active one or out of range; then only the fade advances and no `Init` is called |
| Sequencing.SameCueOnlyAdvances | internal/sync/sequencer.go:41-42 | no cue, or the same cue, changes nothing but the fade |
| Sequencing.FadeInitsLazily | internal/sync/sequencer.go:49-61 | a fade calls `Init` once for an effect never initialized, and not at all otherwise; the effect joins `initialized` |
| Sequencing.CutInits | internal/sync/sequencer.go:62-68 | a cut to a never-initialized effect calls its `Init` twice, and once for an effect seen before |
| Sequencing.StepKeepsReady | internal/sync/sequencer.go:87-92 | after the first effect is started, every effect called is in range and initialized, and `initialized` only grows |
| Sequencing.StartedIsReady | internal/sync/sequencer.go:127-137 | `InitFirst` on a new sequencer initializes exactly the first effect and leaves the fade fields consistent |
| Sequencing.StepInits | internal/sync/sequencer.go:49-68 | one `Update` initializes an effect once when it newly joins `initialized`, once more when it cuts to it, and never otherwise |
| Sequencing.RunInits | internal/sync/sequencer.go:39-93 | over any run of `Update`s, with cuts and fades mixed, an effect is initialized once if the run first initializes it, plus once per cut to it, and at no other time |
| Sequencing.FadesNeverCut | internal/sync/sequencer.go:54-61 | a timeline whose cues all fade makes no cut in any run |
| Sequencing.FadesInitOnce | internal/sync/sequencer.go:49-61 | on a timeline of fades, every effect is initialized at most once over any run, and never if it was initialized before |
| Sequencing.LoadedStartsInRange | internal/sync/sequencer.go:127-137 | a loaded timeline, whose effect indices are below the number of effect names in its file, meets `InitFirst`'s index requirement when the file lists no more names than the sequencer has effects |
| Sequencing.SeventhEffectLoads | internal/sync/cuefile.go:33-57 | a file naming seven effects whose first cue uses the seventh loads, and its first effect index is outside six effects |
| Sequencing.FadeSwitchesAtHalfway | internal/sync/sequencer.go:116-123 | during a fade the screen shows the previous effect while less than half the duration has elapsed, then the new one |
| Sequencing.SteadyFrame | internal/sync/sequencer.go:97-103 | with no fade running, `Draw` is the active effect's drawing, or nothing |
| Sequencing.Render | internal/sync/sequencer.go:100 | an effect's drawing is stored into the framebuffer |
| Sequencing.Sequencer.constructor | internal/sync/sequencer.go:26-36 | currentIdx -1, activeIdx 0, prevIdx -1, alpha 1, not fading, nothing initialized, no calls |
| Sequencing.Sequencer.InitFirst | internal/sync/sequencer.go:127-137 | with effects, the first cue's effect (or 0) becomes active, gets one `Init` and is marked initialized; with none, nothing changes |
| Sequencing.Sequencer.Update | internal/sync/sequencer.go:39-93 | the new state is `Step` of the old one at the frame's position, and the calls made are `StepCalls` |
| Sequencing.Sequencer.Follow | internal/sync/sequencer.go:41-70 | the cue handling is `Retarget`, with its `Init` calls |
| Sequencing.Sequencer.AdvanceFade | internal/sync/sequencer.go:73-84 | the fade advance is `Advance` |
| Sequencing.Sequencer.UpdateEffects | internal/sync/sequencer.go:87-92 | updates the active effect, then the previous one while still fading, each only when in range |
| Sequencing.Sequencer.Draw | internal/sync/sequencer.go:96-124 | the framebuffer ends up as `Frame`: the active effect's drawing, or during the first half of a fade the previous effect's drawing on a blank screen |
| Fires.IntensityBounds | internal/effects/fire.go:27-43 | intensity is at least 1; exactly 1 without a tempo; at least 2 on the first tick of a row |
| Fires.BaseHeatRange | internal/effects/fire.go:47-50 | with intensity at least 1 the seed bound is between 200 and 255, and 255 from 1.28 on |
| Fires.BeatBurnsHottest | internal/effects/fire.go:27-50 | on the first tick of a row the seeds may reach 255 |
| Fires.CoolBounds | internal/effects/fire.go:70-80 | a cooled cell is at least 0 and at most its hottest source less 2, or 0 |
| Fires.BurnKeepsRange | internal/effects/fire.go:47-81 | seeds in [0, 255] keep every heat value in [0, 255] |
| Fires.NoFuelCools | internal/effects/fire.go:51-81 | with all seeds 0, the hottest cell cools by at least 2 per frame and the seeded rows go cold |
| Fires.CoolFromBelow | internal/effects/fire.go:59-73 | a cell's new heat depends only on the rows below it, so the top-down pass reads them as they were before the pass |
| Fires.ShownAsIs | internal/effects/fire.go:85-91 | a heat value in [0, 255] is shown as itself |
| Fires.Fire.constructor | internal/effects/fire.go:16-18 | intensity 1 and a cold field |
| Fires.Fire.Init | internal/effects/fire.go:20-25 | installs the fire palette and zeroes every heat cell |
| Fires.Fire.Update | internal/effects/fire.go:27-43 | the intensity becomes `Intensity` of the frame |
| Fires.Fire.Draw | internal/effects/fire.go:45-92 | the heat becomes `Burn` of the old heat and the draws, stays in [0, 255], and every pixel equals its heat |
| Fires.Fire.Seed | internal/effects/fire.go:51-56 | the bottom row takes draws 2x and the row above takes draws 2x+1 |
| Fires.Fire.CoolRow | internal/effects/fire.go:59-82 | row y gets its cooled values from the rows below; other rows are unchanged |
| Fires.Fire.CoolCell | internal/effects/fire.go:61-80 | cell (x, y) gets the clamped average of its sources less 2, at least 0; no other cell changes |
| Fires.Fire.Show | internal/effects/fire.go:85-91 | every pixel becomes `byte(min(heat, 255))` |

## Left out

- Concurrency in player.go is replaced by a sequential object:
  - the render and debug goroutines, the condition variable, the mutexes and `stopOnce`;
  - `Stop`'s 2-second timeout and the libxmp shutdown calls.
  - A producer that would block on a full ring returns `Waiting`, and the closed `done` channel is a boolean.
- `FadeOut`, `SyncState`, `SetDebug` and `debugLoop` in player.go are not modelled: they are wall-clock timing, locking and logging.
- `NewPlayer`, `NewPlayerFromMemory` and xmp.go are foreign calls into libxmp. `FrameInfo` is a plain input record, and each chunk of PCM is an input to `WriteChunk`.
- Music.Player.Read: a zero-length buffer with `done` not yet closed counts as a read of 0 bytes followed by silence. This is what the code does.
- The `uint64` byte counters are unbounded naturals: their wrap-around after 2^64 bytes is not modelled.
- Reading the cue file from disk and decoding its JSON are left out. `CueFiles.BuildTimeline` starts from the decoded record.
- Effects are opaque in the sequencer:
  - their `Init` and `Update` are entries in a ghost trace;
  - what their `Draw` paints is a function parameter of `Sequencer.Draw`.
  - What an effect's `Init` does to the framebuffer (such as installing its palette) is not part of the sequencer's contract, so `Sequencer.Update` takes no framebuffer.
  - An `UpdateCall` records the effect and `dt`, but not the `FrameInfo` that `Update` passes on. The trace therefore does not state that the active and the previous effect see the same frame.
- Sequencing.Sequencer.InitFirst requires the first cue's effect index to be in range. The code indexes the effect list with it unchecked, which panics otherwise. Loading bounds the indices only by the number of effect names the cue file lists, not by the sequencer's effects. So a loaded timeline meets the requirement when the file lists no more effect names than the sequencer has effects (`Sequencing.LoadedStartsInRange`). A file that lists more names can load and still make `InitFirst` panic (`Sequencing.SeventhEffectLoads`).
- Every `float64` is a Dafny `real`: the fade fields (`fadeAlpha`, `fadeDur`, `fadeTimer`), `Player.volume`, `Fire.intensity`, `FrameInfo.beatProgress`, and the results of `MaxChannelVolume`, `BeatPulse` and `RowPulse`. Rounding, infinities and NaN are not modelled. In Go, a NaN passed to `SetVolume` passes the clamp and is stored; a `real` cannot be NaN.
- `FadeToBlack` in framebuffer.go, and `GradientPalette`, `PlasmaPalette` and the sine approximation in palette.go, are left out: they use goroutines, timers and floating point.
- The other effects (plasma.go, tunnel.go, starfield.go, scroller.go) and main.go are not part of this model.
- Sprites.Sprite.FromData copies the data. The Go code shares the caller's slice when the data is long enough, so writes through one alias are not modelled.
- The blitters require the framebuffer and the sprite to be different arrays. Go allows them to be the same: `NewSpriteFromData` keeps the caller's slice, so a sprite built from a framebuffer's own pixels shares them. Blitting such a sprite into its own framebuffer is not modelled.
- Sprites.CharToSprite takes the font table as a parameter. The CP437 font table is not part of this model.
- Sprites.DrawSpriteScaled: at a scale above 1 the model proves three things: the exact sequence of stores, transparency, and that every store lands in the block of a non-zero pixel. The final colour of a block is not proved at a scale above 1, even when the scaled sprite fits on screen and no two blocks can overlap.
- Fires.Fire.Draw takes the values of its `rand.Intn(base + 1)` calls as a parameter `draws`, and requires each to lie in [0, base].
- Fires.Fire.Update uses `Sync.MaxChannelVolume` for its channel scan, which is the same loop, and requires at most 64 channels, as Go's array indexing does.
