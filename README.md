# Karaoke MIDI player: a Dafny model

This project models the logic of a browser karaoke player for Standard MIDI
Files (SMF) and proves properties of that model. It has three parts.

- **The SMF reader** (`lib/midi-parser.js`, class `MIDIParser`):
  - chunk headers (a 4-byte id and a big-endian 32-bit length) and the header chunk's three 16-bit fields;
  - the per-track event walk, with variable-length quantities (VLQ), running status, text meta events 0x01-0x0F and note-off/note-on channel events;
  - the hand-written Cyrillic fallback byte-to-char map.

  Modules `MidiBytes`, `MidiText` and `MidiParser` model it. Module `MidiEncoding` adds a writer for the same events, used only to state round trips.
- **The jasmid replayer** (`lib/jasmid/replayer.js`). It merges the tracks by per-track tick counters (`trackStates`). It then converts every gap to milliseconds under the tempo in force, unless a BPM override was given. Module `Jasmid` models it: a `Replayer` class over an `array<TrackState>`, proved against the specification functions `Merge` and `Timeline`.
- **The player** (`js/midi.js`, class `MidiPlayer`, and `js/player.js`, class `KaraokePlayer`):
  - the lyric filter and the time-sorted channel events built from a parsed file (`parseLyrics`, `prepareEvents`, `ticksToSeconds`);
  - the seek/play/pause/stop cursor over those events;
  - the rule that picks the previous, current and next lyric for the clock.

  Modules `Midi` and `Karaoke` model it. Two helper modules model JavaScript built-ins:
  - `JsString` models `String.prototype.trim` and `startsWith`;
  - `TimeOrder` models the stable `Array.prototype.sort` with a `(a, b) => a.time - b.time` comparator, as an insertion sort that is proved sorted, a permutation and stable.

The wall clock (`Date.now()`) is a parameter `now` in milliseconds. Audio output is the list of note-on events that a playback step sounds. Times are `real`, not IEEE doubles.

Four behaviours of the code shape the model:

- The reader records only meta subtypes 0x01-0x0F (`lib/midi-parser.js:99-113`). So the set-tempo branch of `prepareEvents` (`js/midi.js:183-185`) never fires, and `MidiPlayer` always converts at 500000 µs per quarter note (`Midi.NoSetTempoEvent`).
- At that tempo, one quarter note of ticks takes 0.5 s; for example 480 ticks at 480 ticks per quarter note (`Midi.TicksToSecondsFacts`).
- The replayer updates the tempo before it converts the set-tempo event's own gap, so that gap already uses the new tempo (`Jasmid.TempoGovernsItsOwnGap`).
- The reader decodes text with a windows-1251 `TextDecoder` and falls back to its own byte-to-char map. Only the map is modelled.

The reader also has two behaviours that misplace events, and the model keeps both:

- The delta time of an event the reader does not record is dropped with it (set-tempo, end-of-track, controller events and so on). Later events of that track are timed early (`MidiParser.SkippedEventDropsDelta`).
- Commands other than note-off/note-on consume none of their data bytes, so those bytes are read as delta times and status bytes (`MidiParser.UnhandledCommandMisreadsData`).

## Model

| member | source | states |
|---|---|---|
| MidiBytes.ReadU16RoundTrip | lib/midi-parser.js:13-15 | two bytes holding the big-endian form of v < 2^16 read back as v |
| MidiBytes.ReadU32RoundTrip | lib/midi-parser.js:46 | four bytes holding the big-endian form of v < 2^32 read back as v |
| MidiBytes.VlqFromShape | lib/midi-parser.js:148-152 | the do-while loop stops at the first byte with bit 7 clear; the value is the base-128 fold of the bytes' low 7 bits; with no terminating byte the read runs off the buffer (RangeError) |
| MidiBytes.DecodeVlqShape | lib/midi-parser.js:143-155 | parseVLQ: length ≥ 1 counts the bytes up to and including the first with bit 7 clear; value is their base-128 fold; it fails exactly when no byte from the position on has bit 7 clear |
| MidiBytes.ParseVlq | lib/midi-parser.js:143-155 | the imperative do-while decoder computes DecodeVlq and stays inside the buffer |
| MidiBytes.VlqHighShape | lib/midi-parser.js:143-155 | the writer's continuation bytes all have bit 7 set, fold back to their value, and their count is fixed by the value's range |
| MidiBytes.EncodeVlqShape | lib/midi-parser.js:143-155 | an encoded VLQ ends with the only byte that has bit 7 clear, folds back to v, and is at most 4 bytes long exactly when v < 2^28 |
| MidiBytes.VlqFromTerminated | lib/midi-parser.js:148-152 | bytes with bit 7 set up to a terminating byte decode as their fold, with that length |
| MidiBytes.VlqRoundTrip | lib/midi-parser.js:143-155 | parseVLQ of an encoded value returns that value and the encoding's length |
| MidiText.DecodeFallback | lib/midi-parser.js:57-66 | the fallback map yields one character per byte |
| MidiText.FallbackRanges | lib/midi-parser.js:59-65 | 0xC0-0xFF map to U+0410+(b−0xC0), 0x80-0xBF to U+0430+(b−0x80), other bytes to themselves |
| MidiText.FallbackCollision | lib/midi-parser.js:59-62 | bytes 0x80 and 0xE0 both decode to 'а', so the map is not injective |
| MidiText.TextRoundTrip | lib/midi-parser.js:57-66 | text made of characters the map can produce decodes back from its encoding |
| MidiText.BytesRoundTrip | lib/midi-parser.js:57-66 | bytes outside 0x80-0xBF survive decode-then-encode unchanged |
| MidiParser.ParseChunkReadsEightBytes | lib/midi-parser.js:39-48 | parseChunk fails exactly when fewer than 8 bytes remain, yields a 4-character id, and depends only on those 8 bytes |
| MidiParser.DecodeEvent | lib/midi-parser.js:76-137 | one loop iteration moves the cursor forward, and its only failure is a read past the end |
| MidiParser.DecodeEventRecordable | lib/midi-parser.js:92-136 | an event that is pushed is a text meta event 0x01-0x0F or a 0x80/0x90 channel event |
| MidiParser.RunningStatusRule | lib/midi-parser.js:80-136 | a status byte with bit 7 clear is not consumed and the running status is reused; one with bit 7 set replaces it; 0x80/0x90 take note and velocity from the next two bytes and advance by 2; other commands emit nothing and consume no data byte |
| MidiParser.MetaEventExtent | lib/midi-parser.js:92-115 | a meta event advances past subtype, length VLQ and payload; it is recorded exactly for subtypes 0x01-0x0F, with its delta time, its subtype and one character per payload byte |
| MidiParser.ParseEvent | lib/midi-parser.js:77-137 | the imperative event step computes DecodeEvent |
| MidiParser.ParseTrackEvents | lib/midi-parser.js:70-141 | the while loop over the track body computes TrackEvents |
| MidiParser.TrackFromRecordable | lib/midi-parser.js:70-141 | a track's event list holds only recordable events |
| MidiParser.TrackFromNeverMissingHeader | lib/midi-parser.js:70-141 | walking a track never raises the missing-MThd error |
| MidiParser.TracksFromLength | lib/midi-parser.js:20-29 | the track loop appends exactly one list per track chunk and keeps the lists before it |
| MidiParser.TracksFromRecordable | lib/midi-parser.js:20-29 | every parsed track holds only recordable events |
| MidiParser.TracksFromNeverMissingHeader | lib/midi-parser.js:20-29 | the track loop never raises the missing-MThd error |
| MidiParser.Parse | lib/midi-parser.js:2-37 | the imperative parse computes ParseFile |
| MidiParser.ParseFileShape | lib/midi-parser.js:2-37 | on success the first id is "MThd"; format, numTracks and timeDivision are the u16 values at offsets 8, 10 and 12; there are numTracks recordable track lists, read from consecutive "MTrk" chunks starting right after the header chunk; the missing-MThd error happens exactly when the first id is not "MThd"; a first track chunk whose id is not "MTrk" fails with the invalid-track-chunk error at its position |
| MidiParser.TracksFromBadChunk | lib/midi-parser.js:21-23 | a track chunk whose id is not "MTrk" stops the parse with the error naming its position |
| MidiParser.TracksFromChunksSound | lib/midi-parser.js:20-29 | the lists the chunk loop returns are read from consecutive "MTrk" chunks: each from eight bytes past its chunk's start and for its length, the next chunk starting right after |
| MidiParser.TracksFromChunksComplete | lib/midi-parser.js:20-29 | consecutive "MTrk" chunks whose bodies parse are read back by the chunk loop, one list each |
| MidiParser.ChunksAtRecordable | lib/midi-parser.js:20-29 | the lists read from consecutive "MTrk" chunks hold only recordable events |
| MidiParser.TracksFromChunks | lib/midi-parser.js:20-29 | the chunk loop returns exactly the lists of `count` consecutive "MTrk" chunks |
| MidiParser.ParseFileTracks | lib/midi-parser.js:11-29 | a parse's tracks come from consecutive "MTrk" chunks, the first right after the header chunk's 8 + length bytes |
| MidiParser.SkippedEventDropsDelta | lib/midi-parser.js:77-114 | a set-tempo event 10 ticks in, followed by a lyric at delta 0, yields only the lyric, with delta 0 |
| MidiParser.UnhandledCommandMisreadsData | lib/midi-parser.js:117-136 | after a program change, its data byte is read as a delta time and the next two-byte delta as a note-off status: one note-on comes out as two note-offs |
| MidiEncoding.DecodeStoredNote | lib/midi-parser.js:117-134 | a written note event decodes to its command, channel, note and velocity, with or without its status byte |
| MidiEncoding.DecodeStoredMeta | lib/midi-parser.js:92-115 | a written text meta event decodes to its subtype and fallback-decoded payload, and the cursor lands right after it |
| MidiEncoding.DecodeEncodedEvent | lib/midi-parser.js:77-137 | the reader decodes every writable event to the event written |
| MidiEncoding.StoredTrack | lib/midi-parser.js:70-141 | a written track body read in place yields the written events |
| MidiEncoding.TrackRoundTrip | lib/midi-parser.js:70-141 | parseTrackEvents of an encoded track gives back its events |
| MidiEncoding.RunningStatusTransparent | lib/midi-parser.js:84-89 | a track written with running-status compression reads the same as one written without it |
| MidiEncoding.MetaTextRoundTrip | lib/midi-parser.js:99-113 | text the fallback map can produce survives writing as a meta payload |
| MidiEncoding.HeaderRoundTrip | lib/midi-parser.js:7-15 | a written header reads back as an "MThd" chunk of length 6 with its three fields |
| MidiEncoding.ChunkRoundTrip | lib/midi-parser.js:21-28 | a written track chunk reads as "MTrk" with its length, and its body as its events |
| MidiEncoding.DecodeEncodedTracks | lib/midi-parser.js:20-29 | the track loop reads back every written track in order |
| MidiEncoding.ParseFileOf | lib/midi-parser.js:2-37 | a buffer with a good header and tracks parses to exactly those fields and tracks |
| MidiEncoding.FileRoundTrip | lib/midi-parser.js:2-37 | parse of a written file returns its format, track count, time division and tracks |
| Jasmid.InitialStatesValid | lib/jasmid/replayer.js:8-17 | each track starts at index 0 with its first event's deltaTime as counter, or null when empty |
| Jasmid.SelectUpTo | lib/jasmid/replayer.js:24-33 | the scan picks a track with a live counter |
| Jasmid.Select | lib/jasmid/replayer.js:24-33 | the chosen track index is in range and live |
| Jasmid.SelectUpToSpec | lib/jasmid/replayer.js:24-33 | among the first n tracks: nothing is picked iff all are null; the pick has the minimal counter, strictly below every earlier live one |
| Jasmid.SelectSpec | lib/jasmid/replayer.js:24-34 | getNextEvent returns null iff every counter is null; otherwise the pick has a minimal counter and ties go to the lowest index |
| Jasmid.Advance | lib/jasmid/replayer.js:36-48 | consuming and advancing keeps one state per track |
| Jasmid.StepFacts | lib/jasmid/replayer.js:34-56 | after a step the chosen track's index grows by 1 and its counter is its next deltaTime or null; every other live counter drops by the chosen distance; the emission is that event |
| Jasmid.StepRemaining | lib/jasmid/replayer.js:19-57 | a step emits iff events remain, and then one fewer remains |
| Jasmid.MergeEmitsRemaining | lib/jasmid/replayer.js:19-57 | the rest of the merge has one emission per remaining event, and each track's emissions are its remaining events in order |
| Jasmid.MergeEmitsAll | lib/jasmid/replayer.js:83-84 | from the initial states each track's events are emitted exactly once, in track order |
| Jasmid.InitialSynced | lib/jasmid/replayer.js:8-17 | initially every live counter equals its next event's absolute tick |
| Jasmid.StepSynced | lib/jasmid/replayer.js:36-48 | a step keeps counters in step with absolute ticks; the running sum of ticksToEvent is the emitted event's absolute tick in its own track |
| Jasmid.StepIndex | lib/jasmid/replayer.js:36-42 | the emitted event is the chosen track's next event, and only that track's index moves |
| Jasmid.MergeTicks | lib/jasmid/replayer.js:19-57 | at every emission the running sum of ticksToEvent equals the event's absolute tick in its track |
| Jasmid.StepNonNegative | lib/jasmid/replayer.js:24-48 | with non-negative deltas, a step keeps every live counter non-negative and emits a non-negative distance |
| Jasmid.MergeNonNegative | lib/jasmid/replayer.js:24-48 | every gap in the merge is non-negative, so absolute ticks never decrease |
| Jasmid.Timeline | lib/jasmid/replayer.js:78 | one temporal entry per emitted event |
| Jasmid.TimelineCons | lib/jasmid/replayer.js:63-80 | the first entry uses the tempo after its own event, and the rest continue from that tempo |
| Jasmid.TimelineEntry | lib/jasmid/replayer.js:64-78 | entry j carries emission j and its gap at the tempo set by events 0..j |
| Jasmid.OverrideKeepsTempo | lib/jasmid/replayer.js:3-4 | with a BPM override, tempo events never change the tempo |
| Jasmid.TempoGovernsItsOwnGap | lib/jasmid/replayer.js:64-77 | a set-tempo event's own gap is converted at the new tempo, unless overridden |
| Jasmid.ProcessStep | lib/jasmid/replayer.js:63-81 | one processNext turns the pending emission plus the rest of the merge into one entry plus the timeline of what follows |
| Jasmid.Replayer.constructor | lib/jasmid/replayer.js:1-17 | after construction, temporal is the timeline of the whole merge from 120 BPM or the given bpm |
| Jasmid.Replayer.GetNextEvent | lib/jasmid/replayer.js:19-57 | the in-place scan and update return NextEmission and leave the array equal to NextStates |
| Jasmid.Replayer.ProcessNext | lib/jasmid/replayer.js:63-81 | sets the tempo from a set-tempo event, appends one entry with the gap at that tempo, and fetches the next emission |
| Jasmid.Replayer.ProcessEvents | lib/jasmid/replayer.js:62-86 | temporal grows by the timeline of the whole remaining merge |
| JsString.StartIndexSpec | js/midi.js:83-86 | trim's start skips exactly the leading whitespace and line terminators |
| JsString.EndIndexSpec | js/midi.js:83-86 | trim's end drops exactly the trailing whitespace and line terminators |
| JsString.TrimSpec | js/midi.js:83-86 | trim returns a slice with only trimmable characters cut off, and no trimmable character at either end |
| JsString.TrimBlank | js/midi.js:83 | text.trim() is empty iff every character is trimmable |
| JsString.TrimIdempotent | js/midi.js:86 | trimming stored lyric text again changes nothing |
| TimeOrder.Insert | js/midi.js:96 | inserting adds exactly one element |
| TimeOrder.SortBy | js/midi.js:96 | sorting keeps the length |
| TimeOrder.InsertSorted | js/midi.js:96 | inserting into a sorted sequence keeps it sorted |
| TimeOrder.InsertPermutes | js/midi.js:96 | inserting adds exactly the element to the multiset |
| TimeOrder.InsertStable | js/midi.js:96 | an inserted element goes after every element with the same key |
| TimeOrder.SortBySpec | js/midi.js:189 | the sort is ascending, a permutation, and stable per time |
| TimeOrder.SortBySorted | js/midi.js:189 | sorting a list already in time order leaves it unchanged |
| Midi.TicksToSecondsFacts | js/midi.js:100-102 | at the default tempo one quarter note takes 0.5 s; the conversion is additive and monotone in ticks |
| Midi.TrackLyricsComplete | js/midi.js:71-91 | every qualifying event of a track yields its lyric |
| Midi.TrackLyricsSound | js/midi.js:71-91 | every lyric of a track comes from a qualifying event |
| Midi.TrackLyricsExactly | js/midi.js:71-91 | a track's lyrics are exactly those of its meta 0x01/0x05/0x06 events with non-blank text not starting with "@" and not "\\"; each has trimmed text, the time of the track's cumulative ticks and the track index |
| Midi.CollectLyricsComplete | js/midi.js:68-94 | every track's lyrics are collected |
| Midi.CollectLyricsSound | js/midi.js:68-94 | every collected lyric belongs to some track |
| Midi.CollectLyricsExactly | js/midi.js:68-94 | the collected lyrics are exactly the union of the tracks' lyrics, with the tick counter restarting per track |
| Midi.LyricTextTrimmed | js/midi.js:83-86 | a stored lyric text is non-empty, trimmed, and neither starts nor ends with whitespace |
| Midi.ChannelEventsComplete | js/midi.js:175-182 | every channel event of a track is kept |
| Midi.ChannelEventsSound | js/midi.js:175-182 | every kept event is a channel event of the track |
| Midi.ChannelEventsExactly | js/midi.js:175-182 | a track contributes exactly its channel events, timed at its cumulative ticks |
| Midi.CollectEventsComplete | js/midi.js:173-187 | every track's channel events are collected |
| Midi.CollectEventsSound | js/midi.js:173-187 | every collected event belongs to some track |
| Midi.CollectEventsExactly | js/midi.js:173-187 | the collected events are exactly the union of the tracks' channel events |
| Midi.NoSetTempoEvent | js/midi.js:183-185 | no parsed event is a 0x51 meta event, so the tempo stays 500000 |
| Midi.ParseLyrics | js/midi.js:64-98 | the nested loops build the lyrics, sorted by time |
| Midi.PrepareEvents | js/midi.js:170-194 | the nested loops build the channel events sorted by time; totalDuration is the last time, or 0 when there are none, and is at least every time |
| Midi.FirstAtOrAfter | js/midi.js:114-117 | the seek index lies between the start and the length |
| Midi.SeekIndexSpec | js/midi.js:114-117 | every event before the seek index is earlier than t, and the one at it is not; on sorted events every later one is at or after t |
| Midi.DueEnd | js/midi.js:326-327 | the loop's stopping index lies between the start and the length |
| Midi.DueEndSpec | js/midi.js:326-339 | every event the loop passes is due, and the first one it stops at is not |
| Midi.SoundedExactly | js/midi.js:331-335 | a step sounds exactly the channel events with command 0x90 and velocity > 0 it passes |
| Midi.SoundedStep | js/midi.js:329-338 | each passed event adds its note, in order, only when it is a note-on |
| Midi.LastIsLatest | js/midi.js:190-191 | on sorted events the last event's time bounds all the others |
| Midi.MidiPlayer.constructor | js/midi.js:2-20 | the new player holds the parsed data, tempo 500000, the sorted lyrics and events, and a stopped cursor at 0 |
| Midi.MidiPlayer.SeekToPosition | js/midi.js:112-121 | sets the time to t and the index to the first event at or after t, and re-bases the start time only while playing |
| Midi.MidiPlayer.Play | js/midi.js:307-319 | acts only when not playing: re-bases the start time from the current time and runs one loop step |
| Midi.MidiPlayer.PlayLoop | js/midi.js:321-349 | one step passes exactly the events due at the elapsed time and sounds their note-ons; it stops and rewinds at the end, and otherwise keeps playing at the elapsed time |
| Midi.MidiPlayer.Pause | js/midi.js:351-355 | pausing stops play and leaves time and index alone |
| Midi.MidiPlayer.Stop | js/midi.js:357-364 | stop clears playing and rewinds time and index to 0 |
| Midi.Open | js/midi.js:2-35 | a parse error is passed on; otherwise a fresh player is built from the parsed file |
| Karaoke.FirstAfter | js/player.js:137-140 | the findIndex result lies between the start and the length |
| Karaoke.LyricIndex | js/player.js:137-141 | with lyrics, the chosen index is in range |
| Karaoke.FirstAfterSpec | js/player.js:137-140 | every lyric before the found index has started, and the one at it has not |
| Karaoke.LyricIndexSpec | js/player.js:137-141 | on sorted lyrics the chosen lyric is the last one that has started, or the first while none has; the next one has not started |
| Karaoke.LyricIndexMonotone | js/player.js:137-141 | as the clock advances the chosen index never decreases |
| Karaoke.StopTimers | js/player.js:180-185 | stopTimeUpdate clears the held interval, if any, and drops the handle |
| Karaoke.PlayTwiceLeaksTimer | js/player.js:173-192 | play, play, stop leaves one interval running with no handle to clear it |
| Karaoke.StartTimers | js/player.js:173-178 | the corrected start holds exactly one new interval after clearing the old one |
| Karaoke.TimersStayAccounted | js/player.js:173-185 | with the corrected start, every live interval stays the one held |
| Karaoke.Lines | js/player.js:149-168 | the lines for lyric k: the previous text or "", lyric k's text, the next text or "" |
| Karaoke.Refresh | js/player.js:127-171 | with no lyrics only the current line changes, to the message; otherwise the index becomes LyricIndex, the lines are rewritten when it moved and kept otherwise |
| Karaoke.RefreshKeepsInStep | js/player.js:137-170 | lines that show the lyric at their index keep doing so: a refresh shows the lyric on display at the new time |
| Karaoke.LoadLeavesStaleLine | js/player.js:119-120 | when the first lyric starts after 0 s, the as-written load keeps index 0 and rewrites no line, so a current line other than the first lyric stays stale |
| Karaoke.FirstLoadShowsPrompt | js/player.js:20-23 | a file whose one lyric starts at 1 s, loaded on the fresh page, leaves the current line showing the load prompt |
| Karaoke.LoadShowsLyric | js/player.js:113-125 | the corrected load shows the lyric on display at time 0, and later refreshes keep the lines in step |
| Karaoke.KaraokePlayer.constructor | js/player.js:2-23 | no player, no lyrics, index 0, no timer; the current line holds the load prompt |
| Karaoke.KaraokePlayer.ShowLyric | js/player.js:145-169 | the index and the three lines become those of lyric k |
| Karaoke.KaraokePlayer.UpdateLyricsDisplay | js/player.js:127-171 | the index and lines become Refresh of the old ones, which, with lyrics, show the lyric for the clock |
| Karaoke.KaraokePlayer.ProcessMidiFile | js/player.js:113-125 | a load error is passed on and changes nothing; on success the player's lyrics are taken and the lines become LoadDisplay of the old ones (the corrected load) |
| Karaoke.KaraokePlayer.TimeUpdate | js/player.js:174-177 | the lines become Refresh at the player's clock, which, with lyrics, show the lyric for that clock |
| Karaoke.KaraokePlayer.Play | js/player.js:187-192 | with a player: exactly one polling interval is held. A playing player is unchanged. Otherwise the player re-bases its start time, passes the due events and sounds their note-ons, and either keeps playing at the due index or stops and rewinds after the last event |
| Karaoke.KaraokePlayer.Pause | js/player.js:194-199 | with a player: it stops playing, time, index and start time are kept, and the interval is cleared; with none, nothing changes |
| Karaoke.KaraokePlayer.Stop | js/player.js:201-207 | with a player: it stops and rewinds to 0, the interval is cleared, and the lines become Refresh at time 0 (with lyrics, the lyric on display at 0); with none, nothing changes |

## Left out

- DOM work: element look-ups and their null checks, the highlight animation, the progress bar, the timeline UI, and the theme table. The three lyric lines are plain string fields.
- Audio: `AudioContext`, `playNote` and the pitch formula. A step returns the note-on events it would sound.
- `TextDecoder`: the windows-1251 attempt in the reader and the UTF-8 attempt in `MidiPlayer.decodeText` are foreign library behaviour. Only the reader's fallback map is modelled. Text reaches the player already decoded.
- File loading (`FileReader`) and hex logging; `console` output.
- Timers: `setInterval`, `requestAnimationFrame` and `Date.now` are left out. `now` is a parameter, and `PlayLoop` is one frame of the self-rescheduling loop. Timer handles are counted in `Timers`, not run.
- IEEE doubles: times are `real`, so rounding, NaN and Infinity are not modelled. For example, the replayer's `|| 0` only matters for NaN.
- MidiBytes.ParseVlq: the value is an unbounded `nat`. The JavaScript `<<` wraps at 32 bits for quantities longer than 4 bytes, and that wrap is not modelled.
- Midi.MidiPlayer.constructor: requires a non-zero timeDivision. The source would divide by zero and produce Infinity/NaN times. `Midi.Open` turns a zero timeDivision into a `ZeroTimeDivision` error instead.
- Midi.PrepareEvents: requires the parsed tracks to hold only what the reader records (`TracksRecordable`, which `MidiParser.ParseFileShape` proves of every parse). That makes the 0x51 branch unreachable, so the `tempo` field stays a constant.
- Midi.MidiPlayer.constructor: the lyrics, events and total duration are constant fields computed by `ParseLyrics` and `PrepareEvents`, which return values instead of pushing into fields. No other method changes them.
- Jasmid.Replayer.constructor: requires ticksPerBeat > 0, and set-tempo events carry a positive microsecondsPerBeat. The source would produce Infinity/NaN otherwise. Events other than set-tempo are one opaque kind, and `eventProcessor` is unused in the source.
- Karaoke.KaraokePlayer.ProcessMidiFile: uses the corrected `LoadDisplay`, which writes the three lines whatever the index was. The as-written load is kept in `Karaoke.LoadAsWritten` (see Findings). With no lyrics, both leave the previous and next lines as they were.
- Karaoke.KaraokePlayer.Play: uses the corrected `StartTimers`, which clears a held interval before starting a new one. The as-written behaviour is kept in `Karaoke.StartAsWritten` (see Findings).
- The writer in `MidiEncoding` does not exist in the source. It exists to state round trips. Its `EncodeChar` writes '?' for characters the fallback map cannot produce.

## Findings

| source | as written | input that shows it | evidently intended | confidence | as-written member | corrected member |
|---|---|---|---|---|---|---|
| js/player.js:173-192 | `startTimeUpdate` overwrites `timeUpdateInterval` without clearing the interval it held | play, play, stop on a loaded file: two intervals start, stop clears one, and the other keeps polling the clock with no handle left | start clears any held interval first, so stop always leaves none running | not executed | Karaoke.PlayTwiceLeaksTimer | Karaoke.TimersStayAccounted |
| js/player.js:119-120 | `processMidiFile` sets `currentLyricIndex` to 0 and then calls `updateLyricsDisplay`, which rewrites the lines only when the index changes | a file whose first lyric starts at 1 s: the index stays 0, no line is rewritten, and the current line keeps "Load a karaoke file..." or the previous file's lyric until the second lyric starts | the load writes the lines for the lyric on display at time 0 | not executed | Karaoke.LoadLeavesStaleLine | Karaoke.LoadShowsLyric |
