/** The playback side of the karaoke player (MidiPlayer): the lyric list and
    the time-sorted channel events built from a parsed file, and the
    play/pause/stop/seek cursor over those events. The clock (`Date.now`)
    is the parameter `now`, in milliseconds; audio output is the list of
    note-on events a step sounds. */
module Midi {
  import opened Wrappers
  import opened MidiBytes
  import opened MidiParser
  import TimeOrder
  import JsString

  /** Microseconds per quarter note before any tempo event (120 BPM). */
  const DefaultTempo: int := 500000

  datatype Lyric = Lyric(time: real, text: string, track: nat)

  /** A channel event with its time in seconds. */
  datatype TimedEvent = TimedEvent(time: real, event: TrackEvent)

  /** Why a buffer could not be loaded. */
  datatype LoadError = ParseError(error: Error) | ZeroTimeDivision

  function LyricTime(l: Lyric): real { l.time }

  function EventTime(e: TimedEvent): real { e.time }

  /** ticksToSeconds: ticks * (tempo / (timeDivision * 1000000)). */
  function TicksToSeconds(ticks: int, tempo: int, timeDivision: nat): real
    requires timeDivision > 0
  {
    ticks as real * (tempo as real / (timeDivision as real * 1000000.0))
  }

  /** At the default tempo a quarter note (timeDivision ticks) lasts half a
      second, and the conversion is additive and monotone in the ticks. */
  lemma TicksToSecondsFacts(a: nat, b: nat, timeDivision: nat)
    requires timeDivision > 0
    ensures TicksToSeconds(timeDivision, DefaultTempo, timeDivision) == 0.5
    ensures TicksToSeconds(a + b, DefaultTempo, timeDivision)
            == TicksToSeconds(a, DefaultTempo, timeDivision) + TicksToSeconds(b, DefaultTempo, timeDivision)
    ensures a <= b ==> TicksToSeconds(a, DefaultTempo, timeDivision) <= TicksToSeconds(b, DefaultTempo, timeDivision)
  {
    var f := DefaultTempo as real / (timeDivision as real * 1000000.0);
    assert f * (timeDivision as real) == 0.5;
    assert 0.0 <= f;
    if a <= b {
      assert (b - a) as real * f >= 0.0;
    }
  }

  /** The sum of the delta times of `events`: the running tick counter of
      a track walk. */
  function Ticks(events: seq<TrackEvent>): nat
  {
    if events == [] then 0 else Ticks(events[..|events| - 1]) + events[|events| - 1].deltaTime
  }

  // ---------------------------------------------------------------------
  // Lyrics

  /** The lyric filter: a text, lyric or marker meta event whose text is not
      blank once trimmed, does not start with '@' and is not a single
      backslash. */
  predicate IsLyricEvent(e: TrackEvent)
  {
    && e.Meta?
    && (e.subtype == 0x01 || e.subtype == 0x05 || e.subtype == 0x06)
    && e.text != []
    && JsString.Trim(e.text) != []
    && !JsString.StartsWith(e.text, "@")
    && e.text != "\\"
  }

  /** The lyric event `i` of a track becomes: its track's cumulative ticks
      up to and including it, converted to seconds, its trimmed text and the
      track index. */
  function LyricFor(track: seq<TrackEvent>, i: nat, t: nat, tempo: int, timeDivision: nat): Lyric
    requires i < |track| && track[i].Meta? && timeDivision > 0
  {
    Lyric(TicksToSeconds(Ticks(track[..i + 1]), tempo, timeDivision), JsString.Trim(track[i].text), t)
  }

  /** The lyrics one track contributes, in track order. */
  function TrackLyrics(track: seq<TrackEvent>, t: nat, tempo: int, timeDivision: nat): seq<Lyric>
    requires timeDivision > 0
  {
    if track == [] then []
    else
      var n := |track| - 1;
      TrackLyrics(track[..n], t, tempo, timeDivision)
      + (if IsLyricEvent(track[n])
         then [Lyric(TicksToSeconds(Ticks(track), tempo, timeDivision), JsString.Trim(track[n].text), t)]
         else [])
  }

  /** The lyrics of all tracks, track after track, before sorting. */
  function CollectLyrics(tracks: seq<seq<TrackEvent>>, tempo: int, timeDivision: nat): seq<Lyric>
    requires timeDivision > 0
  {
    if tracks == [] then []
    else
      var n := |tracks| - 1;
      CollectLyrics(tracks[..n], tempo, timeDivision) + TrackLyrics(tracks[n], n, tempo, timeDivision)
  }

  /** Each lyric event of a track yields its lyric. */
  lemma {:induction false} TrackLyricsComplete(track: seq<TrackEvent>, t: nat, tempo: int, timeDivision: nat, i: nat)
    requires timeDivision > 0 && i < |track| && IsLyricEvent(track[i])
    ensures LyricFor(track, i, t, tempo, timeDivision) in TrackLyrics(track, t, tempo, timeDivision)
    decreases |track|
  {
    var n := |track| - 1;
    assert track[..n + 1] == track;
    if i < n {
      TrackLyricsComplete(track[..n], t, tempo, timeDivision, i);
      assert track[..n][..i + 1] == track[..i + 1];
    }
  }

  /** Each lyric of a track comes from one of its lyric events. */
  lemma {:induction false} TrackLyricsSound(track: seq<TrackEvent>, t: nat, tempo: int, timeDivision: nat, x: Lyric)
    requires timeDivision > 0 && x in TrackLyrics(track, t, tempo, timeDivision)
    ensures exists i :: 0 <= i < |track| && IsLyricEvent(track[i]) && x == LyricFor(track, i, t, tempo, timeDivision)
    decreases |track|
  {
    var n := |track| - 1;
    assert track[..n + 1] == track;
    if x in TrackLyrics(track[..n], t, tempo, timeDivision) {
      TrackLyricsSound(track[..n], t, tempo, timeDivision, x);
      var i :| 0 <= i < n && IsLyricEvent(track[..n][i]) && x == LyricFor(track[..n], i, t, tempo, timeDivision);
      assert track[..n][..i + 1] == track[..i + 1];
      assert x == LyricFor(track, i, t, tempo, timeDivision);
    } else {
      assert x == LyricFor(track, n, t, tempo, timeDivision);
    }
  }

  /** A track's lyrics are exactly its lyric events, each with its
      cumulative-tick time and trimmed text. */
  lemma TrackLyricsExactly(track: seq<TrackEvent>, t: nat, tempo: int, timeDivision: nat, x: Lyric)
    requires timeDivision > 0
    ensures x in TrackLyrics(track, t, tempo, timeDivision)
        <==> exists i :: 0 <= i < |track| && IsLyricEvent(track[i]) && x == LyricFor(track, i, t, tempo, timeDivision)
  {
    if x in TrackLyrics(track, t, tempo, timeDivision) {
      TrackLyricsSound(track, t, tempo, timeDivision, x);
    }
    if exists i :: 0 <= i < |track| && IsLyricEvent(track[i]) && x == LyricFor(track, i, t, tempo, timeDivision) {
      var i :| 0 <= i < |track| && IsLyricEvent(track[i]) && x == LyricFor(track, i, t, tempo, timeDivision);
      TrackLyricsComplete(track, t, tempo, timeDivision, i);
    }
  }

  lemma {:induction false} CollectLyricsComplete(tracks: seq<seq<TrackEvent>>, tempo: int, timeDivision: nat, t: nat, x: Lyric)
    requires timeDivision > 0 && t < |tracks| && x in TrackLyrics(tracks[t], t, tempo, timeDivision)
    ensures x in CollectLyrics(tracks, tempo, timeDivision)
    decreases |tracks|
  {
    var n := |tracks| - 1;
    if t < n {
      assert tracks[..n][t] == tracks[t];
      CollectLyricsComplete(tracks[..n], tempo, timeDivision, t, x);
    }
  }

  lemma {:induction false} CollectLyricsSound(tracks: seq<seq<TrackEvent>>, tempo: int, timeDivision: nat, x: Lyric)
    requires timeDivision > 0 && x in CollectLyrics(tracks, tempo, timeDivision)
    ensures exists t :: 0 <= t < |tracks| && x in TrackLyrics(tracks[t], t, tempo, timeDivision)
    decreases |tracks|
  {
    var n := |tracks| - 1;
    if x in CollectLyrics(tracks[..n], tempo, timeDivision) {
      CollectLyricsSound(tracks[..n], tempo, timeDivision, x);
      var t :| 0 <= t < n && x in TrackLyrics(tracks[..n][t], t, tempo, timeDivision);
      assert tracks[..n][t] == tracks[t];
      assert x in TrackLyrics(tracks[t], t, tempo, timeDivision);
    } else {
      assert x in TrackLyrics(tracks[n], n, tempo, timeDivision);
    }
  }

  /** The file's lyrics, before sorting, are those of its tracks, each
      tagged with its own track index. */
  lemma CollectLyricsExactly(tracks: seq<seq<TrackEvent>>, tempo: int, timeDivision: nat, x: Lyric)
    requires timeDivision > 0
    ensures x in CollectLyrics(tracks, tempo, timeDivision)
        <==> exists t :: 0 <= t < |tracks| && x in TrackLyrics(tracks[t], t, tempo, timeDivision)
  {
    if x in CollectLyrics(tracks, tempo, timeDivision) {
      CollectLyricsSound(tracks, tempo, timeDivision, x);
    }
    if exists t :: 0 <= t < |tracks| && x in TrackLyrics(tracks[t], t, tempo, timeDivision) {
      var t :| 0 <= t < |tracks| && x in TrackLyrics(tracks[t], t, tempo, timeDivision);
      CollectLyricsComplete(tracks, tempo, timeDivision, t, x);
    }
  }

  /** Every stored lyric text is non-blank and already trimmed. */
  lemma LyricTextTrimmed(track: seq<TrackEvent>, i: nat, t: nat, tempo: int, timeDivision: nat)
    requires i < |track| && IsLyricEvent(track[i]) && timeDivision > 0
    ensures var text := LyricFor(track, i, t, tempo, timeDivision).text;
      text != [] && JsString.Trim(text) == text
      && !JsString.IsTrimmable(text[0]) && !JsString.IsTrimmable(text[|text| - 1])
  {
    JsString.TrimIdempotent(track[i].text);
    JsString.TrimSpec(track[i].text);
  }

  // ---------------------------------------------------------------------
  // Channel events

  /** The channel event `i` of a track, timed by the track's cumulative
      ticks up to and including it. */
  function EventFor(track: seq<TrackEvent>, i: nat, tempo: int, timeDivision: nat): TimedEvent
    requires i < |track| && timeDivision > 0
  {
    TimedEvent(TicksToSeconds(Ticks(track[..i + 1]), tempo, timeDivision), track[i])
  }

  /** The channel events one track contributes, with their times. */
  function ChannelEventsOf(track: seq<TrackEvent>, tempo: int, timeDivision: nat): seq<TimedEvent>
    requires timeDivision > 0
  {
    if track == [] then []
    else
      var n := |track| - 1;
      ChannelEventsOf(track[..n], tempo, timeDivision)
      + (if track[n].Channel? then [TimedEvent(TicksToSeconds(Ticks(track), tempo, timeDivision), track[n])] else [])
  }

  function CollectEvents(tracks: seq<seq<TrackEvent>>, tempo: int, timeDivision: nat): seq<TimedEvent>
    requires timeDivision > 0
  {
    if tracks == [] then []
    else
      var n := |tracks| - 1;
      CollectEvents(tracks[..n], tempo, timeDivision) + ChannelEventsOf(tracks[n], tempo, timeDivision)
  }

  /** Each channel event of a track is collected with its time. */
  lemma {:induction false} ChannelEventsComplete(track: seq<TrackEvent>, tempo: int, timeDivision: nat, i: nat)
    requires timeDivision > 0 && i < |track| && track[i].Channel?
    ensures EventFor(track, i, tempo, timeDivision) in ChannelEventsOf(track, tempo, timeDivision)
    decreases |track|
  {
    var n := |track| - 1;
    assert track[..n + 1] == track;
    if i < n {
      ChannelEventsComplete(track[..n], tempo, timeDivision, i);
      assert track[..n][..i + 1] == track[..i + 1];
    }
  }

  /** Everything collected from a track is one of its channel events. */
  lemma {:induction false} ChannelEventsSound(track: seq<TrackEvent>, tempo: int, timeDivision: nat, x: TimedEvent)
    requires timeDivision > 0 && x in ChannelEventsOf(track, tempo, timeDivision)
    ensures exists i :: 0 <= i < |track| && track[i].Channel? && x == EventFor(track, i, tempo, timeDivision)
    decreases |track|
  {
    var n := |track| - 1;
    assert track[..n + 1] == track;
    if x in ChannelEventsOf(track[..n], tempo, timeDivision) {
      ChannelEventsSound(track[..n], tempo, timeDivision, x);
      var i :| 0 <= i < n && track[..n][i].Channel? && x == EventFor(track[..n], i, tempo, timeDivision);
      assert track[..n][..i + 1] == track[..i + 1];
      assert x == EventFor(track, i, tempo, timeDivision);
    } else {
      assert x == EventFor(track, n, tempo, timeDivision);
    }
  }

  /** A track contributes exactly its channel events, each timed by its
      cumulative ticks. */
  lemma ChannelEventsExactly(track: seq<TrackEvent>, tempo: int, timeDivision: nat, x: TimedEvent)
    requires timeDivision > 0
    ensures x in ChannelEventsOf(track, tempo, timeDivision)
        <==> exists i :: 0 <= i < |track| && track[i].Channel? && x == EventFor(track, i, tempo, timeDivision)
  {
    if x in ChannelEventsOf(track, tempo, timeDivision) {
      ChannelEventsSound(track, tempo, timeDivision, x);
    }
    if exists i :: 0 <= i < |track| && track[i].Channel? && x == EventFor(track, i, tempo, timeDivision) {
      var i :| 0 <= i < |track| && track[i].Channel? && x == EventFor(track, i, tempo, timeDivision);
      ChannelEventsComplete(track, tempo, timeDivision, i);
    }
  }

  lemma {:induction false} CollectEventsComplete(tracks: seq<seq<TrackEvent>>, tempo: int, timeDivision: nat, t: nat, x: TimedEvent)
    requires timeDivision > 0 && t < |tracks| && x in ChannelEventsOf(tracks[t], tempo, timeDivision)
    ensures x in CollectEvents(tracks, tempo, timeDivision)
    decreases |tracks|
  {
    var n := |tracks| - 1;
    if t < n {
      assert tracks[..n][t] == tracks[t];
      CollectEventsComplete(tracks[..n], tempo, timeDivision, t, x);
    }
  }

  lemma {:induction false} CollectEventsSound(tracks: seq<seq<TrackEvent>>, tempo: int, timeDivision: nat, x: TimedEvent)
    requires timeDivision > 0 && x in CollectEvents(tracks, tempo, timeDivision)
    ensures exists t :: 0 <= t < |tracks| && x in ChannelEventsOf(tracks[t], tempo, timeDivision)
    decreases |tracks|
  {
    var n := |tracks| - 1;
    if x in CollectEvents(tracks[..n], tempo, timeDivision) {
      CollectEventsSound(tracks[..n], tempo, timeDivision, x);
      var t :| 0 <= t < n && x in ChannelEventsOf(tracks[..n][t], tempo, timeDivision);
      assert tracks[..n][t] == tracks[t];
      assert x in ChannelEventsOf(tracks[t], tempo, timeDivision);
    } else {
      assert x in ChannelEventsOf(tracks[n], tempo, timeDivision);
    }
  }

  /** The file's events, before sorting, are those of its tracks. */
  lemma CollectEventsExactly(tracks: seq<seq<TrackEvent>>, tempo: int, timeDivision: nat, x: TimedEvent)
    requires timeDivision > 0
    ensures x in CollectEvents(tracks, tempo, timeDivision)
        <==> exists t :: 0 <= t < |tracks| && x in ChannelEventsOf(tracks[t], tempo, timeDivision)
  {
    if x in CollectEvents(tracks, tempo, timeDivision) {
      CollectEventsSound(tracks, tempo, timeDivision, x);
    }
    if exists t :: 0 <= t < |tracks| && x in ChannelEventsOf(tracks[t], tempo, timeDivision) {
      var t :| 0 <= t < |tracks| && x in ChannelEventsOf(tracks[t], tempo, timeDivision);
      CollectEventsComplete(tracks, tempo, timeDivision, t, x);
    }
  }

  /** The parser records no set-tempo (0x51) meta event, so the tempo branch
      of prepareEvents never fires on a parsed file. */
  lemma NoSetTempoEvent(tracks: seq<seq<TrackEvent>>, t: nat, i: nat)
    requires TracksRecordable(tracks) && t < |tracks| && i < |tracks[t]|
    ensures !(tracks[t][i].Meta? && tracks[t][i].subtype == 0x51)
  {
    assert AllRecordable(tracks[t]);
    assert Recordable(tracks[t][i]);
  }

  // ---------------------------------------------------------------------
  // Cursor

  /** findIndex(event => event.time >= t), or the length when none is. */
  function FirstAtOrAfter(events: seq<TimedEvent>, t: real, i: nat): (k: nat)
    requires i <= |events|
    ensures i <= k <= |events|
    decreases |events| - i
  {
    if i == |events| || events[i].time >= t then i else FirstAtOrAfter(events, t, i + 1)
  }

  /** The seek index is the first event at or after `t`; on sorted events
      everything before it is earlier than `t` and everything from it on is
      not. */
  lemma {:induction false} SeekIndexSpec(events: seq<TimedEvent>, t: real, i: nat)
    requires i <= |events|
    ensures var k := FirstAtOrAfter(events, t, i);
      && (forall j :: i <= j < k ==> events[j].time < t)
      && (k < |events| ==> events[k].time >= t)
      && (TimeOrder.SortedBy(events, EventTime) ==> forall j :: k <= j < |events| ==> events[j].time >= t)
    decreases |events| - i
  {
    if i < |events| && events[i].time < t {
      SeekIndexSpec(events, t, i + 1);
    }
    var k := FirstAtOrAfter(events, t, i);
    if TimeOrder.SortedBy(events, EventTime) && k < |events| {
      forall j | k <= j < |events| ensures events[j].time >= t {
        assert EventTime(events[k]) <= EventTime(events[j]);
      }
    }
  }

  /** Where playLoop's while loop stops: the first index from `i` whose
      event is later than `elapsed`, or the length. */
  function DueEnd(events: seq<TimedEvent>, i: nat, elapsed: real): (k: nat)
    requires i <= |events|
    ensures i <= k <= |events|
    decreases |events| - i
  {
    if i < |events| && events[i].time <= elapsed then DueEnd(events, i + 1, elapsed) else i
  }

  /** One playLoop step passes over exactly the events from `i` on whose
      time has come, and stops at the first that has not. */
  lemma {:induction false} DueEndSpec(events: seq<TimedEvent>, i: nat, elapsed: real)
    requires i <= |events|
    ensures forall j :: i <= j < DueEnd(events, i, elapsed) ==> events[j].time <= elapsed
    ensures DueEnd(events, i, elapsed) < |events| ==> events[DueEnd(events, i, elapsed)].time > elapsed
    decreases |events| - i
  {
    if i < |events| && events[i].time <= elapsed {
      DueEndSpec(events, i + 1, elapsed);
    }
  }

  /** A note sounds for a channel event with command 0x90 and a non-zero
      velocity. */
  predicate IsNoteOn(e: TrackEvent)
  {
    e.Channel? && e.command == 0x90 && e.velocity > 0
  }

  /** The events of `s` that sound a note, in order. */
  function Sounded(s: seq<TimedEvent>): seq<TrackEvent>
  {
    if s == [] then [] else Sounded(s[..|s| - 1]) + (if IsNoteOn(s[|s| - 1].event) then [s[|s| - 1].event] else [])
  }

  /** Every sounded event is a note-on of the span, and every note-on of the
      span sounds. */
  lemma {:induction false} SoundedExactly(s: seq<TimedEvent>, x: TrackEvent)
    ensures x in Sounded(s) <==> exists i :: 0 <= i < |s| && IsNoteOn(s[i].event) && x == s[i].event
    decreases |s|
  {
    if s != [] {
      var n := |s| - 1;
      SoundedExactly(s[..n], x);
      if x in Sounded(s[..n]) {
        var i :| 0 <= i < n && IsNoteOn(s[..n][i].event) && x == s[..n][i].event;
        assert s[i] == s[..n][i];
      }
      if exists i :: 0 <= i < |s| && IsNoteOn(s[i].event) && x == s[i].event {
        var i :| 0 <= i < |s| && IsNoteOn(s[i].event) && x == s[i].event;
        if i < n {
          assert s[..n][i] == s[i];
        }
      }
    }
  }

  /** Extending a span by one event sounds that event when it is a
      note-on. */
  lemma SoundedStep(s: seq<TimedEvent>, i: nat, j: nat)
    requires i <= j < |s|
    ensures Sounded(s[i..j + 1]) == Sounded(s[i..j]) + (if IsNoteOn(s[j].event) then [s[j].event] else [])
  {
    assert s[i..j + 1][..j - i] == s[i..j];
  }

  /** In time order the last event is the latest one. */
  lemma LastIsLatest(s: seq<TimedEvent>)
    requires TimeOrder.SortedBy(s, EventTime)
    ensures forall j :: 0 <= j < |s| ==> s[j].time <= s[|s| - 1].time
  {
    forall j | 0 <= j < |s| ensures s[j].time <= s[|s| - 1].time {
      if j < |s| - 1 {
        assert EventTime(s[j]) <= EventTime(s[|s| - 1]);
      }
    }
  }

  // ---------------------------------------------------------------------
  // The player object

  /** parseLyrics: walk every track with its own tick counter, keep the
      lyric events, then sort by time. */
  method ParseLyrics(midiData: ParsedMidi, tempo: int) returns (lyrics: seq<Lyric>)
    requires midiData.timeDivision > 0
    ensures lyrics == TimeOrder.SortBy(CollectLyrics(midiData.tracks, tempo, midiData.timeDivision), LyricTime)
  {
    var tracks := midiData.tracks;
    var timeDivision := midiData.timeDivision;
    lyrics := [];
    var t := 0;
    while t < |tracks|
      invariant 0 <= t <= |tracks|
      invariant lyrics == CollectLyrics(tracks[..t], tempo, timeDivision)
    {
      var track := tracks[t];
      var currentTicks: nat := 0;
      ghost var before := lyrics;
      var i := 0;
      while i < |track|
        invariant 0 <= i <= |track|
        invariant currentTicks == Ticks(track[..i])
        invariant lyrics == before + TrackLyrics(track[..i], t, tempo, timeDivision)
      {
        var event := track[i];
        assert track[..i + 1][..i] == track[..i];
        currentTicks := currentTicks + event.deltaTime;
        if event.Meta? && (event.subtype == 0x01 || event.subtype == 0x05 || event.subtype == 0x06) {
          var text := event.text;
          if text != [] && JsString.Trim(text) != [] && !JsString.StartsWith(text, "@") && text != "\\" {
            lyrics := lyrics + [Lyric(TicksToSeconds(currentTicks, tempo, timeDivision), JsString.Trim(text), t)];
          }
        }
        i := i + 1;
      }
      assert track[..i] == track;
      assert tracks[..t + 1][..t] == tracks[..t];
      t := t + 1;
    }
    assert tracks[..t] == tracks;
    lyrics := TimeOrder.SortBy(lyrics, LyricTime);
  }

  /** prepareEvents: walk every track with its own tick counter, collect the
      channel events with their times, sort by time and take the last time
      as the duration. The set-tempo branch cannot fire on a parsed file. */
  method PrepareEvents(midiData: ParsedMidi, tempo: int) returns (events: seq<TimedEvent>, totalDuration: real)
    requires midiData.timeDivision > 0 && TracksRecordable(midiData.tracks)
    ensures events == TimeOrder.SortBy(CollectEvents(midiData.tracks, tempo, midiData.timeDivision), EventTime)
    ensures totalDuration == (if events == [] then 0.0 else events[|events| - 1].time)
    ensures forall j :: 0 <= j < |events| ==> events[j].time <= totalDuration
  {
    var tracks := midiData.tracks;
    var timeDivision := midiData.timeDivision;
    events := [];
    var t := 0;
    while t < |tracks|
      invariant 0 <= t <= |tracks|
      invariant events == CollectEvents(tracks[..t], tempo, timeDivision)
    {
      var track := tracks[t];
      var currentTicks: nat := 0;
      ghost var before := events;
      var i := 0;
      while i < |track|
        invariant 0 <= i <= |track|
        invariant currentTicks == Ticks(track[..i])
        invariant events == before + ChannelEventsOf(track[..i], tempo, timeDivision)
      {
        var event := track[i];
        assert track[..i + 1][..i] == track[..i];
        NoSetTempoEvent(tracks, t, i);
        currentTicks := currentTicks + event.deltaTime;
        if event.Channel? {
          events := events + [TimedEvent(TicksToSeconds(currentTicks, tempo, timeDivision), event)];
        } else if event.Meta? && event.subtype == 0x51 {
          assert false;
        }
        i := i + 1;
      }
      assert track[..i] == track;
      assert tracks[..t + 1][..t] == tracks[..t];
      t := t + 1;
    }
    assert tracks[..t] == tracks;
    ghost var unsorted := events;
    events := TimeOrder.SortBy(events, EventTime);
    totalDuration := if |events| > 0 then events[|events| - 1].time else 0.0;
    TimeOrder.SortBySpec(unsorted, EventTime);
    LastIsLatest(events);
  }

  class MidiPlayer {
    const midiData: ParsedMidi
    const tempo: int
    const lyrics: seq<Lyric>
    const events: seq<TimedEvent>
    const totalDuration: real
    var currentTime: real
    var playing: bool
    var currentEventIndex: nat
    var startTime: real

    /** The cursor stays within the events. */
    ghost predicate Valid()
      reads this
    {
      currentEventIndex <= |events|
    }

    /** The constructor after a successful parse (parseMidiFile): the lyrics
        and the time-sorted channel events of the file at the default
        tempo, stopped at time zero. */
    constructor(midiData: ParsedMidi)
      requires midiData.timeDivision > 0 && TracksRecordable(midiData.tracks)
      ensures Valid()
      ensures this.midiData == midiData && tempo == DefaultTempo
      ensures lyrics == TimeOrder.SortBy(CollectLyrics(midiData.tracks, DefaultTempo, midiData.timeDivision), LyricTime)
      ensures events == TimeOrder.SortBy(CollectEvents(midiData.tracks, DefaultTempo, midiData.timeDivision), EventTime)
      ensures totalDuration == (if events == [] then 0.0 else events[|events| - 1].time)
      ensures currentTime == 0.0 && !playing && currentEventIndex == 0
    {
      this.midiData := midiData;
      tempo := DefaultTempo;
      currentTime := 0.0;
      playing := false;
      currentEventIndex := 0;
      startTime := 0.0;
      var parsed := ParseLyrics(midiData, DefaultTempo);
      lyrics := parsed;
      var prepared, duration := PrepareEvents(midiData, DefaultTempo);
      events := prepared;
      totalDuration := duration;
    }

    /** seekToPosition: move the clock and the cursor to `t` seconds, and
        re-base the start time when playing. */
    method SeekToPosition(t: real, now: real)
      requires Valid()
      modifies this`currentTime, this`currentEventIndex, this`startTime
      ensures Valid()
      ensures currentTime == t
      ensures currentEventIndex == FirstAtOrAfter(events, t, 0)
      ensures startTime == if playing then now - t * 1000.0 else old(startTime)
    {
      currentTime := t;
      currentEventIndex := FirstAtOrAfter(events, t, 0);
      if playing {
        startTime := now - currentTime * 1000.0;
      }
    }

    /** play: start only when not already playing, re-base the start time on
        the current time, and run one loop step. */
    method Play(now: real) returns (notes: seq<TrackEvent>)
      requires Valid()
      modifies this`playing, this`startTime, this`currentTime, this`currentEventIndex
      ensures Valid()
      ensures old(playing) ==> notes == [] && playing && unchanged(this)
      ensures !old(playing) ==>
        var end := DueEnd(events, old(currentEventIndex), old(currentTime));
        && startTime == now - old(currentTime) * 1000.0
        && notes == Sounded(events[old(currentEventIndex)..end])
        && (end < |events| ==> playing && currentEventIndex == end && currentTime == old(currentTime))
        && (end == |events| ==> !playing && currentEventIndex == 0 && currentTime == 0.0)
    {
      notes := [];
      if !playing {
        playing := true;
        startTime := now - currentTime * 1000.0;
        assert (now - startTime) / 1000.0 == old(currentTime);
        notes := PlayLoop(now);
      }
    }

    /** One playLoop step: sound the note-on events whose time has come,
        advance the cursor past every due event, set the clock, and stop at
        the end of the events. */
    method PlayLoop(now: real) returns (notes: seq<TrackEvent>)
      requires Valid()
      modifies this`playing, this`currentTime, this`currentEventIndex
      ensures Valid()
      ensures !old(playing) ==> notes == [] && unchanged(this)
      ensures old(playing) ==>
        var elapsed := (now - startTime) / 1000.0;
        var end := DueEnd(events, old(currentEventIndex), elapsed);
        && notes == Sounded(events[old(currentEventIndex)..end])
        && (end < |events| ==> playing && currentEventIndex == end && currentTime == elapsed)
        && (end == |events| ==> !playing && currentEventIndex == 0 && currentTime == 0.0)
    {
      notes := [];
      if !playing {
        return;
      }
      var elapsed := (now - startTime) / 1000.0;
      ghost var first := currentEventIndex;
      while currentEventIndex < |events| && events[currentEventIndex].time <= elapsed
        invariant first <= currentEventIndex <= |events|
        invariant playing && startTime == old(startTime)
        invariant DueEnd(events, currentEventIndex, elapsed) == DueEnd(events, first, elapsed)
        invariant notes == Sounded(events[first..currentEventIndex])
        decreases |events| - currentEventIndex
      {
        var event := events[currentEventIndex];
        if event.event.Channel? {
          if event.event.command == 0x90 && event.event.velocity > 0 {
            notes := notes + [event.event];
          }
        }
        SoundedStep(events, first, currentEventIndex);
        currentEventIndex := currentEventIndex + 1;
      }
      currentTime := elapsed;
      if currentEventIndex >= |events| {
        Stop();
      }
    }

    /** pause: stop the cursor where it is. */
    method Pause()
      requires Valid()
      modifies this`playing
      ensures Valid()
      ensures !playing
    {
      playing := false;
    }

    /** stop: stop and rewind the clock and the cursor to the start. */
    method Stop()
      requires Valid()
      modifies this`playing, this`currentTime, this`currentEventIndex
      ensures Valid()
      ensures !playing && currentTime == 0.0 && currentEventIndex == 0
    {
      playing := false;
      currentTime := 0.0;
      currentEventIndex := 0;
    }
  }

  /** new MidiPlayer(arrayBuffer): parse the buffer, then build the player;
      a parse error is thrown to the caller. */
  method Open(buf: seq<byte>) returns (r: Result<MidiPlayer, LoadError>)
    ensures ParseFile(buf).Failure? ==> r == Failure(ParseError(ParseFile(buf).error))
    ensures ParseFile(buf).Success? && ParseFile(buf).value.timeDivision == 0 ==> r == Failure(ZeroTimeDivision)
    ensures ParseFile(buf).Success? && ParseFile(buf).value.timeDivision > 0 ==> r.Success?
    ensures r.Success? ==>
      && ParseFile(buf).Success? && ParseFile(buf).value.timeDivision > 0
      && fresh(r.value) && r.value.Valid()
      && r.value.midiData == ParseFile(buf).value && r.value.tempo == DefaultTempo
      && r.value.lyrics == TimeOrder.SortBy(CollectLyrics(r.value.midiData.tracks, DefaultTempo, r.value.midiData.timeDivision), LyricTime)
      && r.value.events == TimeOrder.SortBy(CollectEvents(r.value.midiData.tracks, DefaultTempo, r.value.midiData.timeDivision), EventTime)
      && r.value.currentTime == 0.0 && !r.value.playing && r.value.currentEventIndex == 0
  {
    var parsed := Parse(buf);
    if parsed.Failure? {
      return Failure(ParseError(parsed.error));
    }
    if parsed.value.timeDivision == 0 {
      return Failure(ZeroTimeDivision);
    }
    ParseFileShape(buf);
    var player := new MidiPlayer(parsed.value);
    return Success(player);
  }
}
