/** The jasmid replayer: a k-way merge of a file's tracks by per-track tick
    counters, and the conversion of every gap into milliseconds under the
    tempo in force. */
module Jasmid {
  import opened Wrappers

  /** The microsecondsPerBeat of a set-tempo event. */
  type Micros = x: int | 0 < x witness 500000

  /** A tempo in beats per minute; the divisions by it need it non-zero. */
  type Bpm = r: real | r != 0.0 witness 120.0

  datatype Kind = SetTempo(microsecondsPerBeat: Micros) | OtherKind

  datatype Event = Event(deltaTime: int, kind: Kind)

  /** One entry of `trackStates`; `ticksToNextEvent` is None where the
      source holds null. */
  datatype TrackState = TrackState(nextEventIndex: nat, ticksToNextEvent: Option<int>)

  /** What getNextEvent returns. */
  datatype Emission = Emission(ticksToEvent: int, event: Event, track: nat)

  /** One `temporal` entry: the emission and its gap in milliseconds. */
  datatype Entry = Entry(emission: Emission, time: real)

  // ---------------------------------------------------------------------
  // Track states

  /** A track's counter is live exactly while events remain on it. */
  predicate ValidState(track: seq<Event>, s: TrackState)
  {
    s.nextEventIndex <= |track| && (s.ticksToNextEvent.None? <==> s.nextEventIndex == |track|)
  }

  predicate ValidStates(tracks: seq<seq<Event>>, states: seq<TrackState>)
  {
    |states| == |tracks| && forall i :: 0 <= i < |tracks| ==> ValidState(tracks[i], states[i])
  }

  /** The state a track starts in: its first event's delta time, or null
      for an empty track. */
  function InitialState(track: seq<Event>): TrackState
  {
    TrackState(0, if |track| > 0 then Some(track[0].deltaTime) else None)
  }

  function InitialStates(tracks: seq<seq<Event>>): (states: seq<TrackState>)
    ensures |states| == |tracks|
  {
    seq(|tracks|, i requires 0 <= i < |tracks| => InitialState(tracks[i]))
  }

  /** Every track starts at index 0 with its first delta time, or with no
      counter when it is empty. */
  lemma InitialStatesValid(tracks: seq<seq<Event>>)
    ensures ValidStates(tracks, InitialStates(tracks))
    ensures forall i :: 0 <= i < |tracks| ==>
      && InitialStates(tracks)[i].nextEventIndex == 0
      && (InitialStates(tracks)[i].ticksToNextEvent.None? <==> tracks[i] == [])
      && (tracks[i] != [] ==> InitialStates(tracks)[i].ticksToNextEvent == Some(tracks[i][0].deltaTime))
  {
  }

  // ---------------------------------------------------------------------
  // Selection

  /** The track chosen by the selection scan after looking at the first
      `n` states: a live counter replaces the choice only when strictly
      smaller. */
  function SelectUpTo(states: seq<TrackState>, n: nat): (r: Option<nat>)
    requires n <= |states|
    ensures r.Some? ==> r.value < n && states[r.value].ticksToNextEvent.Some?
    decreases n
  {
    if n == 0 then None
    else
      var best := SelectUpTo(states, n - 1);
      if states[n - 1].ticksToNextEvent.Some?
         && (best.None? || states[n - 1].ticksToNextEvent.value < states[best.value].ticksToNextEvent.value)
      then Some(n - 1)
      else best
  }

  function Select(states: seq<TrackState>): (r: Option<nat>)
    ensures r.Some? ==> r.value < |states| && states[r.value].ticksToNextEvent.Some?
  {
    SelectUpTo(states, |states|)
  }

  lemma {:induction false} SelectUpToSpec(states: seq<TrackState>, n: nat)
    requires n <= |states|
    ensures var r := SelectUpTo(states, n);
      && (r.None? <==> forall i :: 0 <= i < n ==> states[i].ticksToNextEvent.None?)
      && (r.Some? ==> forall i :: 0 <= i < n && states[i].ticksToNextEvent.Some? ==>
            states[r.value].ticksToNextEvent.value <= states[i].ticksToNextEvent.value)
      && (r.Some? ==> forall i :: 0 <= i < r.value && states[i].ticksToNextEvent.Some? ==>
            states[r.value].ticksToNextEvent.value < states[i].ticksToNextEvent.value)
    decreases n
  {
    if n > 0 {
      SelectUpToSpec(states, n - 1);
    }
  }

  /** getNextEvent's scan: it finds no track iff every counter is null;
      otherwise it picks a live track with the smallest counter, and the
      lowest such index on ties. */
  lemma SelectSpec(states: seq<TrackState>)
    ensures var r := Select(states);
      && (r.None? <==> forall i :: 0 <= i < |states| ==> states[i].ticksToNextEvent.None?)
      && (r.Some? ==> forall i :: 0 <= i < |states| && states[i].ticksToNextEvent.Some? ==>
            states[r.value].ticksToNextEvent.value <= states[i].ticksToNextEvent.value)
      && (r.Some? ==> forall i :: 0 <= i < r.value && states[i].ticksToNextEvent.Some? ==>
            states[r.value].ticksToNextEvent.value < states[i].ticksToNextEvent.value)
  {
    SelectUpToSpec(states, |states|);
  }

  // ---------------------------------------------------------------------
  // One step of the merge

  /** The chosen track after its event is consumed: the counter grows by the
      following event's delta time, or becomes null at the end. */
  function Consume(track: seq<Event>, s: TrackState): TrackState
    requires s.nextEventIndex < |track| && s.ticksToNextEvent.Some?
  {
    var i := s.nextEventIndex;
    TrackState(i + 1, if i + 1 < |track| then Some(s.ticksToNextEvent.value + track[i + 1].deltaTime) else None)
  }

  /** A live counter drops by `d`; a null one stays null. */
  function Lower(s: TrackState, d: int): TrackState
  {
    if s.ticksToNextEvent.Some? then s.(ticksToNextEvent := Some(s.ticksToNextEvent.value - d)) else s
  }

  /** The states after consuming from track `k`. */
  function Advance(tracks: seq<seq<Event>>, states: seq<TrackState>, k: nat): (r: seq<TrackState>)
    requires ValidStates(tracks, states) && k < |states| && states[k].ticksToNextEvent.Some?
    ensures |r| == |states|
  {
    var d := states[k].ticksToNextEvent.value;
    var consumed := states[k := Consume(tracks[k], states[k])];
    seq(|states|, i requires 0 <= i < |states| => Lower(consumed[i], d))
  }

  /** What getNextEvent returns from the given states. */
  function NextEmission(tracks: seq<seq<Event>>, states: seq<TrackState>): Option<Emission>
    requires ValidStates(tracks, states)
  {
    match Select(states)
    case None => None
    case Some(k) => Some(Emission(states[k].ticksToNextEvent.value, tracks[k][states[k].nextEventIndex], k))
  }

  /** The states getNextEvent leaves behind. */
  function NextStates(tracks: seq<seq<Event>>, states: seq<TrackState>): seq<TrackState>
    requires ValidStates(tracks, states)
  {
    match Select(states)
    case None => states
    case Some(k) => Advance(tracks, states, k)
  }

  /** After a step from track `k` with distance `d`: track k's index grows
      by one and its counter is its next event's delta time (null when it
      is exhausted); every other track keeps its index, and every other live
      counter drops by `d`. The states stay valid. */
  lemma StepFacts(tracks: seq<seq<Event>>, states: seq<TrackState>)
    requires ValidStates(tracks, states)
    ensures var r := NextStates(tracks, states);
      && ValidStates(tracks, r)
      && (Select(states).None? ==> r == states)
      && (Select(states).Some? ==>
            var k := Select(states).value;
            var d := states[k].ticksToNextEvent.value;
            var i := states[k].nextEventIndex;
            && NextEmission(tracks, states) == Some(Emission(d, tracks[k][i], k))
            && r[k].nextEventIndex == i + 1
            && r[k].ticksToNextEvent == (if i + 1 < |tracks[k]| then Some(tracks[k][i + 1].deltaTime) else None)
            && (forall j :: 0 <= j < |states| && j != k ==> r[j].nextEventIndex == states[j].nextEventIndex)
            && (forall j :: 0 <= j < |states| && j != k ==>
                  r[j].ticksToNextEvent == if states[j].ticksToNextEvent.Some?
                                          then Some(states[j].ticksToNextEvent.value - d) else None))
  {
  }

  /** The number of events still to be emitted. */
  function RemainingFrom(tracks: seq<seq<Event>>, states: seq<TrackState>, i: nat): nat
    requires ValidStates(tracks, states) && i <= |states|
    decreases |states| - i
  {
    if i == |states| then 0 else (|tracks[i]| - states[i].nextEventIndex) + RemainingFrom(tracks, states, i + 1)
  }

  function Remaining(tracks: seq<seq<Event>>, states: seq<TrackState>): nat
    requires ValidStates(tracks, states)
  {
    RemainingFrom(tracks, states, 0)
  }

  lemma {:induction false} RemainingFromAdvance(tracks: seq<seq<Event>>, states: seq<TrackState>, next: seq<TrackState>,
                                                k: nat, i: nat)
    requires ValidStates(tracks, states) && ValidStates(tracks, next)
    requires k < |states| && i <= |states|
    requires next[k].nextEventIndex == states[k].nextEventIndex + 1
    requires forall j :: 0 <= j < |states| && j != k ==> next[j].nextEventIndex == states[j].nextEventIndex
    ensures RemainingFrom(tracks, next, i) + (if i <= k then 1 else 0) == RemainingFrom(tracks, states, i)
    decreases |states| - i
  {
    if i < |states| {
      RemainingFromAdvance(tracks, states, next, k, i + 1);
    }
  }

  /** Every step emits one event: the count of remaining events drops by one. */
  lemma StepRemaining(tracks: seq<seq<Event>>, states: seq<TrackState>)
    requires ValidStates(tracks, states)
    ensures ValidStates(tracks, NextStates(tracks, states))
    ensures NextEmission(tracks, states).Some? <==> Remaining(tracks, states) > 0
    ensures NextEmission(tracks, states).Some? ==>
      Remaining(tracks, NextStates(tracks, states)) == Remaining(tracks, states) - 1
  {
    StepFacts(tracks, states);
    SelectSpec(states);
    match Select(states)
    case None =>
      NothingRemains(tracks, states, 0);
    case Some(k) =>
      RemainingFromAdvance(tracks, states, NextStates(tracks, states), k, 0);
  }

  lemma {:induction false} NothingRemains(tracks: seq<seq<Event>>, states: seq<TrackState>, i: nat)
    requires ValidStates(tracks, states) && i <= |states|
    requires forall j :: 0 <= j < |states| ==> states[j].ticksToNextEvent.None?
    ensures RemainingFrom(tracks, states, i) == 0
    decreases |states| - i
  {
    if i < |states| {
      NothingRemains(tracks, states, i + 1);
    }
  }

  // ---------------------------------------------------------------------
  // The whole merge

  /** The emissions of repeated getNextEvent calls until it returns null. */
  function Merge(tracks: seq<seq<Event>>, states: seq<TrackState>): (r: seq<Emission>)
    requires ValidStates(tracks, states)
    decreases Remaining(tracks, states)
  {
    StepRemaining(tracks, states);
    match NextEmission(tracks, states)
    case None => []
    case Some(e) => [e] + Merge(tracks, NextStates(tracks, states))
  }

  /** The emission of one step, if any, as a sequence. */
  function Emitted(e: Option<Emission>): seq<Emission>
  {
    if e.Some? then [e.value] else []
  }

  /** The merge is the step's emission followed by the merge of the states
      the step leaves; once nothing is emitted the states stay put. */
  lemma MergeUnfold(tracks: seq<seq<Event>>, states: seq<TrackState>)
    requires ValidStates(tracks, states)
    ensures ValidStates(tracks, NextStates(tracks, states))
    ensures Merge(tracks, states) == Emitted(NextEmission(tracks, states)) + Merge(tracks, NextStates(tracks, states))
    ensures NextEmission(tracks, states).None? ==> Merge(tracks, states) == [] && NextStates(tracks, states) == states
  {
    StepRemaining(tracks, states);
    if NextEmission(tracks, states).None? {
      assert NextStates(tracks, states) == states;
    }
  }

  /** The events of track `t`, in the order they were emitted. */
  function OfTrack(emissions: seq<Emission>, t: nat): seq<Event>
  {
    if emissions == [] then []
    else (if emissions[0].track == t then [emissions[0].event] else []) + OfTrack(emissions[1..], t)
  }

  /** The merge emits exactly the remaining events: as many as remain, and
      for every track its remaining events, each once, in track order. */
  lemma {:induction false} MergeEmitsRemaining(tracks: seq<seq<Event>>, states: seq<TrackState>, t: nat)
    requires ValidStates(tracks, states) && t < |tracks|
    ensures |Merge(tracks, states)| == Remaining(tracks, states)
    ensures OfTrack(Merge(tracks, states), t) == tracks[t][states[t].nextEventIndex..]
    decreases Remaining(tracks, states)
  {
    StepRemaining(tracks, states);
    StepFacts(tracks, states);
    SelectSpec(states);
    var m := Merge(tracks, states);
    match NextEmission(tracks, states)
    case None =>
      assert states[t].ticksToNextEvent.None?;
    case Some(e) =>
      var next := NextStates(tracks, states);
      MergeEmitsRemaining(tracks, next, t);
      assert m[1..] == Merge(tracks, next);
      if e.track == t {
        var i := states[t].nextEventIndex;
        assert tracks[t][i..] == [tracks[t][i]] + tracks[t][i + 1..];
      }
  }

  /** From the initial states the merge emits every event of every track
      exactly once, in each track's own order. */
  lemma MergeEmitsAll(tracks: seq<seq<Event>>, t: nat)
    requires t < |tracks|
    ensures ValidStates(tracks, InitialStates(tracks))
    ensures OfTrack(Merge(tracks, InitialStates(tracks)), t) == tracks[t]
  {
    InitialStatesValid(tracks);
    MergeEmitsRemaining(tracks, InitialStates(tracks), t);
    assert tracks[t][0..] == tracks[t];
  }

  // ---------------------------------------------------------------------
  // Absolute ticks

  /** The sum of the delta times of `events`. */
  function TickSum(events: seq<Event>): int
  {
    if events == [] then 0 else TickSum(events[..|events| - 1]) + events[|events| - 1].deltaTime
  }

  /** The sum of the emitted gaps. */
  function Elapsed(emissions: seq<Emission>): int
  {
    if emissions == [] then 0 else emissions[0].ticksToEvent + Elapsed(emissions[1..])
  }

  /** Every live counter, added to the ticks already elapsed, is the
      absolute tick of that track's next event. */
  predicate Synced(tracks: seq<seq<Event>>, states: seq<TrackState>, elapsed: int)
    requires ValidStates(tracks, states)
  {
    forall i :: 0 <= i < |states| && states[i].ticksToNextEvent.Some? ==>
      elapsed + states[i].ticksToNextEvent.value == TickSum(tracks[i][..states[i].nextEventIndex + 1])
  }

  lemma InitialSynced(tracks: seq<seq<Event>>)
    ensures ValidStates(tracks, InitialStates(tracks))
    ensures Synced(tracks, InitialStates(tracks), 0)
  {
    InitialStatesValid(tracks);
    forall i | 0 <= i < |tracks| && tracks[i] != []
      ensures TickSum(tracks[i][..1]) == tracks[i][0].deltaTime
    {
      assert tracks[i][..1][..0] == [];
    }
  }

  /** A step keeps the counters in sync, and the emitted event sits at
      exactly the absolute tick the elapsed time reaches. */
  lemma StepSynced(tracks: seq<seq<Event>>, states: seq<TrackState>, elapsed: int)
    requires ValidStates(tracks, states) && Synced(tracks, states, elapsed)
    requires NextEmission(tracks, states).Some?
    ensures var e := NextEmission(tracks, states).value;
      && ValidStates(tracks, NextStates(tracks, states))
      && Synced(tracks, NextStates(tracks, states), elapsed + e.ticksToEvent)
      && elapsed + e.ticksToEvent == TickSum(tracks[e.track][..states[e.track].nextEventIndex + 1])
  {
    StepFacts(tracks, states);
    var k := Select(states).value;
    var i := states[k].nextEventIndex;
    var next := NextStates(tracks, states);
    if i + 1 < |tracks[k]| {
      assert tracks[k][..i + 2][..i + 1] == tracks[k][..i + 1];
    }
  }

  /** The step's emission is the next event of its track, and only that
      track's index moves, by one. */
  lemma StepIndex(tracks: seq<seq<Event>>, states: seq<TrackState>, t: nat)
    requires ValidStates(tracks, states) && t < |states|
    requires NextEmission(tracks, states).Some?
    ensures var e := NextEmission(tracks, states).value;
      && e.track < |tracks|
      && states[e.track].nextEventIndex < |tracks[e.track]|
      && e.event == tracks[e.track][states[e.track].nextEventIndex]
      && NextStates(tracks, states)[t].nextEventIndex == states[t].nextEventIndex + (if e.track == t then 1 else 0)
  {
    StepFacts(tracks, states);
  }

  lemma ElapsedCons(e: Emission, rest: seq<Emission>)
    ensures Elapsed([e] + rest) == e.ticksToEvent + Elapsed(rest)
  {
    assert ([e] + rest)[1..] == rest;
  }

  lemma OfTrackCons(e: Emission, rest: seq<Emission>, t: nat)
    ensures OfTrack([e] + rest, t) == (if e.track == t then [e.event] else []) + OfTrack(rest, t)
  {
    assert ([e] + rest)[1..] == rest;
  }

  /** The emission at position `j` of `m`, started from `states` with
      `elapsed` ticks gone, is the event at position `p` of its own track,
      where `p` is the track's index plus its earlier emissions in `m`, and
      the ticks elapsed up to and including it are that event's absolute
      tick. */
  predicate TickAt(tracks: seq<seq<Event>>, states: seq<TrackState>, m: seq<Emission>, j: nat, elapsed: int)
    requires j < |m|
  {
    var t := m[j].track;
    && t < |tracks| && t < |states|
    && var p := states[t].nextEventIndex + |OfTrack(m[..j], t)|;
       && p < |tracks[t]|
       && m[j].event == tracks[t][p]
       && elapsed + Elapsed(m[..j + 1]) == TickSum(tracks[t][..p + 1])
  }

  /** Every emission of the merge sits at the absolute tick of its event:
      the running sum of gaps is each event's tick in its own track. */
  lemma {:induction false} MergeTicks(tracks: seq<seq<Event>>, states: seq<TrackState>, elapsed: int, j: nat)
    requires ValidStates(tracks, states) && Synced(tracks, states, elapsed)
    requires j < |Merge(tracks, states)|
    ensures TickAt(tracks, states, Merge(tracks, states), j, elapsed)
    decreases Remaining(tracks, states)
  {
    assert NextEmission(tracks, states).Some?
        && Merge(tracks, states) == [NextEmission(tracks, states).value] + Merge(tracks, NextStates(tracks, states))
    by {
      MergeUnfold(tracks, states);
    }
    var e := NextEmission(tracks, states).value;
    var next := NextStates(tracks, states);
    if j == 0 {
      assert elapsed + e.ticksToEvent == TickSum(tracks[e.track][..states[e.track].nextEventIndex + 1]) by {
        StepSynced(tracks, states, elapsed);
      }
      StepIndex(tracks, states, 0);
      FirstTicks(tracks, states, Merge(tracks, states), e, Merge(tracks, next), elapsed);
    } else {
      assert ValidStates(tracks, next) && Synced(tracks, next, elapsed + e.ticksToEvent) by {
        StepSynced(tracks, states, elapsed);
      }
      assert Remaining(tracks, next) < Remaining(tracks, states) by {
        StepRemaining(tracks, states);
      }
      MergeTicks(tracks, next, elapsed + e.ticksToEvent, j - 1);
      StepIndex(tracks, states, Merge(tracks, next)[j - 1].track);
      ShiftTicks(tracks, states, next, Merge(tracks, states), e, Merge(tracks, next), j, elapsed);
    }
  }

  /** The first emission of `m == [e] + rest` is `e`, at its track's index,
      and only its gap has elapsed. */
  lemma FirstTicks(tracks: seq<seq<Event>>, states: seq<TrackState>, m: seq<Emission>, e: Emission,
                   rest: seq<Emission>, elapsed: int)
    requires m == [e] + rest && e.track < |tracks| && e.track < |states|
    requires states[e.track].nextEventIndex < |tracks[e.track]|
    requires e.event == tracks[e.track][states[e.track].nextEventIndex]
    requires elapsed + e.ticksToEvent == TickSum(tracks[e.track][..states[e.track].nextEventIndex + 1])
    ensures TickAt(tracks, states, m, 0, elapsed)
  {
    assert m[..1] == [e] + [];
    ElapsedCons(e, []);
    assert m[..0] == [];
  }

  /** Position `j` of `m == [e] + rest` is position `j - 1` of `rest`, seen
      from a track whose index moves by one exactly when `e` is its event,
      once `e`'s gap has elapsed. */
  lemma ShiftTicks(tracks: seq<seq<Event>>, states: seq<TrackState>, next: seq<TrackState>, m: seq<Emission>,
                   e: Emission, rest: seq<Emission>, j: nat, elapsed: int)
    requires m == [e] + rest && 0 < j <= |rest| && |next| == |states|
    requires TickAt(tracks, next, rest, j - 1, elapsed + e.ticksToEvent)
    requires rest[j - 1].track < |states|
    requires next[rest[j - 1].track].nextEventIndex
             == states[rest[j - 1].track].nextEventIndex + (if e.track == rest[j - 1].track then 1 else 0)
    ensures TickAt(tracks, states, m, j, elapsed)
  {
    var t := rest[j - 1].track;
    assert m[j] == rest[j - 1];
    assert m[..j + 1] == [e] + rest[..j];
    assert m[..j] == [e] + rest[..j - 1];
    ElapsedCons(e, rest[..j]);
    OfTrackCons(e, rest[..j - 1], t);
  }

  /** With non-negative delta times every counter stays non-negative, so
      every gap is non-negative and absolute ticks never go backwards. */
  predicate NonNegativeDeltas(tracks: seq<seq<Event>>)
  {
    forall t, i :: 0 <= t < |tracks| && 0 <= i < |tracks[t]| ==> tracks[t][i].deltaTime >= 0
  }

  predicate NonNegativeCounters(states: seq<TrackState>)
  {
    forall i :: 0 <= i < |states| && states[i].ticksToNextEvent.Some? ==> states[i].ticksToNextEvent.value >= 0
  }

  lemma StepNonNegative(tracks: seq<seq<Event>>, states: seq<TrackState>)
    requires ValidStates(tracks, states) && NonNegativeDeltas(tracks) && NonNegativeCounters(states)
    ensures NonNegativeCounters(NextStates(tracks, states))
    ensures NextEmission(tracks, states).Some? ==> NextEmission(tracks, states).value.ticksToEvent >= 0
  {
    StepFacts(tracks, states);
    SelectSpec(states);
  }

  lemma {:induction false} MergeNonNegative(tracks: seq<seq<Event>>, states: seq<TrackState>)
    requires ValidStates(tracks, states) && NonNegativeDeltas(tracks) && NonNegativeCounters(states)
    ensures forall j :: 0 <= j < |Merge(tracks, states)| ==> Merge(tracks, states)[j].ticksToEvent >= 0
    decreases Remaining(tracks, states)
  {
    StepRemaining(tracks, states);
    StepNonNegative(tracks, states);
    if NextEmission(tracks, states).Some? {
      MergeNonNegative(tracks, NextStates(tracks, states));
    }
  }

  // ---------------------------------------------------------------------
  // Tempo and time

  /** `bpm || 120`: a missing or zero argument means 120 beats per minute. */
  function InitialBpm(bpm: Option<real>): Bpm
  {
    if bpm.Some? && bpm.value != 0.0 then bpm.value else 120.0
  }

  /** `bpm ? true : false`. */
  predicate Overrides(bpm: Option<real>)
  {
    bpm.Some? && bpm.value != 0.0
  }

  /** The tempo after an event: a set-tempo event sets 60000000 /
      microsecondsPerBeat unless the tempo was overridden. */
  function TempoAfter(bpm: Bpm, overridden: bool, e: Event): Bpm
  {
    if !overridden && e.kind.SetTempo? then 60000000.0 / e.kind.microsecondsPerBeat as real else bpm
  }

  /** The milliseconds a gap of `ticks` takes at `bpm`; zero for a gap that
      is not positive. */
  function GapMillis(ticks: int, bpm: Bpm, ticksPerBeat: int, timeWarp: real): real
    requires ticksPerBeat > 0
  {
    if ticks > 0 then (ticks as real / ticksPerBeat as real) / (bpm / 60.0) * 1000.0 * timeWarp else 0.0
  }

  /** The `temporal` entries processNext pushes for `emissions`, starting
      at tempo `bpm`. */
  function Timeline(emissions: seq<Emission>, bpm: Bpm, overridden: bool, ticksPerBeat: int, timeWarp: real)
    : (r: seq<Entry>)
    requires ticksPerBeat > 0
    ensures |r| == |emissions|
  {
    if emissions == [] then []
    else
      var tempo := TempoAfter(bpm, overridden, emissions[0].event);
      [Entry(emissions[0], GapMillis(emissions[0].ticksToEvent, tempo, ticksPerBeat, timeWarp))]
      + Timeline(emissions[1..], tempo, overridden, ticksPerBeat, timeWarp)
  }

  lemma TimelineCons(e: Emission, rest: seq<Emission>, bpm: Bpm, overridden: bool, ticksPerBeat: int, timeWarp: real)
    requires ticksPerBeat > 0
    ensures var tempo := TempoAfter(bpm, overridden, e.event);
      Timeline([e] + rest, bpm, overridden, ticksPerBeat, timeWarp)
      == [Entry(e, GapMillis(e.ticksToEvent, tempo, ticksPerBeat, timeWarp))]
         + Timeline(rest, tempo, overridden, ticksPerBeat, timeWarp)
  {
    assert ([e] + rest)[1..] == rest;
  }

  /** The tempo after the events of `emissions`. */
  function TempoAfterAll(emissions: seq<Emission>, bpm: Bpm, overridden: bool): Bpm
  {
    if emissions == [] then bpm
    else TempoAfter(TempoAfterAll(emissions[..|emissions| - 1], bpm, overridden), overridden, emissions[|emissions| - 1].event)
  }

  lemma {:induction false} TempoAfterAllCons(e: Emission, rest: seq<Emission>, bpm: Bpm, overridden: bool)
    ensures TempoAfterAll([e] + rest, bpm, overridden) == TempoAfterAll(rest, TempoAfter(bpm, overridden, e.event), overridden)
    decreases |rest|
  {
    if rest == [] {
      assert ([e] + rest)[..0] == [];
    } else {
      var s := [e] + rest;
      assert s[..|s| - 1] == [e] + rest[..|rest| - 1];
      TempoAfterAllCons(e, rest[..|rest| - 1], bpm, overridden);
    }
  }

  /** Entry `j` carries emission `j`, and its gap is converted at the tempo
      in force after emission `j`'s own event: a set-tempo event already
      governs the gap before it. */
  lemma {:induction false} TimelineEntry(emissions: seq<Emission>, bpm: Bpm, overridden: bool, ticksPerBeat: int,
                                         timeWarp: real, j: nat)
    requires ticksPerBeat > 0 && j < |emissions|
    ensures var r := Timeline(emissions, bpm, overridden, ticksPerBeat, timeWarp);
      && r[j].emission == emissions[j]
      && r[j].time == GapMillis(emissions[j].ticksToEvent, TempoAfterAll(emissions[..j + 1], bpm, overridden),
                                ticksPerBeat, timeWarp)
    decreases j
  {
    var e := emissions[0];
    var tempo := TempoAfter(bpm, overridden, e.event);
    if j == 0 {
      assert emissions[..1] == [e] + [];
      TempoAfterAllCons(e, [], bpm, overridden);
    } else {
      TimelineEntry(emissions[1..], tempo, overridden, ticksPerBeat, timeWarp, j - 1);
      assert emissions[..j + 1] == [e] + emissions[1..][..j];
      TempoAfterAllCons(e, emissions[1..][..j], bpm, overridden);
    }
  }

  /** With a bpm argument the tempo never changes. */
  lemma {:induction false} OverrideKeepsTempo(emissions: seq<Emission>, bpm: Bpm)
    ensures TempoAfterAll(emissions, bpm, true) == bpm
    decreases |emissions|
  {
    if emissions != [] {
      OverrideKeepsTempo(emissions[..|emissions| - 1], bpm);
    }
  }

  /** A single track holding one set-tempo event (250000 microseconds per
      beat) 480 ticks in, at 480 ticks per beat: the gap is converted at the
      new 240 beats per minute, giving 250 ms, not the 500 ms of the
      initial 120. With a bpm argument of 120 it stays 500 ms. */
  lemma TempoGovernsItsOwnGap()
    ensures var m := [Emission(480, Event(480, SetTempo(250000)), 0)];
      && Timeline(m, 120.0, false, 480, 1.0) == [Entry(m[0], 250.0)]
      && Timeline(m, 120.0, true, 480, 1.0) == [Entry(m[0], 500.0)]
  {
    var m := [Emission(480, Event(480, SetTempo(250000)), 0)];
    assert TempoAfter(120.0, false, m[0].event) == 240.0;
    assert m[1..] == [];
  }

  // ---------------------------------------------------------------------
  // The replayer object

  class Replayer {
    const tracks: seq<seq<Event>>
    const ticksPerBeat: int
    const timeWarp: real
    const bpmOverride: bool
    var beatsPerMinute: Bpm
    const trackStates: array<TrackState>
    var midiEvent: Option<Emission>
    var temporal: seq<Entry>

    ghost predicate Valid()
      reads this, trackStates
    {
      ticksPerBeat > 0 && trackStates.Length == |tracks| && ValidStates(tracks, trackStates[..])
    }

    /** Replayer(midiFile, timeWarp, eventProcessor, bpm): set up the track
        states, then process every event. */
    constructor(tracks: seq<seq<Event>>, ticksPerBeat: int, timeWarp: real, bpm: Option<real>)
      requires ticksPerBeat > 0
      ensures Valid()
      ensures this.tracks == tracks && this.ticksPerBeat == ticksPerBeat && this.timeWarp == timeWarp
      ensures bpmOverride == Overrides(bpm)
      ensures temporal == Timeline(Merge(tracks, InitialStates(tracks)), InitialBpm(bpm), Overrides(bpm), ticksPerBeat, timeWarp)
    {
      this.tracks := tracks;
      this.ticksPerBeat := ticksPerBeat;
      this.timeWarp := timeWarp;
      beatsPerMinute := InitialBpm(bpm);
      bpmOverride := Overrides(bpm);
      trackStates := new TrackState[|tracks|](_ => TrackState(0, None));
      midiEvent := None;
      temporal := [];
      new;
      var i := 0;
      while i < |tracks|
        invariant 0 <= i <= |tracks|
        invariant forall j :: 0 <= j < i ==> trackStates[j] == InitialState(tracks[j])
        modifies trackStates
      {
        trackStates[i] := TrackState(0, if |tracks[i]| > 0 then Some(tracks[i][0].deltaTime) else None);
        i := i + 1;
      }
      assert trackStates[..] == InitialStates(tracks);
      InitialStatesValid(tracks);
      ProcessEvents();
    }

    /** getNextEvent: scan for the live track with the smallest counter,
        consume its event, and lower every live counter by that distance. */
    method GetNextEvent() returns (r: Option<Emission>)
      requires Valid()
      modifies trackStates
      ensures Valid()
      ensures r == NextEmission(tracks, old(trackStates[..]))
      ensures trackStates[..] == NextStates(tracks, old(trackStates[..]))
    {
      ghost var states := trackStates[..];
      var ticksToNextEvent: Option<int> := None;
      var nextEventTrack: Option<nat> := None;
      var nextEventIndex: nat := 0;
      var i := 0;
      while i < trackStates.Length
        invariant 0 <= i <= trackStates.Length
        invariant trackStates[..] == states
        invariant nextEventTrack == SelectUpTo(states, i)
        invariant nextEventTrack.None? ==> ticksToNextEvent.None?
        invariant nextEventTrack.Some? ==>
          && ticksToNextEvent == states[nextEventTrack.value].ticksToNextEvent
          && nextEventIndex == states[nextEventTrack.value].nextEventIndex
      {
        if trackStates[i].ticksToNextEvent.Some?
           && (ticksToNextEvent.None? || trackStates[i].ticksToNextEvent.value < ticksToNextEvent.value)
        {
          ticksToNextEvent := trackStates[i].ticksToNextEvent;
          nextEventTrack := Some(i);
          nextEventIndex := trackStates[i].nextEventIndex;
        }
        i := i + 1;
      }
      if nextEventTrack.None? {
        return None;
      }
      var t := nextEventTrack.value;
      var d := ticksToNextEvent.value;
      var nextEvent := tracks[t][nextEventIndex];
      if nextEventIndex + 1 < |tracks[t]| {
        trackStates[t] := trackStates[t].(ticksToNextEvent := Some(d + tracks[t][nextEventIndex + 1].deltaTime));
      } else {
        trackStates[t] := trackStates[t].(ticksToNextEvent := None);
      }
      trackStates[t] := trackStates[t].(nextEventIndex := trackStates[t].nextEventIndex + 1);
      ghost var consumed := states[t := Consume(tracks[t], states[t])];
      assert trackStates[..] == consumed;
      i := 0;
      while i < trackStates.Length
        invariant 0 <= i <= trackStates.Length
        invariant forall j :: 0 <= j < i ==> trackStates[j] == Lower(consumed[j], d)
        invariant forall j :: i <= j < trackStates.Length ==> trackStates[j] == consumed[j]
      {
        if trackStates[i].ticksToNextEvent.Some? {
          trackStates[i] := trackStates[i].(ticksToNextEvent := Some(trackStates[i].ticksToNextEvent.value - d));
        }
        i := i + 1;
      }
      r := Some(Emission(d, nextEvent, t));
      assert trackStates[..] == Advance(tracks, states, t);
      StepFacts(tracks, states);
    }

    /** processNext: apply a set-tempo event (unless overridden), record the
        gap in milliseconds, and fetch the next event. */
    method ProcessNext()
      requires Valid() && midiEvent.Some?
      modifies this`beatsPerMinute, this`temporal, this`midiEvent, trackStates
      ensures Valid()
      ensures beatsPerMinute == TempoAfter(old(beatsPerMinute), bpmOverride, old(midiEvent).value.event)
      ensures temporal == old(temporal)
        + [Entry(old(midiEvent).value, GapMillis(old(midiEvent).value.ticksToEvent, beatsPerMinute, ticksPerBeat, timeWarp))]
      ensures midiEvent == NextEmission(tracks, old(trackStates[..]))
      ensures trackStates[..] == NextStates(tracks, old(trackStates[..]))
    {
      var ev := midiEvent.value;
      if !bpmOverride && ev.event.kind.SetTempo? {
        beatsPerMinute := 60000000.0 / ev.event.kind.microsecondsPerBeat as real;
      }
      var beatsToGenerate: real := 0.0;
      var secondsToGenerate: real := 0.0;
      if ev.ticksToEvent > 0 {
        beatsToGenerate := ev.ticksToEvent as real / ticksPerBeat as real;
        secondsToGenerate := beatsToGenerate / (beatsPerMinute / 60.0);
      }
      var time := secondsToGenerate * 1000.0 * timeWarp;
      assert time == GapMillis(ev.ticksToEvent, beatsPerMinute, ticksPerBeat, timeWarp);
      temporal := temporal + [Entry(ev, time)];
      midiEvent := GetNextEvent();
    }

    /** processEvents: fetch the first event and process events until
        getNextEvent returns null. */
    method ProcessEvents()
      requires Valid()
      modifies this`beatsPerMinute, this`temporal, this`midiEvent, trackStates
      ensures Valid()
      ensures temporal == old(temporal)
        + Timeline(Merge(tracks, old(trackStates[..])), old(beatsPerMinute), bpmOverride, ticksPerBeat, timeWarp)
    {
      ghost var total := old(temporal)
        + Timeline(Merge(tracks, trackStates[..]), beatsPerMinute, bpmOverride, ticksPerBeat, timeWarp);
      MergeUnfold(tracks, trackStates[..]);
      midiEvent := GetNextEvent();
      while midiEvent.Some?
        invariant Valid()
        invariant midiEvent.None? ==> Merge(tracks, trackStates[..]) == []
        invariant total == temporal
          + Timeline(Emitted(midiEvent) + Merge(tracks, trackStates[..]), beatsPerMinute, bpmOverride, ticksPerBeat, timeWarp)
        decreases Remaining(tracks, trackStates[..]) + |Emitted(midiEvent)|
      {
        ProcessStep(tracks, trackStates[..], midiEvent.value, temporal, beatsPerMinute, bpmOverride, ticksPerBeat, timeWarp);
        ProcessNext();
      }
    }
  }

  /** One round of processEvents: the entry for the fetched event, then the
      timeline of what the next getNextEvent leaves pending, at the tempo
      that event set. */
  lemma ProcessStep(tracks: seq<seq<Event>>, states: seq<TrackState>, ev: Emission, before: seq<Entry>,
                    bpm: Bpm, overridden: bool, ticksPerBeat: int, timeWarp: real)
    requires ValidStates(tracks, states) && ticksPerBeat > 0
    ensures ValidStates(tracks, NextStates(tracks, states))
    ensures Remaining(tracks, NextStates(tracks, states)) + |Emitted(NextEmission(tracks, states))|
            < Remaining(tracks, states) + |Emitted(Some(ev))|
    ensures NextEmission(tracks, states).None? ==> Merge(tracks, NextStates(tracks, states)) == []
    ensures var tempo := TempoAfter(bpm, overridden, ev.event);
      before + Timeline(Emitted(Some(ev)) + Merge(tracks, states), bpm, overridden, ticksPerBeat, timeWarp)
      == before + [Entry(ev, GapMillis(ev.ticksToEvent, tempo, ticksPerBeat, timeWarp))]
         + Timeline(Emitted(NextEmission(tracks, states)) + Merge(tracks, NextStates(tracks, states)),
                    tempo, overridden, ticksPerBeat, timeWarp)
  {
    MergeUnfold(tracks, states);
    StepRemaining(tracks, states);
    TimelineCons(ev, Merge(tracks, states), bpm, overridden, ticksPerBeat, timeWarp);
    if NextEmission(tracks, states).None? {
      MergeUnfold(tracks, NextStates(tracks, states));
    }
  }
}
